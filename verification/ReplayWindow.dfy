/** The receiver's replay window (internal/core/obfs.go, type replayWindow). */
module ReplayWindow {
  import opened Words
  import opened Nonce

  const SPAN: Word64 := 3_936_256        // 4096 * 961 ticks
  const MAX_ENTRIES: nat := 8192
  const HALF: Word64 := 0x8000_0000      // 1 << 31
  const EPOCH: Word64 := 0x1_0000_0000   // 1 << 32

  /** The value of a window: what the class below holds in its fields. */
  datatype Window = Window(initialized: bool, ssrc: Word32, highest: Word64, seen: map<seq<Byte>, Word64>)

  const Fresh: Window := Window(false, 0, 0, map[])

  /** The header fields `accept` reads from a packet of at least 12 bytes. */
  function HeaderFrom(wire: seq<Byte>): Header
    requires |wire| >= 12
  {
    Header(Get32(wire[8..12]), Get16(wire[2..4]), Get32(wire[4..8]))
  }

  /** The 64-bit time of a 32-bit timestamp, in wrapping uint64 arithmetic. */
  function Extend64(highest: Word64, ts: Word32): Word64 {
    var e: Word64 := highest - Low32(highest) + ts;
    if Low64(e + HALF) < highest then Low64(e + EPOCH)
    else if e > Low64(highest + HALF) && e >= EPOCH then e - EPOCH
    else e
  }

  /** The first packet fixes the SSRC and the epoch. */
  function Opened(w: Window, h: Header): Window {
    if w.initialized then w else Window(true, h.ssrc, h.ts, map[])
  }

  function Highest(w: Window, e: Word64): Word64 {
    if e > w.highest then e else w.highest
  }

  function Cutoff(highest: Word64): Word64 {
    highest - (if highest < SPAN then highest else SPAN)
  }

  function Pruned(seen: map<seq<Byte>, Word64>, cutoff: Word64): map<seq<Byte>, Word64> {
    map n | n in seen && seen[n] >= cutoff :: seen[n]
  }

  function Roomy(seen: map<seq<Byte>, Word64>, highest: Word64): map<seq<Byte>, Word64> {
    if |seen| >= MAX_ENTRIES then Pruned(seen, Cutoff(highest)) else seen
  }

  /** The time at which the window files header `h`. */
  function TimeOf(w: Window, h: Header): Word64 { Extend64(Opened(w, h).highest, h.ts) }

  /** Whether the window passes header `h`. */
  predicate Passes(w: Window, h: Header) {
    && (w.initialized ==> w.ssrc == h.ssrc)
    && (w.initialized ==> BuildNonce(h) !in w.seen)
    && Low64(TimeOf(w, h) + SPAN) >= Opened(w, h).highest
    && |Roomy(Opened(w, h).seen, Highest(Opened(w, h), TimeOf(w, h)))| < MAX_ENTRIES
  }

  /** The window after header `h`. A packet refused only because the table is
      full still moves the window forward. */
  function Next(w: Window, h: Header): Window {
    var o := Opened(w, h);
    var e := TimeOf(w, h);
    if o.ssrc != h.ssrc || BuildNonce(h) in o.seen || Low64(e + SPAN) < o.highest then o
    else
      var top := Highest(o, e);
      var seen := Roomy(o.seen, top);
      if |seen| >= MAX_ENTRIES then o.(highest := top, seen := seen)
      else o.(highest := top, seen := seen[BuildNonce(h) := e])
  }

  class Guard {
    var seen: map<seq<Byte>, Word64>
    var ssrc: Word32
    var highestTime: Word64
    var initialized: bool

    constructor ()
      ensures View() == Fresh
    {
      seen, ssrc, highestTime, initialized := map[], 0, 0, false;
    }

    ghost function View(): Window
      reads this
    {
      Window(initialized, ssrc, highestTime, seen)
    }

    /** The deletion loop; the order in which Go walks the map does not matter. */
    method Delete(cutoff: Word64)
      modifies this`seen
      ensures seen == Pruned(old(seen), cutoff)
    {
      var todo := seen.Keys;
      while todo != {}
        invariant todo <= seen.Keys
        invariant seen == map n | n in old(seen) && (n in todo || old(seen)[n] >= cutoff) :: old(seen)[n]
        decreases todo
      {
        var n :| n in todo;
        todo := todo - {n};
        if seen[n] < cutoff {
          seen := map k | k in seen && k != n :: seen[k];
        }
      }
    }

    method Unwrap(ts: Word32) returns (extended: Word64)
      ensures extended == Extend64(highestTime, ts)
    {
      extended := highestTime - Low32(highestTime) + ts;
      if Low64(extended + HALF) < highestTime {
        extended := Low64(extended + EPOCH);
      } else if extended > Low64(highestTime + HALF) && extended >= EPOCH {
        extended := extended - EPOCH;
      }
    }

    method Accept(wire: seq<Byte>) returns (ok: bool)
      modifies this
      ensures |wire| < 12 ==> !ok && View() == old(View())
      ensures |wire| >= 12 ==> ok == Passes(old(View()), HeaderFrom(wire))
      ensures |wire| >= 12 ==> View() == Next(old(View()), HeaderFrom(wire))
    {
      if |wire| < 12 {
        return false;
      }
      ok := Judge(HeaderFrom(wire));
    }

    method Judge(h: Header) returns (ok: bool)
      modifies this
      ensures ok == Passes(old(View()), h)
      ensures View() == Next(old(View()), h)
    {
      var nonce := BuildNonce(h);
      if !initialized {
        ssrc := h.ssrc;
        highestTime := h.ts;
        seen := map[];
        initialized := true;
      } else if ssrc != h.ssrc {
        return false;
      }
      if nonce in seen {
        return false;
      }
      var extended := Unwrap(h.ts);
      if Low64(extended + SPAN) < highestTime {
        return false;
      }
      if extended > highestTime {
        highestTime := extended;
      }
      if |seen| >= MAX_ENTRIES {
        Delete(Cutoff(highestTime));
        if |seen| >= MAX_ENTRIES {
          return false;
        }
      }
      seen := seen[nonce := extended];
      return true;
    }
  }
}
