/** Safety of the replay window over every run of packets. */
module ReplayRuns {
  import opened Words
  import opened Nonce
  import opened ReplayWindow
  import opened Sets

  // Below this time none of the window's uint64 operations wraps.
  const SAFE_TIME: Word64 := 0xFFFF_FFFE_0000_0000

  /** The window after a run of packets that all reached it. */
  function After(run: seq<Header>): Window {
    if run == [] then Fresh else Next(After(run[..|run| - 1]), run[|run| - 1])
  }

  predicate Accepted(run: seq<Header>, i: nat)
    requires i < |run|
  {
    Passes(After(run[..i]), run[i])
  }

  /** The extended time under which packet `i` of a run was filed. */
  function FiledAt(run: seq<Header>, i: nat): Word64
    requires i < |run|
  {
    TimeOf(After(run[..i]), run[i])
  }

  ghost predicate AllPass(run: seq<Header>) {
    forall i :: 0 <= i < |run| ==> Accepted(run, i)
  }

  lemma ExtendPassing(run: seq<Header>, h: Header)
    requires AllPass(run) && Passes(After(run), h)
    ensures AllPass(run + [h]) && After(run + [h]) == Next(After(run), h)
  {
    var longer := run + [h];
    assert longer[..|run|] == run;
    forall i | 0 <= i < |longer|
      ensures Accepted(longer, i)
    {
      if i < |run| {
        assert longer[..i] == run[..i] && Accepted(run, i);
      }
    }
  }

  /** Unwrapping recovers every time strictly within 2^31 of the highest one,
      across epoch boundaries. */
  lemma UnwrapIsExact(h: Word64, t: Word64)
    requires h <= SAFE_TIME && h - HALF < t < h + HALF
    ensures Extend64(h, Low32(t)) == t
  {
    var k := Low32Split(h);
    var l := Low32Split(t);
    var e := h - Low32(h) + Low32(t);
    assert e == t + (k - l) * EPOCH;
    assert -1 <= k - l <= 1;
  }

  /** At exactly 2^31 the code no longer recovers a time from another epoch. */
  lemma UnwrapFailsAtHalf()
    ensures var h: Word64, t: Word64 := 0x1_0000_0000, 0x8000_0000;
            h - t == HALF && Extend64(h, Low32(t)) != t
  {
  }

  /** Which time a timestamp stands for, for every window: of those in its class
      modulo 2^32 the one within 2^31 of the highest time, on a tie the one of
      the same epoch, and a timestamp 2^31 above a window of the first epoch
      itself, since there is no epoch before. */
  lemma TimeIsNearest(h: Word64, ts: Word32, t: Word64)
    requires h <= SAFE_TIME
    ensures Extend64(h, ts) == t <==>
      t % 0x1_0000_0000 == ts &&
      ((h - 0x8000_0000 <= t <= h + 0x8000_0000
        && (t == h - 0x8000_0000 || t == h + 0x8000_0000 ==> t / 0x1_0000_0000 == h / 0x1_0000_0000))
       || (t < 0x1_0000_0000 && h + 0x8000_0000 < t))
  {
    var k := Low32Split(h);
    var l := Low32Split(t);
    UnwrapCases(h, ts, k);
    assert k == h / 0x1_0000_0000 && l == t / 0x1_0000_0000;
    hide Extend64;
  }

  lemma UnwrapCases(h: Word64, ts: Word32, k: int)
    requires h <= SAFE_TIME && h == k * 0x1_0000_0000 + Low32(h)
    ensures var e := k * 0x1_0000_0000 + ts;
            Extend64(h, ts) == if e + HALF < h then e + EPOCH else if e > h + HALF && k > 0 then e - EPOCH else e
  {
  }

  lemma FilesExactly(w: Window, h: Header, t: Word64)
    requires w.initialized && w.highest <= SAFE_TIME && Low32(t) == h.ts
    requires w.highest - HALF < t < w.highest + HALF
    ensures TimeOf(w, h) == t
  {
    UnwrapIsExact(w.highest, t);
  }

  /** When a new packet within reach passes: it must not trail by more than a
      span, and pruning must leave room. */
  lemma PassesExactly(w: Window, h: Header, t: Word64)
    requires w.initialized && w.ssrc == h.ssrc && w.highest <= SAFE_TIME && Low32(t) == h.ts
    requires w.highest - HALF < t < w.highest + HALF
    requires BuildNonce(h) !in w.seen
    ensures Passes(w, h) <==> t + SPAN >= w.highest && |Roomy(w.seen, Highest(w, t))| < MAX_ENTRIES
  {
    FilesExactly(w, h, t);
    assert Low64(t + SPAN) == t + SPAN;
    hide TimeOf, BuildNonce, Roomy, Highest, Low64, Low32;
  }

  lemma UnwrapKeepsResidue(h: Word64, ts: Word32)
    requires h <= SAFE_TIME
    ensures Extend64(h, ts) <= h + HALF || Extend64(h, ts) < EPOCH
    ensures Low32(Extend64(h, ts)) == ts
  {
    var k := Low32Split(h);
    var e := Extend64(h, ts);
    assert e == k * EPOCH + ts || e == (k + 1) * EPOCH + ts || e == (k - 1) * EPOCH + ts;
    if e == k * EPOCH + ts {
      Low32Is(e, k, ts);
    } else if e == (k + 1) * EPOCH + ts {
      Low32Is(e, k + 1, ts);
    } else {
      Low32Is(e, k - 1, ts);
    }
  }

  // ----- Packets of other senders -----

  lemma ForeignIsRefused(w: Window, h: Header)
    requires w.initialized && w.ssrc != h.ssrc
    ensures !Passes(w, h) && Next(w, h) == w
  {
  }

  lemma {:induction false} FirstSets(run: seq<Header>)
    requires run != []
    ensures After(run).initialized && After(run).ssrc == run[0].ssrc
  {
    hide Next;
    var n := |run| - 1;
    if n > 0 {
      FirstSets(run[..n]);
      TimeNeverGoesBack(After(run[..n]), run[n]);
    } else {
      FirstOpens(run[0]);
    }
  }

  lemma FirstOpens(h: Header)
    ensures Next(Fresh, h).initialized && Next(Fresh, h).ssrc == h.ssrc
  {
  }

  /** The packets of a run that have the SSRC of its first one. */
  function Own(run: seq<Header>): seq<Header> {
    if run == [] then []
    else
      var n := |run| - 1;
      Own(run[..n]) + if run[n].ssrc == run[0].ssrc then [run[n]] else []
  }

  /** In every run: packets of another SSRC than the first one's are refused, and
      without them the window and every other verdict would be the same. */
  lemma {:induction false} ForeignIsIgnored(run: seq<Header>)
    ensures After(run) == After(Own(run))
    ensures forall i :: 0 <= i < |run| ==>
      (Accepted(run, i) <==> run[i].ssrc == run[0].ssrc && Passes(After(Own(run[..i])), run[i]))
  {
    hide Passes, Next;
    if run != [] {
      var n := |run| - 1;
      var front, own := run[..n], Own(run[..n]);
      ForeignIsIgnored(front);
      if run[n].ssrc == run[0].ssrc {
        assert (own + [run[n]])[..|own|] == own;
      } else {
        assert Own(run) == own + [] == own;
        FirstSets(front);
        ForeignIsRefused(After(front), run[n]);
      }
      forall i | 0 <= i < |run|
        ensures Accepted(run, i) <==> run[i].ssrc == run[0].ssrc && Passes(After(Own(run[..i])), run[i])
      {
        assert i < n ==> front[..i] == run[..i] && Accepted(front, i) == Accepted(run, i);
      }
    }
  }

  /** A refused packet changes the window in one case only: new, of the window's
      SSRC and not late, it finds 8192 entries that are all in date. The window
      then moves on and forgets what is out of date, as if it had passed. */
  lemma RefusedExactly(w: Window, h: Header)
    requires w.initialized && w.highest <= SAFE_TIME && !Passes(w, h)
    ensures var t := TimeOf(w, h);
            var top := if t > w.highest then t else w.highest;
            if w.ssrc == h.ssrc && BuildNonce(h) !in w.seen && t + 3_936_256 >= w.highest then
              var inDate := map n | n in w.seen && w.seen[n] + 3_936_256 >= top :: w.seen[n];
              |w.seen| >= 8192 && |inDate| >= 8192 && Next(w, h) == w.(highest := top, seen := inDate)
            else Next(w, h) == w
  {
    var t := TimeOf(w, h);
    TimeIsSafe(w, h);
    PrunedIsInDate(w.seen, Highest(w, t));
    hide TimeOf, BuildNonce, Pruned, Cutoff;
  }

  lemma TimeIsSafe(w: Window, h: Header)
    requires w.initialized && w.highest <= SAFE_TIME
    ensures Low64(TimeOf(w, h) + SPAN) == TimeOf(w, h) + SPAN
  {
    UnwrapKeepsResidue(w.highest, h.ts);
  }

  lemma PrunedIsInDate(seen: map<seq<Byte>, Word64>, highest: Word64)
    ensures Pruned(seen, Cutoff(highest)) == map n | n in seen && seen[n] + 3_936_256 >= highest :: seen[n]
  {
  }

  /** An accepted nonce is either on file under its time, or the window has
      moved more than a span beyond it. */
  ghost predicate Tracked(w: Window, h: Header, e: Word64) {
    && w.initialized && w.ssrc == h.ssrc && Low32(e) == h.ts
    && e <= w.highest
    && ((BuildNonce(h) in w.seen && w.seen[BuildNonce(h)] == e) || e + SPAN < w.highest)
  }

  lemma TimeNeverGoesBack(w: Window, h: Header)
    requires w.initialized
    ensures Next(w, h).initialized && Next(w, h).ssrc == w.ssrc
    ensures w.highest <= Next(w, h).highest
  {
  }

  lemma AcceptedIsTracked(w: Window, h: Header)
    requires Passes(w, h) && Opened(w, h).highest <= SAFE_TIME
    ensures Tracked(Next(w, h), h, TimeOf(w, h))
  {
    UnwrapKeepsResidue(Opened(w, h).highest, h.ts);
  }

  /** A tracked packet is refused as long as the window is less than 2^31 past it. */
  lemma TrackedIsRefused(w: Window, h: Header, e: Word64)
    requires Tracked(w, h, e) && w.highest < e + HALF && w.highest <= SAFE_TIME
    ensures !Passes(w, h) && Next(w, h) == w
  {
    if BuildNonce(h) !in w.seen {
      UnwrapIsExact(w.highest, e);
      assert TimeOf(w, h) == e;
    }
  }

  /** Every other packet leaves it tracked. */
  lemma TrackedIsKept(w: Window, h: Header, e: Word64, g: Header)
    requires Tracked(w, h, e) && w.highest < e + HALF && w.highest <= SAFE_TIME
    ensures Tracked(Next(w, g), h, e)
  {
  }

  lemma {:induction false} RunTracks(run: seq<Header>, i: nat, j: nat)
    requires i < j <= |run| && Accepted(run, i)
    requires After(run[..j]).highest < FiledAt(run, i) + HALF
    requires After(run[..j]).highest <= SAFE_TIME
    ensures Tracked(After(run[..j]), run[i], FiledAt(run, i))
    decreases j
  {
    assert run[..j][..j - 1] == run[..j - 1];
    hide Passes, Next, TimeOf, Tracked;
    var w := After(run[..j - 1]);
    if j == i + 1 {
      if w.initialized {
        TimeNeverGoesBack(w, run[i]);
      }
      AcceptedIsTracked(w, run[i]);
    } else {
      Initialized(run, i, j - 1);
      TimeNeverGoesBack(w, run[j - 1]);
      RunTracks(run, i, j - 1);
      TrackedIsKept(w, run[i], FiledAt(run, i), run[j - 1]);
    }
  }

  lemma {:induction false} Initialized(run: seq<Header>, i: nat, j: nat)
    requires i < j <= |run|
    ensures After(run[..j]).initialized
    decreases j
  {
  }

  /** Replay safety: in every run, a packet that was accepted under time E is
      refused on every later arrival while the highest time is below E + 2^31. */
  lemma ReplaySafety(run: seq<Header>, i: nat, j: nat)
    requires i < j < |run| && run[i] == run[j] && Accepted(run, i)
    requires After(run[..j]).highest < FiledAt(run, i) + HALF
    requires After(run[..j]).highest <= SAFE_TIME
    ensures !Accepted(run, j)
  {
    RunTracks(run, i, j);
    TrackedIsRefused(After(run[..j]), run[i], FiledAt(run, i));
  }

  /** The clock advances by at most 2^31 a packet after the first epoch, so no
      run of up to 2^32 packets gets near the end of the 64-bit range. */
  lemma {:induction false} ClockBound(run: seq<Header>)
    requires |run| <= 0x1_0000_0000
    ensures After(run).highest <= EPOCH + |run| * HALF
    ensures After(run).highest <= SAFE_TIME
  {
    if run != [] {
      var w := After(run[..|run| - 1]);
      ClockBound(run[..|run| - 1]);
      UnwrapKeepsResidue(Opened(w, run[|run| - 1]).highest, run[|run| - 1].ts);
    }
  }

  /** Memory is bounded over every run. */
  lemma {:induction false} MemoryBound(run: seq<Header>)
    ensures |After(run).seen| <= 8192
  {
    if run != [] {
      var w, h := After(run[..|run| - 1]), run[|run| - 1];
      MemoryBound(run[..|run| - 1]);
      PruningShrinks(w.seen, Cutoff(Highest(Opened(w, h), TimeOf(w, h))));
    }
  }

  lemma PruningShrinks(seen: map<seq<Byte>, Word64>, cutoff: Word64)
    ensures |Pruned(seen, cutoff)| <= |seen|
  {
    SubsetSize(Pruned(seen, cutoff).Keys, seen.Keys);
  }
}
