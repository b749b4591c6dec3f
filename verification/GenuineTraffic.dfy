/** The replay window loses no genuine packet: one sender's packets, each
    delivered once, out of order within stated limits. */
module GenuineTraffic {
  import opened Words
  import opened Nonce
  import opened ReplayWindow
  import opened ReplayRuns
  import opened Sets

  // The furthest a packet may trail the highest counter. The code's constant
  // speaks of 4096 packets; 4100 is what its span of ticks admits.
  const LAG: nat := 4100

  type Counter = c: int | 0 <= c < 0x1_0000_0000_0000

  function Top(cs: seq<Counter>): (m: Counter)
    requires cs != []
    ensures m in cs && forall c :: c in cs ==> c <= m
  {
    var last := cs[|cs| - 1];
    if |cs| == 1 then last
    else
      assert cs == cs[..|cs| - 1] + [last];
      var m := Top(cs[..|cs| - 1]);
      if m < last then last else m
  }

  function Headers(s: Sender, cs: seq<Counter>): (hs: seq<Header>)
    ensures |hs| == |cs|
  {
    seq(|cs|, i requires 0 <= i < |cs| => HeaderOf(s, cs[i]))
  }

  /** Packet `c` may arrive after the non-empty history `cs`. */
  ghost predicate InOrderEnough(cs: seq<Counter>, c: Counter)
    requires cs != []
  {
    && c !in cs
    && Top(cs) <= c + LAG
    && Ticks(c) < Ticks(Top(cs)) + HALF
  }

  /** Arrival orders of genuine packets. */
  ghost predicate Genuine(cs: seq<Counter>) {
    forall i :: 1 <= i < |cs| ==> InOrderEnough(cs[..i], cs[i])
  }

  lemma HeadersExtend(s: Sender, cs: seq<Counter>, c: Counter)
    ensures Headers(s, cs + [c]) == Headers(s, cs) + [HeaderOf(s, c)]
  {
  }

  ghost predicate AllAccepted(s: Sender, cs: seq<Counter>) { AllPass(Headers(s, cs)) }

  lemma AcceptedIsAllPass(s: Sender, cs: seq<Counter>)
    ensures AllAccepted(s, cs) == AllPass(Headers(s, cs))
  {
  }

  /** A packet's time as the window counts it: the first packet seen sets the
      origin, its 32-bit timestamp the offset. */
  function WindowTime(s: Sender, first: Counter, c: Counter): int {
    HeaderOf(s, first).ts + Ticks(c) - Ticks(first)
  }

  /** No packet of the run belongs before the epoch in which the window opened. */
  ghost predicate WithinEpoch(s: Sender, cs: seq<Counter>) {
    forall i :: 0 <= i < |cs| ==> InEpoch(s, cs[0], cs[i])
  }

  predicate InEpoch(s: Sender, first: Counter, c: Counter) { WindowTime(s, first, c) >= 0 }

  lemma WindowTimeIsTimestamp(s: Sender, first: Counter, c: Counter)
    ensures Low32(WindowTime(s, first, c)) == HeaderOf(s, c).ts
    ensures WindowTime(s, first, c) < SAFE_TIME - HALF
  {
    TimestampIsTicks(s, first);
    TimestampIsTicks(s, c);
    var k := Low32Split(s.initTs + Ticks(first));
    var l := Low32Split(s.initTs + Ticks(c));
    Low32Is(WindowTime(s, first, c), l - k, HeaderOf(s, c).ts);
  }

  lemma DistinctNonces(s: Sender, c: Counter, d: Counter)
    requires c != d
    ensures NonceOf(s, c) != NonceOf(s, d)
  {
    if c < d {
      NoncesAreFresh(s, c, d);
    } else {
      NoncesAreFresh(s, d, c);
    }
  }

  /** Trailing the top by at most LAG is exactly staying within the span. */
  lemma LagIsSpan(top: Counter, c: Counter)
    requires c <= top
    ensures Ticks(top) - Ticks(c) <= SPAN <==> top <= c + LAG
  {
  }

  lemma TicksAreMonotone(c: nat, d: nat)
    ensures c <= d <==> Ticks(c) <= Ticks(d)
  {
  }

  /** What the window holds after the genuine history `cs`. */
  ghost predicate Mirrors(s: Sender, cs: seq<Counter>, w: Window)
    requires cs != []
  {
    && w.initialized && w.ssrc == s.ssrc
    && w.highest == WindowTime(s, cs[0], Top(cs))
    && (forall n :: n in w.seen ==>
          exists c :: c in cs && n == NonceOf(s, c) && w.seen[n] == WindowTime(s, cs[0], c))
  }

  /** At most LAG + 1 counters share a span of time. */
  lemma PrunedIsSmall(s: Sender, cs: seq<Counter>, seen: map<seq<Byte>, Word64>, top: Counter, highest: Word64)
    requires cs != [] && highest == WindowTime(s, cs[0], top)
    requires forall c :: c in cs ==> c <= top
    requires forall n :: n in seen ==>
      exists c :: c in cs && n == NonceOf(s, c) && seen[n] == WindowTime(s, cs[0], c)
    ensures |Pruned(seen, Cutoff(highest))| <= LAG + 1
  {
    var low := if top < LAG then 0 else top - LAG;
    var recent := NoncesBetween(s, low, top);
    var kept := Pruned(seen, Cutoff(highest)).Keys;
    forall n | n in kept
      ensures n in recent
    {
      var c :| c in cs && n == NonceOf(s, c) && seen[n] == WindowTime(s, cs[0], c);
      LagIsSpan(top, c);
    }
    SubsetSize(kept, recent);
  }

  ghost function NoncesBetween(s: Sender, low: Counter, top: Counter): (r: set<seq<Byte>>)
    requires low <= top
    ensures |r| <= top - low + 1
    ensures forall c: Counter :: low <= c <= top ==> NonceOf(s, c) in r
    decreases top - low
  {
    if low == top then {NonceOf(s, top)}
    else NoncesBetween(s, low, top - 1) + {NonceOf(s, top)}
  }

  lemma NotYetSeen(s: Sender, cs: seq<Counter>, w: Window, c: Counter)
    requires cs != [] && Mirrors(s, cs, w) && c !in cs
    ensures NonceOf(s, c) !in w.seen
  {
    if NonceOf(s, c) in w.seen {
      var d :| d in cs && NonceOf(s, c) == NonceOf(s, d) && w.seen[NonceOf(s, c)] == WindowTime(s, cs[0], d);
      DistinctNonces(s, c, d);
    }
  }

  /** The time of the next packet is within reach of unwrapping. */
  lemma WithinReach(s: Sender, cs: seq<Counter>, w: Window, c: Counter)
    requires cs != [] && Mirrors(s, cs, w)
    requires 0 <= WindowTime(s, cs[0], c)
    requires Ticks(Top(cs)) - HALF < Ticks(c) < Ticks(Top(cs)) + HALF
    ensures w.highest <= SAFE_TIME
    ensures w.highest - HALF < WindowTime(s, cs[0], c) < w.highest + HALF
    ensures Low32(WindowTime(s, cs[0], c)) == HeaderOf(s, c).ts
    ensures TimeOf(w, HeaderOf(s, c)) == WindowTime(s, cs[0], c)
  {
    WindowTimeIsTimestamp(s, cs[0], c);
    WindowTimeIsTimestamp(s, cs[0], Top(cs));
    FilesExactly(w, HeaderOf(s, c), WindowTime(s, cs[0], c));
  }

  /** One more genuine packet is passed and mirrored. */
  lemma NextGenuine(s: Sender, cs: seq<Counter>, w: Window, c: Counter)
    requires cs != [] && Mirrors(s, cs, w) && InOrderEnough(cs, c)
    requires WindowTime(s, cs[0], c) >= 0
    ensures Passes(w, HeaderOf(s, c))
    ensures Mirrors(s, cs + [c], Next(w, HeaderOf(s, c)))
  {
    var h, t, top := HeaderOf(s, c), WindowTime(s, cs[0], c), Top(cs);
    NotYetSeen(s, cs, w, c);
    TicksAreMonotone(c, top);
    if c <= top {
      LagIsSpan(top, c);
    }
    WithinReach(s, cs, w, c);
    assert (cs + [c])[..|cs|] == cs;
    var top' := Top(cs + [c]);
    assert top' == if top < c then c else top;
    TicksAreMonotone(top, c);
    PrunedIsSmall(s, cs, w.seen, top', Highest(w, t));
    PassesExactly(w, h, t);
    PassedIsFiled(w, h, t);
    Refiled(s, cs, w, c);
  }

  lemma PassedIsFiled(w: Window, h: Header, t: Word64)
    requires w.initialized && Passes(w, h) && TimeOf(w, h) == t
    ensures var x := Next(w, h); x.initialized && x.ssrc == w.ssrc && x.highest == Highest(w, t)
  {
  }

  lemma SeenIsRefused(w: Window, h: Header)
    requires w.initialized && BuildNonce(h) in w.seen
    ensures !Passes(w, h)
  {
  }

  lemma OnlyOneIsFiled(w: Window, h: Header)
    requires w.initialized
    ensures var x := Next(w, h); forall n :: n in x.seen ==>
      (n in w.seen && x.seen[n] == w.seen[n]) || (n == BuildNonce(h) && x.seen[n] == TimeOf(w, h))
  {
  }

  lemma Refiled(s: Sender, cs: seq<Counter>, w: Window, c: Counter)
    requires cs != [] && Mirrors(s, cs, w)
    requires TimeOf(w, HeaderOf(s, c)) == WindowTime(s, cs[0], c)
    ensures var x := Next(w, HeaderOf(s, c)); forall n :: n in x.seen ==>
      exists d :: d in cs + [c] && n == NonceOf(s, d) && x.seen[n] == WindowTime(s, cs[0], d)
  {
    var x := Next(w, HeaderOf(s, c));
    OnlyOneIsFiled(w, HeaderOf(s, c));
    hide Next, TimeOf, HeaderOf, BuildNonce, Ticks;
    forall n | n in x.seen
      ensures exists d :: d in cs + [c] && n == NonceOf(s, d) && x.seen[n] == WindowTime(s, cs[0], d)
    {
      if n in w.seen && x.seen[n] == w.seen[n] {
        var d :| d in cs && n == NonceOf(s, d) && w.seen[n] == WindowTime(s, cs[0], d);
        assert d in cs + [c];
      } else {
        assert c in cs + [c] && n == NonceOf(s, c);
      }
    }
  }

  lemma FirstWindow(h: Header)
    ensures Passes(Fresh, h) && Next(Fresh, h) == Window(true, h.ssrc, h.ts, map[BuildNonce(h) := h.ts])
  {
    Low32Is(h.ts, 0, h.ts);
    FilesExactly(Opened(Fresh, h), h, h.ts);
    PassesExactly(Opened(Fresh, h), h, h.ts);
    hide BuildNonce, Low32, Low64;
  }

  lemma FirstIsMirrored(s: Sender, first: Counter)
    ensures Passes(Fresh, HeaderOf(s, first))
    ensures Mirrors(s, [first], Next(Fresh, HeaderOf(s, first)))
    ensures Next(Fresh, HeaderOf(s, first)).seen.Keys == {NonceOf(s, first)}
  {
    FirstWindow(HeaderOf(s, first));
    hide Passes, Next, BuildNonce, Ticks;
    assert first in [first];
  }

  lemma {:induction false} GenuineIsMirrored(s: Sender, cs: seq<Counter>)
    requires cs != [] && Genuine(cs) && WithinEpoch(s, cs)
    ensures AllAccepted(s, cs)
    ensures Mirrors(s, cs, After(Headers(s, cs)))
  {
    hide Mirrors, AllAccepted, InEpoch, InOrderEnough, After, Headers;
    if |cs| == 1 {
      FirstRun(s, cs);
    } else {
      var front, last := cs[..|cs| - 1], cs[|cs| - 1];
      PrefixIsGenuine(cs, |front|);
      PrefixIsWithin(s, cs, |front|);
      GenuineIsMirrored(s, front);
      ExtendRun(s, front, last);
      assert cs == front + [last];
    }
  }

  lemma PrefixIsGenuine(cs: seq<Counter>, n: nat)
    requires 0 < n < |cs| && Genuine(cs)
    ensures Genuine(cs[..n]) && InOrderEnough(cs[..n], cs[n])
  {
    var front := cs[..n];
    forall i | 1 <= i < n
      ensures InOrderEnough(front[..i], front[i])
    {
      assert front[..i] == cs[..i] && InOrderEnough(cs[..i], cs[i]);
    }
  }

  lemma PrefixIsWithin(s: Sender, cs: seq<Counter>, n: nat)
    requires 0 < n < |cs| && WithinEpoch(s, cs)
    ensures WithinEpoch(s, cs[..n]) && InEpoch(s, cs[..n][0], cs[n])
  {
  }

  lemma FirstRun(s: Sender, cs: seq<Counter>)
    requires |cs| == 1
    ensures AllAccepted(s, cs) && Mirrors(s, cs, After(Headers(s, cs)))
  {
    assert cs == [] + [cs[0]];
    HeadersExtend(s, [], cs[0]);
    FirstIsMirrored(s, cs[0]);
    ExtendPassing([], HeaderOf(s, cs[0]));
  }

  lemma ExtendRun(s: Sender, front: seq<Counter>, c: Counter)
    requires front != [] && AllAccepted(s, front) && Mirrors(s, front, After(Headers(s, front)))
    requires InOrderEnough(front, c) && InEpoch(s, front[0], c)
    ensures AllAccepted(s, front + [c])
    ensures Mirrors(s, front + [c], After(Headers(s, front + [c])))
  {
    HeadersExtend(s, front, c);
    NextGenuine(s, front, After(Headers(s, front)), c);
    ExtendPassing(Headers(s, front), HeaderOf(s, c));
  }

  /** No genuine packet is lost when none precedes the window's first epoch,
      in particular when the first packet seen is the sender's earliest. */
  lemma NoGenuineLoss(s: Sender, cs: seq<Counter>)
    requires Genuine(cs)
    requires WithinEpoch(s, cs) || (forall i :: 0 <= i < |cs| ==> cs[0] <= cs[i])
    ensures AllAccepted(s, cs)
  {
    if cs != [] {
      forall i: nat | i < |cs|
        ensures InEpoch(s, cs[0], cs[i])
      {
        TicksAreMonotone(cs[0], cs[i]);
      }
      GenuineIsMirrored(s, cs);
    }
  }

  /** One more packet of lag is one too many: it is always refused. */
  lemma LagIsTight(s: Sender, cs: seq<Counter>, c: Counter)
    requires cs != [] && Genuine(cs) && WithinEpoch(s, cs) && c + LAG < Top(cs)
    requires WindowTime(s, cs[0], c) >= 0 && Ticks(Top(cs)) < Ticks(c) + HALF
    ensures !Passes(After(Headers(s, cs)), HeaderOf(s, c))
  {
    GenuineIsMirrored(s, cs);
    var w := After(Headers(s, cs));
    TicksAreMonotone(c, Top(cs));
    WithinReach(s, cs, w, c);
    LagIsSpan(Top(cs), c);
    hide Passes, After, Next, Headers, HeaderOf, TimeOf, Ticks, BuildNonce;
    if BuildNonce(HeaderOf(s, c)) in w.seen {
      SeenIsRefused(w, HeaderOf(s, c));
    } else {
      PassesExactly(w, HeaderOf(s, c), WindowTime(s, cs[0], c));
    }
  }

  // ----- Before the first packet's epoch -----

  // A late packet from before the epoch of the first one is taken for one 2^32
  // ticks ahead. The window then counts one epoch up.

  /** The earliest counter that may still follow a first packet `c`. */
  function Earliest(c: Counter): Counter { if c < LAG then 0 else c - LAG }

  /** What the window holds one epoch up: `top` is the highest counter since the
      slip, and what was filed before it is out of date. */
  ghost predicate Shifted(s: Sender, cs: seq<Counter>, top: Counter, w: Window)
    requires cs != []
  {
    && w.initialized && w.ssrc == s.ssrc
    && top <= Top(cs) <= top + LAG && Ticks(Earliest(cs[0])) <= Ticks(top)
    && w.highest == EPOCH + WindowTime(s, cs[0], top)
    && (forall n :: n in w.seen ==> exists c :: FiledAs(s, cs, top, w, n, c))
  }

  ghost predicate FiledAs(s: Sender, cs: seq<Counter>, top: Counter, w: Window, n: seq<Byte>, c: Counter)
    requires cs != []
  {
    && c in cs && n == NonceOf(s, c) && n in w.seen
    && ((c <= top && w.seen[n] == EPOCH + WindowTime(s, cs[0], c)) || w.seen[n] < SPAN)
  }

  lemma ShiftedTime(s: Sender, first: Counter, c: Counter)
    requires Ticks(Earliest(first)) <= Ticks(c)
    ensures EPOCH - SPAN <= EPOCH + WindowTime(s, first, c) <= SAFE_TIME
    ensures Low32(EPOCH + WindowTime(s, first, c)) == HeaderOf(s, c).ts
  {
    EarliestIsClose(first);
    WindowTimeIsTimestamp(s, first, c);
    hide HeaderOf;
    var k := Low32Split(WindowTime(s, first, c));
    Low32Is(EPOCH + WindowTime(s, first, c), k + 1, HeaderOf(s, c).ts);
  }

  lemma EarliestIsClose(first: Counter)
    ensures 0 <= Ticks(first) - Ticks(Earliest(first)) <= SPAN
    ensures first > 0 ==> Ticks(first) - Ticks(Earliest(first)) >= 960
  {
  }

  /** One epoch up, at most LAG + 1 counters survive pruning. */
  lemma ShiftedPrunes(s: Sender, cs: seq<Counter>, top: Counter, w: Window, next: Counter)
    requires cs != [] && Shifted(s, cs, top, w) && top <= next
    ensures |Pruned(w.seen, Cutoff(EPOCH + WindowTime(s, cs[0], next)))| <= LAG + 1 < MAX_ENTRIES
  {
    TicksAreMonotone(top, next);
    ShiftedTime(s, cs[0], next);
    var low := if next < LAG then 0 else next - LAG;
    var cutoff := Cutoff(EPOCH + WindowTime(s, cs[0], next));
    var recent := NoncesBetween(s, low, next);
    forall n | n in Pruned(w.seen, cutoff).Keys
      ensures n in recent
    {
      var c :| FiledAs(s, cs, top, w, n, c);
      LagIsSpan(next, c);
    }
    SubsetSize(Pruned(w.seen, cutoff).Keys, recent);
  }

  lemma ShiftedIsNew(s: Sender, cs: seq<Counter>, top: Counter, w: Window, c: Counter)
    requires cs != [] && Shifted(s, cs, top, w) && c !in cs
    ensures BuildNonce(HeaderOf(s, c)) !in w.seen
  {
    hide HeaderOf, BuildNonce, Ticks;
    if NonceOf(s, c) in w.seen {
      var d :| FiledAs(s, cs, top, w, NonceOf(s, c), d);
      DistinctNonces(s, c, d);
    }
  }

  /** The time of the next packet is within reach, one epoch up. */
  lemma ShiftedReach(s: Sender, cs: seq<Counter>, top: Counter, w: Window, c: Counter)
    requires cs != [] && Shifted(s, cs, top, w)
    requires Top(cs) <= c + LAG && Ticks(c) < Ticks(top) + HALF
    ensures w.highest <= SAFE_TIME && 0 <= EPOCH + WindowTime(s, cs[0], c) <= SAFE_TIME
    ensures var t: Word64 := EPOCH + WindowTime(s, cs[0], c);
            && w.highest - HALF < t < w.highest + HALF && t + SPAN >= w.highest
            && Low32(t) == HeaderOf(s, c).ts && TimeOf(w, HeaderOf(s, c)) == t
            && Highest(w, t) == EPOCH + WindowTime(s, cs[0], if top < c then c else top)
  {
    StaysAboveEarliest(cs, c);
    TicksAreMonotone(c, top);
    if c <= top {
      LagIsSpan(top, c);
    }
    ShiftedTime(s, cs[0], c);
    ShiftedTime(s, cs[0], top);
    FilesExactly(w, HeaderOf(s, c), EPOCH + WindowTime(s, cs[0], c));
    hide TimeOf, HeaderOf, BuildNonce, Ticks, FiledAs, Earliest;
  }

  lemma ShiftedPasses(s: Sender, cs: seq<Counter>, top: Counter, w: Window, c: Counter)
    requires cs != [] && Shifted(s, cs, top, w) && BuildNonce(HeaderOf(s, c)) !in w.seen
    requires Top(cs) <= c + LAG && Ticks(c) < Ticks(top) + HALF
    ensures Passes(w, HeaderOf(s, c))
  {
    hide *;
    ShiftedIsOpen(s, cs, top, w, c);
    ShiftedReach(s, cs, top, w, c);
    ShiftedPrunes(s, cs, top, w, if top < c then c else top);
    var t: Word64 := EPOCH + WindowTime(s, cs[0], c);
    RoomIsMade(w.seen, Highest(w, t));
    PassesExactly(w, HeaderOf(s, c), t);
  }

  lemma ShiftedIsOpen(s: Sender, cs: seq<Counter>, top: Counter, w: Window, c: Counter)
    requires cs != [] && Shifted(s, cs, top, w)
    ensures w.initialized && w.ssrc == HeaderOf(s, c).ssrc
  {
  }

  lemma RoomIsMade(seen: map<seq<Byte>, Word64>, highest: Word64)
    requires |Pruned(seen, Cutoff(highest))| < MAX_ENTRIES
    ensures |Roomy(seen, highest)| < MAX_ENTRIES
  {
  }

  /** One more packet within reach passes and keeps the count one epoch up. */
  lemma ShiftedNext(s: Sender, cs: seq<Counter>, top: Counter, w: Window, c: Counter)
    requires cs != [] && Shifted(s, cs, top, w)
    requires c !in cs && Top(cs) <= c + LAG && Ticks(c) < Ticks(top) + HALF
    ensures Passes(w, HeaderOf(s, c))
    ensures Shifted(s, cs + [c], if top < c then c else top, Next(w, HeaderOf(s, c)))
  {
    hide Passes, Next, TimeOf, HeaderOf, BuildNonce, FiledAs, Highest, Top;
    ShiftedIsNew(s, cs, top, w, c);
    ShiftedPasses(s, cs, top, w, c);
    ShiftedReach(s, cs, top, w, c);
    PassedIsFiled(w, HeaderOf(s, c), EPOCH + WindowTime(s, cs[0], c));
    StaysAboveEarliest(cs, c);
    TopExtends(cs, c);
    ShiftedRefiled(s, cs, top, w, c);
    hide Ticks, Earliest;
  }

  lemma StaysAboveEarliest(cs: seq<Counter>, c: Counter)
    requires cs != [] && Top(cs) <= c + LAG
    ensures Earliest(cs[0]) <= c && Ticks(Earliest(cs[0])) <= Ticks(c)
  {
  }

  lemma TopExtends(cs: seq<Counter>, c: Counter)
    requires cs != []
    ensures Top(cs + [c]) == if Top(cs) < c then c else Top(cs)
    ensures (cs + [c])[0] == cs[0]
  {
  }

  lemma ShiftedRefiled(s: Sender, cs: seq<Counter>, top: Counter, w: Window, c: Counter)
    requires cs != [] && Shifted(s, cs, top, w)
    requires TimeOf(w, HeaderOf(s, c)) == EPOCH + WindowTime(s, cs[0], c)
    ensures var x, top' := Next(w, HeaderOf(s, c)), if top < c then c else top;
            forall n :: n in x.seen ==> exists d :: FiledAs(s, cs + [c], top', x, n, d)
  {
    var x, top' := Next(w, HeaderOf(s, c)), if top < c then c else top;
    OnlyOneIsFiled(w, HeaderOf(s, c));
    hide Next, TimeOf, HeaderOf, BuildNonce, Ticks;
    forall n | n in x.seen
      ensures exists d :: FiledAs(s, cs + [c], top', x, n, d)
    {
      if n in w.seen && x.seen[n] == w.seen[n] {
        var d :| FiledAs(s, cs, top, w, n, d);
        assert FiledAs(s, cs + [c], top', x, n, d);
      } else {
        assert FiledAs(s, cs + [c], top', x, n, c);
      }
    }
  }

  /** In the first epoch a time 2^31 or more above the window stays where it is. */
  lemma FirstEpochJump(w: Window, h: Header)
    requires w.initialized && w.highest < EPOCH && h.ts as int + HALF >= w.highest
    ensures TimeOf(w, h) == h.ts
  {
  }

  /** A jump that leaves everything on file out of date passes. */
  lemma JumpPasses(w: Window, h: Header)
    requires w.initialized && w.ssrc == h.ssrc && TimeOf(w, h) == h.ts && BuildNonce(h) !in w.seen
    requires h.ts >= SPAN && h.ts > w.highest && forall n :: n in w.seen ==> w.seen[n] < h.ts - SPAN
    ensures Passes(w, h) && Next(w, h).initialized && Next(w, h).ssrc == w.ssrc && Next(w, h).highest == h.ts
  {
  }

  /** A late packet from before the first epoch is filed under a time one epoch
      too high. */
  lemma SlipTime(s: Sender, cs: seq<Counter>, w: Window, c: Counter)
    requires cs != [] && Mirrors(s, cs, w) && WithinEpoch(s, cs)
    requires Top(cs) <= c + LAG && WindowTime(s, cs[0], c) < 0
    ensures EPOCH - SPAN <= EPOCH + WindowTime(s, cs[0], c)
    ensures TimeOf(w, HeaderOf(s, c)) == EPOCH + WindowTime(s, cs[0], c) == HeaderOf(s, c).ts
    ensures w.highest < SPAN
  {
    var h := HeaderOf(s, c);
    StaysAboveEarliest(cs, c);
    TopInEpoch(s, cs);
    TicksAreMonotone(Top(cs), c);
    LagIsSpan(Top(cs), c);
    ShiftedTime(s, cs[0], c);
    WindowTimeIsTimestamp(s, cs[0], c);
    Low32Is(WindowTime(s, cs[0], c), -1, EPOCH + WindowTime(s, cs[0], c));
    FirstEpochJump(w, h);
  }

  /** The slip: a late packet from before the first epoch. */
  lemma SlipNext(s: Sender, cs: seq<Counter>, w: Window, c: Counter)
    requires cs != [] && Mirrors(s, cs, w) && WithinEpoch(s, cs)
    requires c !in cs && Top(cs) <= c + LAG && WindowTime(s, cs[0], c) < 0
    ensures Passes(w, HeaderOf(s, c)) && Shifted(s, cs + [c], c, Next(w, HeaderOf(s, c)))
  {
    var h := HeaderOf(s, c);
    SlipTime(s, cs, w, c);
    StaysAboveEarliest(cs, c);
    TopInEpoch(s, cs);
    TicksAreMonotone(Top(cs), c);
    NotYetSeen(s, cs, w, c);
    OldIsOld(s, cs, w);
    JumpPasses(w, h);
    TopExtends(cs, c);
    SlipFiles(s, cs, w, c);
    hide Passes, Next, TimeOf, HeaderOf, BuildNonce, Ticks, FiledAs, Earliest, Mirrors;
  }

  lemma FirstIsWithin(s: Sender, first: Counter)
    ensures WithinEpoch(s, [first]) && WindowTime(s, first, first) == HeaderOf(s, first).ts
  {
  }

  lemma TopInEpoch(s: Sender, cs: seq<Counter>)
    requires cs != [] && WithinEpoch(s, cs)
    ensures WindowTime(s, cs[0], Top(cs)) >= 0
  {
  }

  lemma OldIsOld(s: Sender, cs: seq<Counter>, w: Window)
    requires cs != [] && Mirrors(s, cs, w)
    ensures forall n :: n in w.seen ==> w.seen[n] <= w.highest
  {
  }

  lemma SlipFiles(s: Sender, cs: seq<Counter>, w: Window, c: Counter)
    requires cs != [] && Mirrors(s, cs, w) && w.highest < SPAN
    requires TimeOf(w, HeaderOf(s, c)) == EPOCH + WindowTime(s, cs[0], c)
    ensures var x := Next(w, HeaderOf(s, c));
            forall n :: n in x.seen ==> exists d :: FiledAs(s, cs + [c], c, x, n, d)
  {
    var x := Next(w, HeaderOf(s, c));
    OnlyOneIsFiled(w, HeaderOf(s, c));
    OldIsOld(s, cs, w);
    hide Next, TimeOf, HeaderOf, BuildNonce, Ticks;
    forall n | n in x.seen
      ensures exists d :: FiledAs(s, cs + [c], c, x, n, d)
    {
      if n in w.seen && x.seen[n] == w.seen[n] {
        var d :| d in cs && n == NonceOf(s, d) && w.seen[n] == WindowTime(s, cs[0], d);
        assert FiledAs(s, cs + [c], c, x, n, d);
      } else {
        assert FiledAs(s, cs + [c], c, x, n, c);
      }
    }
  }

  // ----- No loss, whatever the first packet -----

  /** Packet `c` leads by less than 2^31 - SPAN ticks, or is less than 2^31 past
      the earliest packet that may follow the first one. */
  predicate Near(cs: seq<Counter>, c: Counter)
    requires cs != []
  {
    Ticks(c) < Ticks(Top(cs)) + HALF - SPAN || Ticks(c) < Ticks(Earliest(cs[0])) + HALF
  }

  ghost predicate Gentle(cs: seq<Counter>) {
    forall i :: 1 <= i < |cs| ==> Near(cs[..i], cs[i])
  }

  ghost predicate InStep(s: Sender, cs: seq<Counter>, w: Window)
    requires cs != []
  {
    if WithinEpoch(s, cs) then Mirrors(s, cs, w) else exists top :: Shifted(s, cs, top, w)
  }

  lemma NextInStep(s: Sender, cs: seq<Counter>, w: Window, c: Counter)
    requires cs != [] && InStep(s, cs, w) && InOrderEnough(cs, c) && Near(cs, c)
    ensures Passes(w, HeaderOf(s, c)) && InStep(s, cs + [c], Next(w, HeaderOf(s, c)))
  {
    hide Passes, Next, HeaderOf, Mirrors, Shifted, Near, WithinEpoch;
    EpochExtends(s, cs, c);
    if !WithinEpoch(s, cs) {
      var top :| Shifted(s, cs, top, w);
      NearIsWithinReach(s, cs, top, w, c);
      ShiftedNext(s, cs, top, w, c);
    } else if InEpoch(s, cs[0], c) {
      NextGenuine(s, cs, w, c);
    } else {
      SlipNext(s, cs, w, c);
    }
  }

  lemma NearIsWithinReach(s: Sender, cs: seq<Counter>, top: Counter, w: Window, c: Counter)
    requires cs != [] && Shifted(s, cs, top, w) && Near(cs, c)
    ensures Ticks(c) < Ticks(top) + HALF
  {
  }

  lemma EpochExtends(s: Sender, cs: seq<Counter>, c: Counter)
    requires cs != []
    ensures WithinEpoch(s, cs + [c]) <==> WithinEpoch(s, cs) && InEpoch(s, cs[0], c)
  {
    hide InEpoch;
    var longer := cs + [c];
    assert longer[|cs|] == c && forall i :: 0 <= i < |cs| ==> longer[i] == cs[i];
  }

  lemma FirstInStep(s: Sender, cs: seq<Counter>)
    requires |cs| == 1
    ensures AllAccepted(s, cs) && InStep(s, cs, After(Headers(s, cs)))
  {
    hide *;
    FirstRun(s, cs);
    FirstIsWithin(s, cs[0]);
    assert cs == [cs[0]];
    MirroredIsInStep(s, cs, After(Headers(s, cs)));
  }

  lemma MirroredIsInStep(s: Sender, cs: seq<Counter>, w: Window)
    requires cs != [] && WithinEpoch(s, cs) && Mirrors(s, cs, w)
    ensures InStep(s, cs, w)
  {
  }

  lemma {:induction false} GentleInStep(s: Sender, cs: seq<Counter>)
    requires cs != [] && Genuine(cs) && Gentle(cs)
    ensures AllAccepted(s, cs) && InStep(s, cs, After(Headers(s, cs)))
  {
    hide AllAccepted, InStep, InOrderEnough, Near, After, Headers;
    if |cs| == 1 {
      FirstInStep(s, cs);
    } else {
      var front, last := cs[..|cs| - 1], cs[|cs| - 1];
      PrefixIsGenuine(cs, |front|);
      PrefixIsGentle(cs, |front|);
      GentleInStep(s, front);
      ExtendInStep(s, front, last);
      assert cs == front + [last];
    }
  }

  lemma PrefixIsGentle(cs: seq<Counter>, n: nat)
    requires 0 < n < |cs| && Gentle(cs)
    ensures Gentle(cs[..n]) && Near(cs[..n], cs[n])
  {
    hide Near;
    var front := cs[..n];
    forall i | 1 <= i < n
      ensures Near(front[..i], front[i])
    {
      assert front[..i] == cs[..i] && Near(cs[..i], cs[i]);
    }
  }

  lemma ExtendInStep(s: Sender, front: seq<Counter>, c: Counter)
    requires front != [] && AllAccepted(s, front) && InStep(s, front, After(Headers(s, front)))
    requires InOrderEnough(front, c) && Near(front, c)
    ensures AllAccepted(s, front + [c]) && InStep(s, front + [c], After(Headers(s, front + [c])))
  {
    hide InStep, Near, InOrderEnough, Passes, Next, HeaderOf;
    HeadersExtend(s, front, c);
    NextInStep(s, front, After(Headers(s, front)), c);
    ExtendPassing(Headers(s, front), HeaderOf(s, c));
  }

  /** No genuine packet is lost, whatever the first packet, when no packet leads
      by 2^31 - SPAN ticks (more than two million packets) or more. */
  lemma GentleTrafficIsNeverLost(s: Sender, cs: seq<Counter>)
    requires Genuine(cs) && Gentle(cs)
    ensures AllAccepted(s, cs)
  {
    if cs != [] {
      GentleInStep(s, cs);
    }
  }

  /** Arrival orders in which nothing is lost. */
  ghost predicate Safe(s: Sender, cs: seq<Counter>) { Genuine(cs) && (WithinEpoch(s, cs) || Gentle(cs)) }

  lemma SafeIsAccepted(s: Sender, cs: seq<Counter>)
    requires Safe(s, cs)
    ensures AllAccepted(s, cs)
  {
    hide AllAccepted, Genuine, WithinEpoch, Gentle;
    if WithinEpoch(s, cs) {
      NoGenuineLoss(s, cs);
    } else {
      GentleTrafficIsNeverLost(s, cs);
    }
  }

  lemma PrefixIsSafe(s: Sender, cs: seq<Counter>, n: nat)
    requires 0 < n < |cs| && Safe(s, cs)
    ensures Safe(s, cs[..n])
  {
    hide InOrderEnough, InEpoch, Near;
    PrefixIsGenuine(cs, n);
    if WithinEpoch(s, cs) {
      PrefixIsWithin(s, cs, n);
    } else {
      PrefixIsGentle(cs, n);
    }
  }

  // ----- Exactly which first packets are safe -----

  ghost predicate NeverLoses(s: Sender, first: Counter) {
    forall cs: seq<Counter> :: Genuine(cs) && cs != [] && cs[0] == first ==> AllAccepted(s, cs)
  }

  // The least number of packets whose ticks amount to 2^31.
  const FAR: nat := 2_236_963

  /** The run that loses a packet after a slip: the first packet, the earliest
      that may follow, and one 2^31 ticks past that. */
  function SlipRun(first: Counter): seq<Counter>
    requires Earliest(first) + FAR < 0x1_0000_0000_0000
  {
    [first, Earliest(first), Earliest(first) + FAR]
  }

  lemma SlipIsGenuine(first: Counter)
    requires first > 0 && Earliest(first) + FAR < 0x1_0000_0000_0000
    ensures Genuine(SlipRun(first))
  {
  }

  lemma TrailingIsRefused(w: Window, h: Header)
    requires w.initialized && TimeOf(w, h) == h.ts && h.ts + SPAN < w.highest
    ensures !Passes(w, h)
  {
  }

  /** After the slip the far packet seems to belong to the first epoch. */
  lemma FarIsRefused(s: Sender, first: Counter, w: Window)
    requires Earliest(first) + FAR < 0x1_0000_0000_0000 && w.initialized
    requires WindowTime(s, first, Earliest(first)) < 0
    requires w.highest == EPOCH + WindowTime(s, first, Earliest(first))
    ensures !Passes(w, HeaderOf(s, Earliest(first) + FAR))
  {
    var far: Counter := Earliest(first) + FAR;
    var t := WindowTime(s, first, far);
    EarliestIsClose(first);
    TicksGrow(Earliest(first), FAR);
    WindowTimeIsTimestamp(s, first, far);
    Low32Is(t, 0, t);
    FirstEpochJump(w, HeaderOf(s, far));
    TrailingIsRefused(w, HeaderOf(s, far));
  }

  /** A late packet from before the first one's epoch is taken for one 2^32
      ticks ahead; a genuine packet 2^31 ticks past it is then refused. */
  lemma EpochSlipLoses(s: Sender, first: Counter)
    requires Earliest(first) + FAR < 0x1_0000_0000_0000
    requires WindowTime(s, first, Earliest(first)) < 0
    ensures Genuine(SlipRun(first)) && !AllAccepted(s, SlipRun(first))
  {
    hide Passes, Next, HeaderOf, Mirrors, AllAccepted, Genuine;
    var late := Earliest(first);
    SlipIsGenuine(first);
    FirstIsMirrored(s, first);
    var w := Next(Fresh, HeaderOf(s, first));
    assert WithinEpoch(s, [first]) && first in [first];
    SlipNext(s, [first], w, late);
    FarIsRefused(s, first, Next(w, HeaderOf(s, late)));
    ThirdIsRefused(s, SlipRun(first));
  }

  lemma ThirdIsRefused(s: Sender, cs: seq<Counter>)
    requires |cs| == 3
    requires !Passes(Next(Next(Fresh, HeaderOf(s, cs[0])), HeaderOf(s, cs[1])), HeaderOf(s, cs[2]))
    ensures !AllAccepted(s, cs)
  {
    hide Passes, Next, HeaderOf;
    var hs := Headers(s, cs);
    assert hs[..2][..1] == hs[..1] && hs[..1][..0] == [];
    assert After(hs[..1]) == Next(Fresh, hs[0]);
    assert After(hs[..2]) == Next(After(hs[..1]), hs[1]);
    assert !Accepted(hs, 2);
  }

  lemma NothingFarIsGentle(cs: seq<Counter>)
    requires cs != [] && Earliest(cs[0]) + FAR >= 0x1_0000_0000_0000
    ensures Gentle(cs)
  {
  }

  lemma InEpochFromEarliest(s: Sender, cs: seq<Counter>)
    requires cs != [] && Genuine(cs) && HeaderOf(s, cs[0]).ts >= Ticks(cs[0]) - Ticks(Earliest(cs[0]))
    ensures WithinEpoch(s, cs)
  {
    forall i: nat | i < |cs|
      ensures InEpoch(s, cs[0], cs[i])
    {
      if i > 0 {
        assert InOrderEnough(cs[..i], cs[i]);
        StaysAboveEarliest(cs[..i], cs[i]);
      }
    }
  }

  /** For any first packet: no genuine continuation ever loses a packet if and
      only if its timestamp reaches back to the earliest packet that may follow,
      or the counters end less than 2^31 ticks past that one. */
  lemma NeverLosesExactly(s: Sender, first: Counter)
    ensures NeverLoses(s, first) <==>
      HeaderOf(s, first).ts >= Ticks(first) - Ticks(Earliest(first)) || Earliest(first) + FAR >= 0x1_0000_0000_0000
  {
    if HeaderOf(s, first).ts >= Ticks(first) - Ticks(Earliest(first)) || Earliest(first) + FAR >= 0x1_0000_0000_0000 {
      forall cs: seq<Counter> | Genuine(cs) && cs != [] && cs[0] == first
        ensures AllAccepted(s, cs)
      {
        if HeaderOf(s, first).ts >= Ticks(first) - Ticks(Earliest(first)) {
          InEpochFromEarliest(s, cs);
        } else {
          NothingFarIsGentle(cs);
        }
        SafeIsAccepted(s, cs);
      }
    } else {
      EpochSlipLoses(s, first);
      assert SlipRun(first)[0] == first;
    }
  }
}
