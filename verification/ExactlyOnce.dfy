/** Exactly-once delivery on the direct connection, in runs against a hostile
    network: duplicates and forgeries do not disturb genuine traffic. */
module ExactlyOnce {
  import opened Wrappers
  import opened Words
  import opened Nonce
  import opened ReplayWindow
  import opened ReplayRuns
  import opened GenuineTraffic
  import C = DirectChannel
  import Packet

  /** Counters in the order of their first arrival. */
  function Firsts(cs: seq<Counter>): seq<Counter> {
    if cs == [] then []
    else
      var init, last := cs[..|cs| - 1], cs[|cs| - 1];
      if last in init then Firsts(init) else Firsts(init) + [last]
  }

  /** The positions of the first arrivals. */
  function FirstIndices(cs: seq<Counter>): seq<nat> {
    if cs == [] then []
    else FirstIndices(cs[..|cs| - 1]) + if cs[|cs| - 1] in cs[..|cs| - 1] then [] else [|cs| - 1]
  }

  /** The positions of the packets a window accepts. */
  function AcceptedIndices(hs: seq<Header>): seq<nat> {
    if hs == [] then []
    else
      var init, last := hs[..|hs| - 1], hs[|hs| - 1];
      AcceptedIndices(init) + if Passes(After(init), last) then [|init|] else []
  }

  /** Less than 2^31 ticks behind the highest counter. */
  predicate Recent(fs: seq<Counter>, c: Counter) { fs != [] && Ticks(Top(fs)) < Ticks(c) + HALF }

  /** The window still counts as it did when packet `i` was filed: either it
      never slipped an epoch up, or it had by then. */
  ghost predicate SameEpoch(s: Sender, fs: seq<Counter>, i: nat)
    requires i < |fs|
  {
    WithinEpoch(s, fs) || !WithinEpoch(s, fs[..i + 1])
  }

  /** A repeat that the window is sure to know: its table has never been full, or
      the packet is recent and was filed in the epoch the window counts in. */
  ghost predicate CloseRepeat(s: Sender, fs: seq<Counter>, c: Counter) {
    || |fs| <= MAX_ENTRIES
    || (Recent(fs, c) && exists i :: 0 <= i < |fs| && fs[i] == c && SameEpoch(s, fs, i))
  }

  /** First arrivals within the window's limits, and repeats that it knows. */
  ghost predicate Tame(s: Sender, cs: seq<Counter>) {
    && Safe(s, Firsts(cs))
    && forall i :: 0 <= i < |cs| && cs[i] in cs[..i] ==> CloseRepeat(s, Firsts(cs[..i]), cs[i])
  }

  lemma {:induction false} FirstsHoldAll(cs: seq<Counter>)
    ensures forall c :: c in Firsts(cs) <==> c in cs
  {
    if cs != [] {
      FirstsHoldAll(cs[..|cs| - 1]);
      assert cs == cs[..|cs| - 1] + [cs[|cs| - 1]];
    }
  }

  lemma TamePrefix(s: Sender, cs: seq<Counter>)
    requires cs != [] && Tame(s, cs)
    ensures Tame(s, cs[..|cs| - 1])
  {
    var init, fs := cs[..|cs| - 1], Firsts(cs);
    hide CloseRepeat, Safe;
    forall i | 0 <= i < |init| && init[i] in init[..i]
      ensures CloseRepeat(s, Firsts(init[..i]), init[i])
    {
      assert init[..i] == cs[..i];
    }
    if cs[|cs| - 1] !in init {
      assert fs[..|fs| - 1] == Firsts(init);
      if |fs| > 1 {
        PrefixIsSafe(s, fs, |fs| - 1);
      } else {
        NothingIsSafe(s);
      }
    }
  }

  lemma NothingIsSafe(s: Sender)
    ensures Safe(s, [])
  {
  }

  /** The time under which a genuine packet was filed. */
  lemma FiledUnderItsTime(s: Sender, cs: seq<Counter>, i: nat)
    requires i < |cs| && Genuine(cs) && WithinEpoch(s, cs)
    ensures FiledAt(Headers(s, cs), i) == WindowTime(s, cs[0], cs[i])
  {
    hide InOrderEnough, InEpoch, HeaderOf, Mirrors, AllAccepted;
    assert Headers(s, cs)[..i] == Headers(s, cs[..i]);
    assert InEpoch(s, cs[0], cs[i]);
    if i == 0 {
      FirstIsFiled(s, cs[0]);
    } else {
      PrefixIsGenuine(cs, i);
      PrefixIsWithin(s, cs, i);
      GenuineIsMirrored(s, cs[..i]);
      NextIsFiled(s, cs[..i], After(Headers(s, cs[..i])), cs[i]);
    }
  }

  lemma FirstIsFiled(s: Sender, first: Counter)
    ensures TimeOf(Fresh, HeaderOf(s, first)) == WindowTime(s, first, first)
  {
    var h := HeaderOf(s, first);
    Low32Is(h.ts, 0, h.ts);
    FilesExactly(Opened(Fresh, h), h, h.ts);
  }

  lemma NextIsFiled(s: Sender, cs: seq<Counter>, w: Window, c: Counter)
    requires cs != [] && Mirrors(s, cs, w) && InOrderEnough(cs, c) && InEpoch(s, cs[0], c)
    ensures TimeOf(w, HeaderOf(s, c)) == WindowTime(s, cs[0], c)
  {
    TicksAreMonotone(c, Top(cs));
    if c <= Top(cs) {
      LagIsSpan(Top(cs), c);
    }
    WithinReach(s, cs, w, c);
  }

  /** Until 8192 packets have passed the table keeps them all. */
  lemma {:induction false} NothingForgotten(hs: seq<Header>)
    requires AllPass(hs) && |hs| <= MAX_ENTRIES
    ensures |After(hs).seen| == |hs|
    ensures forall i :: 0 <= i < |hs| ==> KnownAs(After(hs), hs, i)
  {
    if hs != [] {
      var n := |hs| - 1;
      hide Passes, Next, TimeOf, BuildNonce;
      AllPassBefore(hs);
      NothingForgotten(hs[..n]);
      OpenedByFirst(hs[..n]);
      PassedWithRoom(After(hs[..n]), hs[n]);
      hide AllPass;
      forall i | 0 <= i < n ensures KnownAs(After(hs), hs, i) {
        assert KnownAs(After(hs[..n]), hs[..n], i);
        assert hs[..n][..i] == hs[..i];
      }
    }
  }

  lemma AllPassBefore(hs: seq<Header>)
    requires hs != [] && AllPass(hs)
    ensures AllPass(hs[..|hs| - 1]) && Passes(After(hs[..|hs| - 1]), hs[|hs| - 1])
  {
    hide Passes;
    var n := |hs| - 1;
    assert Accepted(hs, n);
    forall i | 0 <= i < n ensures Accepted(hs[..n], i) {
      assert hs[..n][..i] == hs[..i] && Accepted(hs, i);
    }
  }

  lemma OpenedByFirst(hs: seq<Header>)
    ensures if hs == [] then After(hs) == Fresh else After(hs).initialized
  {
  }

  ghost predicate KnownAs(w: Window, hs: seq<Header>, i: nat)
    requires i < |hs|
  {
    BuildNonce(hs[i]) in w.seen && w.seen[BuildNonce(hs[i])] == FiledAt(hs, i)
  }

  lemma PassedWithRoom(w: Window, h: Header)
    requires Passes(w, h) && |w.seen| < MAX_ENTRIES && (!w.initialized ==> w == Fresh)
    ensures BuildNonce(h) !in w.seen && Next(w, h).seen == w.seen[BuildNonce(h) := TimeOf(w, h)]
  {
  }

  lemma KnownIsRefused(w: Window, h: Header)
    requires w.initialized && BuildNonce(h) in w.seen
    ensures !Passes(w, h) && Next(w, h) == w
  {
  }

  /** From a slip on, packets are filed one epoch up. */
  lemma FiledAfterSlip(s: Sender, cs: seq<Counter>, i: nat)
    requires i < |cs| && Genuine(cs) && Gentle(cs) && !WithinEpoch(s, cs[..i + 1])
    ensures FiledAt(Headers(s, cs), i) == EPOCH + WindowTime(s, cs[0], cs[i])
  {
    hide *;
    HeadersPrefix(s, cs, i);
    FirstIsNoSlip(s, cs);
    var front := cs[..i];
    assert cs[..i + 1] == front + [cs[i]];
    PrefixIsSafeThere(s, cs, i);
    GentleInStep(s, front);
    EpochExtends(s, front, cs[i]);
    NextFiledUp(s, front, After(Headers(s, front)), cs[i]);
  }

  lemma FirstIsNoSlip(s: Sender, cs: seq<Counter>)
    requires cs != []
    ensures WithinEpoch(s, cs[..1])
  {
  }

  lemma HeadersPrefix(s: Sender, cs: seq<Counter>, i: nat)
    requires i < |cs|
    ensures FiledAt(Headers(s, cs), i) == TimeOf(After(Headers(s, cs[..i])), HeaderOf(s, cs[i]))
  {
    hide TimeOf, HeaderOf;
    assert Headers(s, cs)[..i] == Headers(s, cs[..i]);
  }

  lemma PrefixIsSafeThere(s: Sender, cs: seq<Counter>, i: nat)
    requires 0 < i < |cs| && Genuine(cs) && Gentle(cs)
    ensures Genuine(cs[..i]) && Gentle(cs[..i]) && Near(cs[..i], cs[i]) && Top(cs[..i]) <= cs[i] + LAG
  {
    PrefixIsGenuine(cs, i);
    PrefixIsGentle(cs, i);
  }

  lemma NextFiledUp(s: Sender, cs: seq<Counter>, w: Window, c: Counter)
    requires cs != [] && InStep(s, cs, w) && Near(cs, c) && Top(cs) <= c + LAG
    requires WithinEpoch(s, cs) ==> !InEpoch(s, cs[0], c)
    ensures TimeOf(w, HeaderOf(s, c)) == EPOCH + WindowTime(s, cs[0], c)
  {
    hide TimeOf, HeaderOf, Mirrors, Shifted, Near, WithinEpoch, WindowTime;
    if WithinEpoch(s, cs) {
      assert WindowTime(s, cs[0], c) < 0 by { NotInEpoch(s, cs[0], c); }
      SlipTime(s, cs, w, c);
    } else {
      var top :| Shifted(s, cs, top, w);
      NearIsWithinReach(s, cs, top, w, c);
      ShiftedReach(s, cs, top, w, c);
    }
  }

  lemma NotInEpoch(s: Sender, first: Counter, c: Counter)
    ensures InEpoch(s, first, c) <==> WindowTime(s, first, c) >= 0
  {
  }

  /** Without a slip, less than 2^31 ticks in counters are less in the window. */
  lemma CloseInEpoch(s: Sender, cs: seq<Counter>, i: nat)
    requires i < |cs| && Genuine(cs) && WithinEpoch(s, cs) && Recent(cs, cs[i])
    ensures After(Headers(s, cs)).highest < FiledAt(Headers(s, cs), i) + HALF
    ensures After(Headers(s, cs)).highest <= SAFE_TIME
  {
    GenuineIsMirrored(s, cs);
    FiledUnderItsTime(s, cs, i);
    WindowTimeIsTimestamp(s, cs[0], Top(cs));
    hide After, FiledAt, HeaderOf, Ticks, InOrderEnough, InEpoch, AllAccepted, Headers;
  }

  /** The same once it has slipped, for packets filed since. */
  lemma CloseAfterSlip(s: Sender, cs: seq<Counter>, i: nat)
    requires i < |cs| && Genuine(cs) && Gentle(cs) && Recent(cs, cs[i])
    requires !WithinEpoch(s, cs) && !WithinEpoch(s, cs[..i + 1])
    ensures After(Headers(s, cs)).highest < FiledAt(Headers(s, cs), i) + HALF
    ensures After(Headers(s, cs)).highest <= SAFE_TIME
  {
    hide *;
    GentleInStep(s, cs);
    FiledAfterSlip(s, cs, i);
    CloseToShifted(s, cs, After(Headers(s, cs)), cs[i]);
  }

  lemma CloseToShifted(s: Sender, cs: seq<Counter>, w: Window, c: Counter)
    requires Recent(cs, c) && InStep(s, cs, w) && !WithinEpoch(s, cs)
    ensures w.highest < EPOCH + WindowTime(s, cs[0], c) + HALF && w.highest <= SAFE_TIME
  {
  }

  /** A repeat that the window knows is refused and changes nothing. */
  lemma RepeatIsInert(s: Sender, cs: seq<Counter>, c: Counter)
    requires Safe(s, cs) && c in cs && CloseRepeat(s, cs, c)
    ensures var w := After(Headers(s, cs)); !Passes(w, HeaderOf(s, c)) && Next(w, HeaderOf(s, c)) == w
  {
    hide Recent, Genuine, Gentle, WithinEpoch, Passes, Next, TimeOf, HeaderOf, After, FiledAt;
    hide AllAccepted, Accepted, BuildNonce;
    var hs := Headers(s, cs);
    SafeIsAccepted(s, cs);
    AcceptedIsAllPass(s, cs);
    assert hs[..|hs|] == hs;
    if |cs| <= MAX_ENTRIES {
      var i :| 0 <= i < |cs| && cs[i] == c;
      NothingForgotten(hs);
      assert KnownAs(After(hs), hs, i);
      Initialized(hs, i, |hs|);
      KnownIsRefused(After(hs), HeaderOf(s, c));
    } else {
      var i :| 0 <= i < |cs| && cs[i] == c && SameEpoch(s, cs, i);
      if WithinEpoch(s, cs) {
        CloseInEpoch(s, cs, i);
      } else {
        CloseAfterSlip(s, cs, i);
      }
      assert Accepted(hs, i) && hs[i] == HeaderOf(s, c);
      RunTracks(hs, i, |hs|);
      TrackedIsRefused(After(hs), HeaderOf(s, c), FiledAt(hs, i));
    }
  }

  /** A first arrival is accepted. */
  lemma FirstIsAccepted(s: Sender, cs: seq<Counter>, c: Counter)
    requires Safe(s, cs + [c])
    ensures Passes(After(Headers(s, cs)), HeaderOf(s, c))
  {
    var all := cs + [c];
    SafeIsAccepted(s, all);
    AcceptedIsAllPass(s, all);
    HeadersExtend(s, cs, c);
    assert Headers(s, all)[..|cs|] == Headers(s, cs);
    assert Accepted(Headers(s, all), |cs|);
    hide Passes, After, HeaderOf, Safe;
  }

  /** A tame run leaves the window where its first arrivals alone would, and the
      first arrivals are the ones accepted. */
  lemma {:induction false} TameRun(s: Sender, cs: seq<Counter>)
    requires Tame(s, cs)
    ensures After(Headers(s, cs)) == After(Headers(s, Firsts(cs)))
    ensures AcceptedIndices(Headers(s, cs)) == FirstIndices(cs)
  {
    hide Passes, Next, HeaderOf, Safe, CloseRepeat;
    if cs != [] {
      var init, c := cs[..|cs| - 1], cs[|cs| - 1];
      TamePrefix(s, cs);
      TameRun(s, init);
      FirstsHoldAll(init);
      assert cs == init + [c];
      HeadersExtend(s, init, c);
      assert Headers(s, cs)[..|init|] == Headers(s, init);
      if c in init {
        assert CloseRepeat(s, Firsts(init), c);
        RepeatIsInert(s, Firsts(init), c);
      } else {
        FirstIsAccepted(s, Firsts(init), c);
        HeadersExtend(s, Firsts(init), c);
        assert Headers(s, Firsts(cs))[..|Firsts(init)|] == Headers(s, Firsts(init));
      }
    }
  }

  // ----- The connection -----

  function Arrivals(got: seq<C.Delivery>): seq<nat> {
    seq(|got|, k requires 0 <= k < |got| => got[k].arrival)
  }

  lemma ArrivedReturnsAccepted(s: C.System, h: Header, p: seq<Byte>)
    requires s.window == After(s.arrivals) && Arrivals(s.got) == AcceptedIndices(s.arrivals)
    ensures var t := C.Arrived(s, h, p); Arrivals(t.got) == AcceptedIndices(t.arrivals)
  {
    hide Passes, Next, After;
    assert (s.arrivals + [h])[..|s.arrivals|] == s.arrivals;
  }

  lemma StepReturnsAccepted(l: C.Link, s: C.System, e: C.Event)
    requires s.window == After(s.arrivals) && Arrivals(s.got) == AcceptedIndices(s.arrivals)
    ensures var t := C.Step(l, s, e); Arrivals(t.got) == AcceptedIndices(t.arrivals)
  {
    hide Packet.Unwrap, Passes, Next, After, HeaderFrom, AcceptedIndices, Arrivals;
    if e.Arrive? {
      var opening := C.Opening(l.aead, l.key, e.pkt, e.room);
      C.ArriveIsArrived(l, s, e.pkt, e.room);
      if opening.Some? {
        ArrivedReturnsAccepted(s, HeaderFrom(e.pkt), opening.value);
      }
    }
  }

  /** Read returns exactly the authenticated arrivals that the window accepts. */
  lemma {:induction false} ReadReturnsAccepted(l: C.Link, events: seq<C.Event>)
    requires C.Legal(l, events)
    ensures var s := C.Run(l, events); Arrivals(s.got) == AcceptedIndices(s.arrivals)
  {
    if events != [] {
      var front, e := events[..|events| - 1], events[|events| - 1];
      C.LegalPrefix(l, events);
      ReadReturnsAccepted(l, front);
      C.RunsKeepInvariant(l, front);
      assert C.Faithful(C.Run(l, front));
      hide C.Step, C.Provenance, AcceptedIndices, Arrivals, C.Legal;
      StepReturnsAccepted(l, C.Run(l, front), e);
    }
  }

  /** The k-th delivery is the k-th packet of a counter to arrive. */
  ghost predicate DeliversFirst(s: C.System, cs: seq<Counter>, k: nat)
    requires k < |s.got| == |FirstIndices(cs)|
  {
    var i := s.got[k].arrival;
    && i == FirstIndices(cs)[k] && i < |cs|
    && cs[i] < |s.written| && s.written[cs[i]] == Some(s.got[k].payload)
  }

  /** Exactly-once delivery: in every run against a network that cannot forge,
      if what authenticates arrives within the window's limits, repeats included,
      then Read returns exactly the payloads of the first arrivals, in order. A
      run may contain packets too long for Read's buffer: the reader ends at the
      first, and what comes later is no arrival. */
  lemma DeliveredExactlyOnce(l: C.Link, events: seq<C.Event>, cs: seq<Counter>)
    requires C.Legal(l, events) && |C.Run(l, events).written| <= 0x1_0000_0000_0000
    requires C.Run(l, events).arrivals == Headers(l.sender, cs) && Tame(l.sender, cs)
    ensures var s := C.Run(l, events);
            |s.got| == |FirstIndices(cs)| && forall k :: 0 <= k < |s.got| ==> DeliversFirst(s, cs, k)
  {
    var s := C.Run(l, events);
    ReadReturnsAccepted(l, events);
    TameRun(l.sender, cs);
    hide *;
    assert Arrivals(s.got) == FirstIndices(cs);
    SameNumber(s, cs);
    forall k | 0 <= k < |s.got| ensures DeliversFirst(s, cs, k) {
      C.NothingInvented(l, events, k);
      DeliveryIsFirst(l, s, cs, k);
    }
  }

  lemma SameNumber(s: C.System, cs: seq<Counter>)
    requires Arrivals(s.got) == FirstIndices(cs)
    ensures |s.got| == |FirstIndices(cs)|
  {
  }

  lemma DeliveryIsFirst(l: C.Link, s: C.System, cs: seq<Counter>, k: nat)
    requires k < |s.got| == |FirstIndices(cs)| && Arrivals(s.got) == FirstIndices(cs)
    requires s.arrivals == Headers(l.sender, cs) && |s.written| <= 0x1_0000_0000_0000
    requires s.got[k].arrival < |s.arrivals|
    requires exists c :: 0 <= c < |s.written| && s.written[c] == Some(s.got[k].payload)
               && s.arrivals[s.got[k].arrival] == HeaderOf(l.sender, c)
    ensures DeliversFirst(s, cs, k)
  {
    hide HeaderOf, FirstIndices;
    var i := s.got[k].arrival;
    assert Arrivals(s.got)[k] == i;
    var c :| 0 <= c < |s.written| && s.written[c] == Some(s.got[k].payload) && s.arrivals[i] == HeaderOf(l.sender, c);
    assert s.arrivals[i] == HeaderOf(l.sender, cs[i]);
    SameHeaderSameCounter(l.sender, c, cs[i]);
  }

  lemma SameHeaderSameCounter(s: Sender, c: Counter, d: Counter)
    requires HeaderOf(s, c) == HeaderOf(s, d)
    ensures c == d
  {
    if c != d {
      DistinctNonces(s, c, d);
    }
  }
}
