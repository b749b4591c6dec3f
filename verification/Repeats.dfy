/** The first packets after which repeats are always harmless, and the run in
    which a repeat passes after any other. */
module Repeats {
  import opened Words
  import opened Nonce
  import opened ReplayWindow
  import opened ReplayRuns
  import opened GenuineTraffic
  import opened ExactlyOnce
  import opened Sets

  /** Every repeat is less than 2^31 ticks behind. */
  ghost predicate RecentRepeats(cs: seq<Counter>) {
    forall i :: 0 <= i < |cs| && cs[i] in cs[..i] ==> Recent(Firsts(cs[..i]), cs[i])
  }

  /** Gentle traffic and recent repeats that begin with `first`. */
  ghost predicate Repeating(cs: seq<Counter>, first: Counter) {
    cs != [] && cs[0] == first && Genuine(Firsts(cs)) && Gentle(Firsts(cs)) && RecentRepeats(cs)
  }

  /** After this first packet no such traffic has a packet accepted twice. */
  ghost predicate AcceptsOnce(s: Sender, first: Counter) {
    forall cs: seq<Counter> :: Repeating(cs, first) ==> AcceptedIndices(Headers(s, cs)) == FirstIndices(cs)
  }

  // ----- When repeats are harmless -----

  lemma {:induction false} FirstsPrefix(cs: seq<Counter>, n: nat)
    requires n <= |cs|
    ensures Firsts(cs[..n]) <= Firsts(cs)
    ensures cs != [] ==> Firsts(cs) != [] && Firsts(cs)[0] == cs[0]
    decreases |cs|
  {
    if n < |cs| {
      assert cs[..|cs| - 1][..n] == cs[..n];
      FirstsPrefix(cs[..|cs| - 1], n);
    } else if n > 0 {
      assert cs[..n] == cs;
      FirstsPrefix(cs[..n - 1], n - 1);
    }
  }

  lemma WithinIsTame(s: Sender, cs: seq<Counter>)
    requires Genuine(Firsts(cs)) && WithinEpoch(s, Firsts(cs)) && RecentRepeats(cs)
    ensures Tame(s, cs)
  {
    hide Recent, Genuine, InEpoch;
    forall i | 0 <= i < |cs| && cs[i] in cs[..i]
      ensures CloseRepeat(s, Firsts(cs[..i]), cs[i])
    {
      var fs := Firsts(cs[..i]);
      FirstsPrefix(cs, i);
      FirstsHoldAll(cs[..i]);
      var j :| 0 <= j < |fs| && fs[j] == cs[i];
      assert WithinEpoch(s, fs);
      assert SameEpoch(s, fs, j);
    }
  }

  /** The n counters from `low` on. */
  function Range(low: Counter, n: nat): (r: set<Counter>)
    requires low + n <= 0x1_0000_0000_0000
    ensures |r| == n && forall c: Counter :: c in r <==> low <= c < low + n
  {
    if n == 0 then {} else Range(low, n - 1) + {low + n - 1}
  }

  lemma InOrderMeans(cs: seq<Counter>, c: Counter)
    requires cs != [] && InOrderEnough(cs, c)
    ensures c !in cs && Top(cs) <= c + LAG
  {
  }

  ghost predicate NoRepeats(cs: seq<Counter>) { forall i :: 0 <= i < |cs| ==> cs[i] !in cs[..i] }

  lemma GenuineHasNoRepeats(cs: seq<Counter>)
    requires Genuine(cs)
    ensures NoRepeats(cs)
  {
  }

  lemma NoRepeatsBefore(cs: seq<Counter>)
    requires cs != [] && NoRepeats(cs)
    ensures NoRepeats(cs[..|cs| - 1]) && cs[|cs| - 1] !in cs[..|cs| - 1]
  {
  }

  lemma {:induction false} NoRepeatsIsDistinct(cs: seq<Counter>)
    requires NoRepeats(cs)
    ensures |Elements(cs)| == |cs| && Firsts(cs) == cs
  {
    hide NoRepeats, Elements;
    if cs == [] {
      ElementsAre(cs);
      assert Elements(cs) == {};
    } else {
      var front, last := cs[..|cs| - 1], cs[|cs| - 1];
      NoRepeatsBefore(cs);
      NoRepeatsIsDistinct(front);
      assert cs == front + [last];
      ElementsGrow(front, last);
    }
  }

  lemma ElementsGrow(cs: seq<Counter>, c: Counter)
    requires c !in cs
    ensures |Elements(cs + [c])| == |Elements(cs)| + 1
  {
    assert Elements(cs + [c]) == Elements(cs) + {c};
  }

  function Elements(cs: seq<Counter>): set<Counter> { set c | c in cs }

  lemma {:induction false} NothingBeforeEarliest(cs: seq<Counter>)
    requires cs != [] && Genuine(cs)
    ensures forall c :: c in cs ==> Earliest(cs[0]) <= c
  {
    hide Top, InOrderEnough;
    if |cs| > 1 {
      var front, last := cs[..|cs| - 1], cs[|cs| - 1];
      PrefixIsGenuine(cs, |front|);
      NothingBeforeEarliest(front);
      assert Top(front) <= last + LAG by { InOrderMeans(front, last); }
      StaysAboveEarliest(front, last);
      assert cs == front + [last];
    }
  }

  /** Where fewer than 8193 counters are left, the table is never full. */
  lemma FewAreTame(s: Sender, cs: seq<Counter>)
    requires Firsts(cs) != [] && Genuine(Firsts(cs)) && Gentle(Firsts(cs))
    requires Earliest(Firsts(cs)[0]) + MAX_ENTRIES >= 0x1_0000_0000_0000
    ensures Tame(s, cs)
  {
    hide Genuine, Gentle, WithinEpoch, Recent, Firsts, Top, Earliest, SameEpoch;
    FewCounters(Firsts(cs));
    forall i | 0 <= i < |cs| && cs[i] in cs[..i]
      ensures CloseRepeat(s, Firsts(cs[..i]), cs[i])
    {
      FirstsPrefix(cs, i);
    }
  }

  lemma FewCounters(fs: seq<Counter>)
    requires fs != [] && Genuine(fs)
    ensures Earliest(fs[0]) + |fs| <= 0x1_0000_0000_0000
  {
    hide *;
    var low: int := Earliest(fs[0]);
    GenuineHasNoRepeats(fs);
    NoRepeatsIsDistinct(fs);
    NothingBeforeEarliest(fs);
    var left: nat := 0x1_0000_0000_0000 - low;
    assert forall c :: c in Elements(fs) <==> c in fs by { ElementsAre(fs); }
    SubsetSize(Elements(fs), Range(low, left));
  }

  lemma ElementsAre(cs: seq<Counter>)
    ensures forall c :: c in Elements(cs) <==> c in cs
  {
  }

  // ----- The run in which a repeat passes -----

  /** `cs` and, in ascending order, those of the n counters from `low` that are
      not in it. */
  function Filled(cs: seq<Counter>, low: Counter, n: nat): (r: seq<Counter>)
    requires low + n <= 0x1_0000_0000_0000
    ensures cs <= r && forall c: Counter :: c in r <==> c in cs || low <= c < low + n
  {
    if n == 0 then cs
    else
      var r := Filled(cs, low, n - 1);
      if low + n - 1 in r then r else r + [low + n - 1]
  }

  lemma ExtendGentle(cs: seq<Counter>, c: Counter)
    requires cs != [] && Genuine(cs) && Gentle(cs) && InOrderEnough(cs, c) && Near(cs, c)
    ensures Genuine(cs + [c]) && Gentle(cs + [c])
  {
    hide InOrderEnough, Near;
    var all := cs + [c];
    forall i | 1 <= i < |all| ensures InOrderEnough(all[..i], all[i]) && Near(all[..i], all[i]) {
      if i < |cs| {
        assert all[..i] == cs[..i] && InOrderEnough(cs[..i], cs[i]) && Near(cs[..i], cs[i]);
      } else {
        assert all[..i] == cs;
      }
    }
  }

  lemma {:induction false} FilledIsGentle(cs: seq<Counter>, low: Counter, n: nat)
    requires cs != [] && Genuine(cs) && Gentle(cs) && low + n <= 0x1_0000_0000_0000
    requires forall c :: c in cs ==> low <= c <= low + LAG
    ensures Genuine(Filled(cs, low, n)) && Gentle(Filled(cs, low, n))
  {
    hide Genuine, Gentle, Top, Earliest;
    if n > 0 {
      FilledIsGentle(cs, low, n - 1);
      var r, c := Filled(cs, low, n - 1), low + n - 1;
      if c !in r {
        assert cs[0] in r;
        assert n > 1 ==> c - 1 in r && c - 1 <= Top(r);
        assert Top(r) in r;
        ExtendGentle(r, c);
      }
    }
  }

  /** The packet that will come again: the last one within reach of the earliest
      that may follow the first. */
  function Again(first: Counter): Counter
    requires Earliest(first) + MAX_ENTRIES < 0x1_0000_0000_0000
  {
    Earliest(first) + LAG
  }

  function Start(first: Counter): seq<Counter>
    requires Earliest(first) + MAX_ENTRIES < 0x1_0000_0000_0000
  {
    if Again(first) == first then [first] else [first, Again(first)]
  }

  /** The first packet, that one, and then 8193 counters in all, from the earliest. */
  function LongRun(first: Counter): seq<Counter>
    requires Earliest(first) + MAX_ENTRIES < 0x1_0000_0000_0000
  {
    Filled(Start(first), Earliest(first), MAX_ENTRIES + 1)
  }

  lemma {:induction false} FilledSize(first: Counter, n: nat)
    requires Earliest(first) + MAX_ENTRIES < 0x1_0000_0000_0000 && n <= MAX_ENTRIES + 1
    ensures var low, x := Earliest(first), Again(first);
            |Filled(Start(first), low, n)| == |Start(first)| + n
              - (if first < low + n then 1 else 0) - (if x != first && x < low + n then 1 else 0)
  {
    assert Earliest(first) <= first && Earliest(first) <= Again(first);
    assert forall c :: c in Start(first) <==> c == first || c == Again(first);
    hide Earliest, Start, Again;
    if n > 0 {
      FilledSize(first, n - 1);
    }
  }

  lemma StartIsGentle(first: Counter)
    requires Earliest(first) + MAX_ENTRIES < 0x1_0000_0000_0000
    ensures Genuine(Start(first)) && Gentle(Start(first))
    ensures forall c :: c in Start(first) ==> Earliest(first) <= c <= Earliest(first) + LAG
  {
  }

  lemma LongRunIs(first: Counter)
    requires Earliest(first) + MAX_ENTRIES < 0x1_0000_0000_0000
    ensures var run := LongRun(first);
            && Genuine(run) && Gentle(run) && |run| == MAX_ENTRIES + 1 && run[0] == first
            && Top(run) == Earliest(first) + MAX_ENTRIES && Earliest(first) in run
            && Start(first) <= run
  {
    StartIsGentle(first);
    FilledIsGentle(Start(first), Earliest(first), MAX_ENTRIES + 1);
    FilledSize(first, MAX_ENTRIES + 1);
    hide Genuine, Gentle, Top;
    var run, top := LongRun(first), Earliest(first) + MAX_ENTRIES;
    assert top in run && Top(run) in run;
  }

  /** A full table is cleared of everything out of date before a packet passes. */
  lemma FullIsCleared(w: Window, h: Header)
    requires w.initialized && Passes(w, h) && |w.seen| >= MAX_ENTRIES
    ensures var x := Next(w, h);
            forall n :: n in x.seen ==> n == BuildNonce(h) || (n in w.seen && w.seen[n] >= Cutoff(x.highest))
  {
  }

  /** The packet was filed in the first epoch, early. */
  lemma AgainIsFiledEarly(s: Sender, first: Counter, j: nat)
    requires Earliest(first) + MAX_ENTRIES < 0x1_0000_0000_0000 && WindowTime(s, first, Earliest(first)) < 0
    requires j == |Start(first)| - 1
    ensures FiledAt(Headers(s, Start(first)), j) < SPAN
  {
    var x := Again(first);
    StartIsGentle(first);
    LagIsSpan(x, Earliest(first));
    TicksAreMonotone(first, x);
    FirstIsWithin(s, first);
    hide Genuine, Gentle, FiledAt, Ticks, Earliest, HeaderOf;
    assert forall c :: c in Start(first) ==> WindowTime(s, first, c) >= 0;
    FiledUnderItsTime(s, Start(first), j);
  }

  lemma SameFiling(s: Sender, cs: seq<Counter>, ds: seq<Counter>, j: nat)
    requires cs <= ds && j < |cs|
    ensures FiledAt(Headers(s, cs), j) == FiledAt(Headers(s, ds), j)
  {
    hide TimeOf, HeaderOf;
    assert Headers(s, cs)[..j] == Headers(s, ds)[..j];
  }

  /** The last packet of the long run clears the repeated one's nonce away. */
  lemma LongRunForgets(s: Sender, first: Counter)
    requires Earliest(first) + MAX_ENTRIES < 0x1_0000_0000_0000 && WindowTime(s, first, Earliest(first)) < 0
    requires After(Headers(s, LongRun(first))).highest >= EPOCH - SPAN
    ensures NonceOf(s, Again(first)) !in After(Headers(s, LongRun(first))).seen
  {
    hide *;
    var run, x := LongRun(first), Again(first);
    LongRunIs(first);
    var hs := Headers(s, run);
    var front, j := hs[..MAX_ENTRIES], |Start(first)| - 1;
    StartEnds(first);
    GentleIsPassing(s, run);
    AllPassBefore(hs);
    NothingForgotten(front);
    OpenedByFirst(front);
    AgainIsFiledEarly(s, first, j);
    assert MAX_ENTRIES >= 2 by { TableIsLarge(); }
    assert Start(first) <= run[..MAX_ENTRIES];
    SameFiling(s, Start(first), run[..MAX_ENTRIES], j);
    HeadersCut(s, run, MAX_ENTRIES);
    HeadersCut(s, run, j);
    LastIsOther(first);
    DistinctHeaders(s, x, run[MAX_ENTRIES]);
    FullForgets(s, front, hs, j);
  }

  lemma TableIsLarge()
    ensures MAX_ENTRIES >= 2
  {
  }

  lemma DistinctHeaders(s: Sender, c: Counter, d: Counter)
    requires c != d
    ensures BuildNonce(HeaderOf(s, c)) != BuildNonce(HeaderOf(s, d)) && NonceOf(s, c) == BuildNonce(HeaderOf(s, c))
  {
    DistinctNonces(s, c, d);
    hide BuildNonce, HeaderOf;
  }

  lemma StartEnds(first: Counter)
    requires Earliest(first) + MAX_ENTRIES < 0x1_0000_0000_0000
    ensures 1 <= |Start(first)| <= 2 && Start(first)[|Start(first)| - 1] == Again(first)
  {
  }

  lemma GentleIsPassing(s: Sender, cs: seq<Counter>)
    requires Genuine(cs) && Gentle(cs)
    ensures AllPass(Headers(s, cs))
  {
    GentleTrafficIsNeverLost(s, cs);
  }

  lemma HeadersCut(s: Sender, cs: seq<Counter>, n: nat)
    requires n < |cs|
    ensures Headers(s, cs)[..n] == Headers(s, cs[..n]) && Headers(s, cs)[n] == HeaderOf(s, cs[n])
  {
  }

  lemma LastIsOther(first: Counter)
    requires Earliest(first) + MAX_ENTRIES < 0x1_0000_0000_0000 && |LongRun(first)| == MAX_ENTRIES + 1
    ensures LongRun(first)[MAX_ENTRIES] != Again(first)
  {
  }

  lemma FullForgets(s: Sender, front: seq<Header>, hs: seq<Header>, j: nat)
    requires |hs| == MAX_ENTRIES + 1 && front == hs[..MAX_ENTRIES] && j < MAX_ENTRIES
    requires Passes(After(front), hs[MAX_ENTRIES]) && |After(front).seen| == MAX_ENTRIES && After(front).initialized
    requires KnownAs(After(front), front, j) && FiledAt(front, j) < SPAN
    requires After(hs).highest >= EPOCH - SPAN && BuildNonce(hs[j]) != BuildNonce(hs[MAX_ENTRIES])
    ensures BuildNonce(hs[j]) !in After(hs).seen
  {
    hide Passes, Next, FiledAt, BuildNonce;
    FullIsCleared(After(front), hs[MAX_ENTRIES]);
    assert After(hs) == Next(After(front), hs[MAX_ENTRIES]);
  }

  /** What fails: after a slip and 8193 packets in all, one that came before the
      slip is accepted a second time. */
  lemma RepeatPasses(s: Sender, first: Counter)
    requires Earliest(first) + MAX_ENTRIES < 0x1_0000_0000_0000 && WindowTime(s, first, Earliest(first)) < 0
    ensures var run := LongRun(first);
            Again(first) in run && AllAccepted(s, run) && Passes(After(Headers(s, run)), HeaderOf(s, Again(first)))
  {
    hide *;
    var run, x := LongRun(first), Again(first);
    LongRunIs(first);
    StartEnds(first);
    GentleInStep(s, run);
    var w := After(Headers(s, run));
    SlipsSomewhere(s, run, Earliest(first));
    AfterTheSlip(s, first, run, w);
  }

  lemma SlipsSomewhere(s: Sender, cs: seq<Counter>, late: Counter)
    requires late in cs && WindowTime(s, cs[0], late) < 0
    ensures !WithinEpoch(s, cs)
  {
    var i :| 0 <= i < |cs| && cs[i] == late;
    assert !InEpoch(s, cs[0], cs[i]);
  }

  lemma AfterTheSlip(s: Sender, first: Counter, run: seq<Counter>, w: Window)
    requires Earliest(first) + MAX_ENTRIES < 0x1_0000_0000_0000 && WindowTime(s, first, Earliest(first)) < 0
    requires run == LongRun(first) && run != [] && run[0] == first && Top(run) == Earliest(first) + MAX_ENTRIES
    requires w == After(Headers(s, run)) && InStep(s, run, w) && !WithinEpoch(s, run)
    ensures Passes(w, HeaderOf(s, Again(first)))
  {
    hide Passes, LongRun, After, Headers, HeaderOf, FiledAs, Top, WithinEpoch, BuildNonce;
    var x := Again(first);
    var top: Counter :| Shifted(s, run, top, w);
    ShiftedTime(s, first, top);
    LongRunForgets(s, first);
    TicksAreMonotone(top, Top(run));
    AgainIsNear(first, top);
    ShiftedPasses(s, run, top, w, x);
  }

  lemma AgainIsNear(first: Counter, top: Counter)
    requires Earliest(first) + MAX_ENTRIES < 0x1_0000_0000_0000 && top + LAG >= Earliest(first) + MAX_ENTRIES
    ensures Again(first) + LAG >= Earliest(first) + MAX_ENTRIES
    ensures Ticks(Again(first)) < Ticks(top) + HALF
  {
  }

  lemma AgainIsRecent(first: Counter)
    requires Earliest(first) + MAX_ENTRIES < 0x1_0000_0000_0000
    ensures Ticks(Earliest(first) + MAX_ENTRIES) < Ticks(Again(first)) + HALF
  {
  }

  lemma {:induction false} IndicesAreBelow(cs: seq<Counter>)
    ensures forall k :: k in FirstIndices(cs) ==> k < |cs|
  {
    if cs != [] {
      IndicesAreBelow(cs[..|cs| - 1]);
    }
  }

  lemma OneRepeat(run: seq<Counter>, x: Counter)
    requires NoRepeats(run) && Firsts(run) == run && x in run && Recent(run, x)
    ensures Firsts(run + [x]) == run && RecentRepeats(run + [x])
  {
    hide Recent;
    var cs := run + [x];
    assert cs[..|run|] == run;
    forall i | 0 <= i < |run| ensures cs[i] !in cs[..i] {
      assert cs[..i] == run[..i];
    }
    assert forall i :: 0 <= i < |cs| && cs[i] in cs[..i] ==> i == |run|;
  }

  /** The long run with its repeat, counted as the definitions want it. */
  lemma RepeatCounts(s: Sender, run: seq<Counter>, x: Counter)
    requires run != [] && Genuine(run) && Gentle(run) && x in run && Recent(run, x)
    requires Passes(After(Headers(s, run)), HeaderOf(s, x))
    ensures Repeating(run + [x], run[0])
    ensures AcceptedIndices(Headers(s, run + [x])) != FirstIndices(run + [x])
  {
    hide Genuine, Gentle, Passes, HeaderOf, After, Recent, RecentRepeats, NoRepeats;
    var cs := run + [x];
    GenuineHasNoRepeats(run);
    NoRepeatsIsDistinct(run);
    OneRepeat(run, x);
    assert cs[..|run|] == run;
    IndicesAreBelow(run);
    HeadersExtend(s, run, x);
    assert Headers(s, cs)[..|run|] == Headers(s, run);
    assert |run| in AcceptedIndices(Headers(s, cs)) && |run| !in FirstIndices(cs);
  }

  /** Repeats are always harmless exactly when no packet that may follow the
      first belongs before its epoch, or the counters end before the window's
      table can fill. */
  lemma AcceptsOnceExactly(s: Sender, first: Counter)
    ensures AcceptsOnce(s, first) <==>
      || HeaderOf(s, first).ts >= Ticks(first) - Ticks(Earliest(first))
      || Earliest(first) + MAX_ENTRIES >= 0x1_0000_0000_0000
  {
    hide HeaderOf, Genuine, Gentle, RecentRepeats, Tame, AcceptedIndices, FirstIndices, Ticks, Top, LongRun;
    var inEpoch := HeaderOf(s, first).ts >= Ticks(first) - Ticks(Earliest(first));
    if inEpoch || Earliest(first) + MAX_ENTRIES >= 0x1_0000_0000_0000 {
      forall cs: seq<Counter> | Repeating(cs, first)
        ensures AcceptedIndices(Headers(s, cs)) == FirstIndices(cs)
      {
        FirstsPrefix(cs, 0);
        if inEpoch {
          InEpochFromEarliest(s, Firsts(cs));
          WithinIsTame(s, cs);
        } else {
          FewAreTame(s, cs);
        }
        TameRun(s, cs);
      }
    } else {
      var run := LongRun(first);
      LongRunIs(first);
      AgainIsRecent(first);
      RepeatPasses(s, first);
      RepeatCounts(s, run, Again(first));
    }
  }
}
