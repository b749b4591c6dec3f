/** Ranking the slider's candidates by three scores (rankSliderGuessesV2,
    captcha_v2_slider.go). A candidate is named by its position; scores matter
    only through their order, so the floating-point text score is an integer. */
module SliderRanking {
  import opened Sets
  import opened Wrappers
  import T = SliderTiles

  const STAGE2: nat := 12

  datatype Scores = Scores(luma: seq<int>, rgb: seq<int>, text: seq<int>) {
    predicate Valid() { |rgb| == |luma| && |text| == |luma| }
    function Count(): nat { |luma| }
  }

  // ----- The order of two keys and a position -----

  predicate Before(a: seq<int>, c: seq<int>, i: nat, j: nat)
    requires i < |a| == |c| && j < |a|
  {
    a[i] < a[j] || (a[i] == a[j] && (c[i] < c[j] || (c[i] == c[j] && i < j)))
  }

  predicate Within(s: seq<nat>, n: nat) { forall k :: 0 <= k < |s| ==> s[k] < n }

  predicate Ordered(a: seq<int>, c: seq<int>, s: seq<nat>)
    requires |a| == |c| && Within(s, |a|)
  {
    forall k, l :: 0 <= k < l < |s| ==> Before(a, c, s[k], s[l])
  }

  function Elements(s: seq<nat>): set<nat> { set k | 0 <= k < |s| :: s[k] }

  lemma ElementsOfAppend(s: seq<nat>, x: nat)
    ensures Elements(s + [x]) == Elements(s) + {x}
  {
    assert (s + [x])[|s|] == x;
    assert forall k :: 0 <= k < |s| ==> (s + [x])[k] == s[k];
  }

  lemma ElementsOfInit(s: seq<nat>)
    requires s != []
    ensures Elements(s) == Elements(s[..|s| - 1]) + {s[|s| - 1]}
  {
  }

  /** What sort.SliceStable computes for these comparisons. */
  function SortBy(a: seq<int>, c: seq<int>, s: seq<nat>): (t: seq<nat>)
    requires |a| == |c| && Within(s, |a|)
    ensures |t| == |s| && Within(t, |a|) && Elements(t) == Elements(s)
  {
    if s == [] then []
    else
      ElementsOfInit(s);
      Insert(a, c, SortBy(a, c, s[..|s| - 1]), s[|s| - 1])
  }

  function Insert(a: seq<int>, c: seq<int>, s: seq<nat>, x: nat): (t: seq<nat>)
    requires |a| == |c| && Within(s, |a|) && x < |a|
    ensures |t| == |s| + 1 && Within(t, |a|) && Elements(t) == Elements(s) + {x}
  {
    if s == [] || !Before(a, c, x, s[|s| - 1]) then
      ElementsOfAppend(s, x);
      s + [x]
    else
      ElementsOfInit(s);
      var t := Insert(a, c, s[..|s| - 1], x);
      ElementsOfAppend(t, s[|s| - 1]);
      t + [s[|s| - 1]]
  }

  lemma BeforeIsTransitive(a: seq<int>, c: seq<int>, i: nat, j: nat, k: nat)
    requires i < |a| == |c| && j < |a| && k < |a| && Before(a, c, i, j) && Before(a, c, j, k)
    ensures Before(a, c, i, k)
  {
  }

  /** Appending a candidate after all others keeps the order. */
  lemma AppendOrders(a: seq<int>, c: seq<int>, s: seq<nat>, x: nat)
    requires |a| == |c| && Within(s, |a|) && x < |a| && Ordered(a, c, s)
    requires forall y :: y in Elements(s) ==> Before(a, c, y, x)
    ensures Ordered(a, c, s + [x])
  {
  }

  lemma {:induction false} InsertOrders(a: seq<int>, c: seq<int>, s: seq<nat>, x: nat)
    requires |a| == |c| && Within(s, |a|) && x < |a| && Ordered(a, c, s) && x !in Elements(s)
    ensures Ordered(a, c, Insert(a, c, s, x))
  {
    if s == [] {
      AppendOrders(a, c, s, x);
    } else {
      var n := |s| - 1;
      var last := s[n];
      assert last in Elements(s);
      ElementsOfInit(s);
      forall y | y in Elements(s[..n]) ensures Before(a, c, y, last) {
        var k :| 0 <= k < n && s[..n][k] == y;
        assert s[k] == y;
      }
      if Before(a, c, x, last) {
        InsertOrders(a, c, s[..n], x);
        AppendOrders(a, c, Insert(a, c, s[..n], x), last);
      } else {
        assert Before(a, c, last, x);
        forall y | y in Elements(s) ensures Before(a, c, y, x) {
          if y != last {
            BeforeIsTransitive(a, c, y, last, x);
          }
        }
        AppendOrders(a, c, s, x);
      }
    }
  }

  lemma {:induction false} SortOrders(a: seq<int>, c: seq<int>, s: seq<nat>)
    requires |a| == |c| && Within(s, |a|) && Distinct(s)
    ensures Ordered(a, c, SortBy(a, c, s))
  {
    hide Before, Insert, Ordered;
    if s != [] {
      var n := |s| - 1;
      SortOrders(a, c, s[..n]);
      InsertOrders(a, c, SortBy(a, c, s[..n]), s[n]);
    } else {
      assert Ordered(a, c, []) by {
        NothingIsOrdered(a, c);
      }
    }
  }

  lemma NothingIsOrdered(a: seq<int>, c: seq<int>)
    requires |a| == |c|
    ensures Ordered(a, c, [])
  {
  }

  // ----- Ranks -----

  function Earlier(a: seq<int>, c: seq<int>, among: set<nat>, i: nat): set<nat>
    requires |a| == |c| && i < |a| && forall j :: j in among ==> j < |a|
  {
    set j | j in among && Before(a, c, j, i)
  }

  /** How many members of a set come before a candidate. */
  function Rank(a: seq<int>, c: seq<int>, among: set<nat>, i: nat): nat
    requires |a| == |c| && i < |a| && forall j :: j in among ==> j < |a|
  {
    |Earlier(a, c, among, i)|
  }

  /** A rank is a position in the sorted order. */
  lemma RankIsPosition(a: seq<int>, c: seq<int>, s: seq<nat>, k: nat)
    requires |a| == |c| && Within(s, |a|) && Ordered(a, c, s) && k < |s|
    ensures Rank(a, c, Elements(s), s[k]) == k
  {
    var earlier := Earlier(a, c, Elements(s), s[k]);
    forall j ensures j in earlier <==> j in Elements(s[..k]) {
      if j in earlier {
        var l :| 0 <= l < |s| && s[l] == j;
        assert l < k;
        assert s[..k][l] == j;
      }
      if j in Elements(s[..k]) {
        var l :| 0 <= l < k && s[..k][l] == j;
        assert s[l] == j;
      }
    }
    assert earlier == Elements(s[..k]);
    ElementCount(s[..k]);
  }

  lemma {:induction false} ElementCount(s: seq<nat>)
    requires Distinct(s)
    ensures |Elements(s)| == |s|
  {
    if s != [] {
      var n := |s| - 1;
      ElementCount(s[..n]);
      ElementsOfAppend(s[..n], s[n]);
      assert s == s[..n] + [s[n]];
      assert s[n] !in Elements(s[..n]);
    }
  }

  /** Distinct candidates have one order only: neither the schedule of equal
      work nor the iteration order of a map can show in a sorted result. */
  lemma OrderIsUnique(a: seq<int>, c: seq<int>, s: seq<nat>, t: seq<nat>)
    requires |a| == |c| && Within(s, |a|) && Within(t, |a|)
    requires Ordered(a, c, s) && Ordered(a, c, t) && Elements(s) == Elements(t)
    ensures s == t
  {
    ElementCount(s);
    ElementCount(t);
    forall k | 0 <= k < |s| ensures s[k] == t[k] {
      assert s[k] in Elements(t);
      var l :| 0 <= l < |t| && t[l] == s[k];
      RankIsPosition(a, c, s, k);
      RankIsPosition(a, c, t, l);
    }
  }

  /** Ranks within a set fall short of its size, and follow the order. */
  lemma RankBelowSize(a: seq<int>, c: seq<int>, among: set<nat>, i: nat)
    requires |a| == |c| && (forall j :: j in among ==> j < |a|) && i in among
    ensures Rank(a, c, among, i) < |among|
  {
    SubsetSize(Earlier(a, c, among, i), among - {i});
  }

  lemma RankFollowsOrder(a: seq<int>, c: seq<int>, among: set<nat>, i: nat, j: nat)
    requires |a| == |c| && (forall k :: k in among ==> k < |a|) && i in among && j in among
    ensures Before(a, c, i, j) <==> Rank(a, c, among, i) < Rank(a, c, among, j)
  {
    if Before(a, c, i, j) {
      RankGrows(a, c, among, i, j);
    } else if Before(a, c, j, i) {
      RankGrows(a, c, among, j, i);
    } else {
      assert i == j;
    }
  }

  lemma RankGrows(a: seq<int>, c: seq<int>, among: set<nat>, i: nat, j: nat)
    requires |a| == |c| && (forall k :: k in among ==> k < |a|) && i in among && j < |a| && Before(a, c, i, j)
    ensures Rank(a, c, among, i) < Rank(a, c, among, j)
  {
    var low, high := Earlier(a, c, among, i), Earlier(a, c, among, j);
    assert i in high;
    assert low <= high - {i};
    SubsetSize(low, high - {i});
  }

  // ----- The consensus -----

  function All(n: nat): seq<nat> { seq(n, i => i) }

  function LumaRank(s: Scores, i: nat): nat
    requires s.Valid() && i < s.Count()
  {
    Rank(s.luma, s.luma, Everyone(s), i)
  }

  function Everyone(s: Scores): set<nat> { Elements(All(s.Count())) }

  /** The twelve best by luma. */
  predicate Finalist(s: Scores, i: nat)
    requires s.Valid()
  {
    i < s.Count() && LumaRank(s, i) < STAGE2
  }

  function Finalists(s: Scores): set<nat>
    requires s.Valid()
  {
    set i: nat | i < s.Count() && Finalist(s, i)
  }

  function Consensus(s: Scores, i: nat): nat
    requires s.Valid() && i < s.Count()
  {
    LumaRank(s, i) +
    if Finalist(s, i) then Rank(s.rgb, s.rgb, Finalists(s), i) + Rank(s.text, s.text, Finalists(s), i)
    else s.Count()
  }

  function Consensuses(s: Scores): seq<int>
    requires s.Valid()
  {
    seq(s.Count(), i requires 0 <= i < s.Count() => Consensus(s, i))
  }

  /** The candidates, best first: by consensus, then luma, then position. */
  function Ranking(s: Scores): (r: seq<nat>)
    requires s.Valid()
    ensures |r| == s.Count() && Within(r, s.Count())
  {
    SortBy(Consensuses(s), s.luma, All(s.Count()))
  }

  lemma RankingSorts(s: Scores)
    requires s.Valid()
    ensures Ordered(Consensuses(s), s.luma, Ranking(s))
    ensures Elements(Ranking(s)) == Everyone(s)
    ensures forall k, l :: 0 <= k < l < |Ranking(s)| ==>
              var i, j := Ranking(s)[k], Ranking(s)[l];
              Consensus(s, i) < Consensus(s, j)
              || (Consensus(s, i) == Consensus(s, j) && (s.luma[i] < s.luma[j] || (s.luma[i] == s.luma[j] && i < j)))
  {
    SortOrders(Consensuses(s), s.luma, All(s.Count()));
  }

  lemma FinalistsByLuma(s: Scores, t: Scores)
    requires s.Valid() && t.Valid() && s.luma == t.luma
    ensures Finalists(s) == Finalists(t) && forall i: nat :: Finalist(s, i) <==> Finalist(t, i)
  {
    hide Rank;
    forall i: nat ensures Finalist(s, i) <==> Finalist(t, i) {
      assert i < s.Count() ==> LumaRank(s, i) == LumaRank(t, i);
    }
  }

  /** The RGB and the text score each count by their rank among the finalists,
      once, and not at all for the others. */
  lemma ScoresCount(s: Scores, rgb: seq<int>, text: seq<int>, i: nat)
    requires s.Valid() && i < s.Count() == |rgb| == |text|
    ensures var t, among := Scores(s.luma, rgb, text), Finalists(s);
            Consensus(t, i) - Consensus(s, i) ==
              if i in among then Rank(rgb, rgb, among, i) - Rank(s.rgb, s.rgb, among, i)
                                 + Rank(text, text, among, i) - Rank(s.text, s.text, among, i)
              else 0
  {
    FinalistsByLuma(s, Scores(s.luma, rgb, text));
    hide Rank;
  }

  // ----- rankSliderGuessesV2 -----

  datatype RankError = NoCandidates | BadSwaps(error: T.SwapError)

  /** The maps from candidate to rank. */
  method RankMap(order: seq<nat>) returns (m: map<nat, nat>)
    requires Distinct(order)
    ensures m.Keys == Elements(order)
    ensures forall k :: 0 <= k < |order| ==> m[order[k]] == k
  {
    m := map[];
    for rank := 0 to |order|
      invariant m.Keys == Elements(order[..rank])
      invariant forall k :: 0 <= k < rank ==> order[k] in m && m[order[k]] == k
    {
      assert order[..rank + 1] == order[..rank] + [order[rank]];
      ElementsOfAppend(order[..rank], order[rank]);
      m := m[order[rank] := rank];
    }
    assert order[..|order|] == order;
  }

  /** The map of positions in a sorted order gives the ranks. */
  method Ranks(a: seq<int>, c: seq<int>, s: seq<nat>) returns (m: map<nat, nat>)
    requires |a| == |c| && Within(s, |a|) && Distinct(s)
    ensures m.Keys == Elements(s)
    ensures forall i :: i in Elements(s) ==> i < |a| && m[i] == Rank(a, c, Elements(s), i)
  {
    var order := SortBy(a, c, s);
    SortOrders(a, c, s);
    m := RankMap(order);
    forall i | i in Elements(s) ensures i < |a| && m[i] == Rank(a, c, Elements(s), i) {
      assert i in Elements(order);
      var k :| 0 <= k < |order| && order[k] == i;
      RankIsPosition(a, c, order, k);
    }
  }

  /** Keys that agree on a set rank it alike. */
  lemma RankReadsMembers(a: seq<int>, b: seq<int>, among: set<nat>, i: nat)
    requires |a| == |b| && (forall j :: j in among ==> j < |a| && a[j] == b[j]) && i in among
    ensures Rank(a, a, among, i) == Rank(b, b, among, i)
  {
    assert Earlier(a, a, among, i) == Earlier(b, b, among, i);
  }

  /** The candidates kept for the second stage. */
  method Select(n: nat, chosen: set<nat>) returns (s: seq<nat>)
    ensures Distinct(s) && Within(s, n) && forall i :: i in Elements(s) <==> i < n && i in chosen
  {
    s := [];
    for i := 0 to n
      invariant Distinct(s) && Within(s, i)
      invariant forall j :: j in Elements(s) <==> j < i && j in chosen
    {
      if i in chosen {
        ElementsOfAppend(s, i);
        s := s + [i];
      }
    }
  }

  /** The second stage: the scores arrive in some order and are filed by
      candidate. */
  method Collect(scores: seq<int>, arrivals: seq<nat>) returns (filed: seq<int>)
    requires Within(arrivals, |scores|)
    ensures |filed| == |scores| && forall i :: i in Elements(arrivals) ==> filed[i] == scores[i]
  {
    filed := seq(|scores|, _ => 0);
    for k := 0 to |arrivals|
      invariant |filed| == |scores| && forall i :: i in Elements(arrivals[..k]) ==> filed[i] == scores[i]
    {
      assert arrivals[..k + 1] == arrivals[..k] + [arrivals[k]];
      ElementsOfAppend(arrivals[..k], arrivals[k]);
      filed := filed[arrivals[k] := scores[arrivals[k]]];
    }
    assert arrivals[..|arrivals|] == arrivals;
  }

  /** The consensus of every candidate, from the three rank maps. */
  method Combine(s: Scores, chosen: set<nat>, luma: map<nat, nat>, rgb: map<nat, nat>, text: map<nat, nat>)
    returns (consensus: seq<int>)
    requires s.Valid() && luma.Keys == Everyone(s) && rgb.Keys == text.Keys == chosen == Finalists(s)
    requires forall i :: i in luma ==> i < s.Count() && luma[i] == LumaRank(s, i)
    requires forall i :: i in chosen ==> rgb[i] == Rank(s.rgb, s.rgb, chosen, i)
    requires forall i :: i in chosen ==> text[i] == Rank(s.text, s.text, chosen, i)
    ensures consensus == Consensuses(s)
  {
    hide Rank, LumaRank;
    consensus := [];
    for i := 0 to s.Count()
      invariant |consensus| == i && forall k :: 0 <= k < i ==> consensus[k] == Consensus(s, k)
    {
      assert All(s.Count())[i] == i;
      assert i in Everyone(s);
      var rank := luma[i];
      if i in chosen {
        rank := rank + rgb[i] + text[i];
      } else {
        rank := rank + s.Count();
      }
      consensus := consensus + [rank];
    }
  }

  /** Its ranking part. The order in which the second stage's workers deliver
      is arbitrary, and the result does not depend on it. */
  method RankGuesses(s: Scores, arrivals: seq<nat>) returns (r: Result<seq<nat>, RankError>)
    requires s.Valid() && Within(arrivals, s.Count()) && Elements(arrivals) == Finalists(s)
    ensures s.Count() == 0 ==> r == Err(NoCandidates)
    ensures s.Count() > 0 ==> r == Ok(Ranking(s))
  {
    var n := s.Count();
    if n == 0 {
      return Err(NoCandidates);
    }
    var lumaOrder := SortBy(s.luma, s.luma, All(n));
    SortOrders(s.luma, s.luma, All(n));
    var luma := Ranks(s.luma, s.luma, All(n));
    var stage2Count := if n > STAGE2 then STAGE2 else n;
    var chosen := Elements(lumaOrder[..stage2Count]);
    FirstAreFinalists(s, lumaOrder, stage2Count);
    var rgb := Collect(s.rgb, arrivals);
    var text := Collect(s.text, arrivals);
    var stage2 := Select(n, chosen);
    assert Elements(stage2) == chosen;
    var rgbRank := Ranks(rgb, rgb, stage2);
    var textRank := Ranks(text, text, stage2);
    forall i | i in chosen
      ensures rgbRank[i] == Rank(s.rgb, s.rgb, chosen, i) && textRank[i] == Rank(s.text, s.text, chosen, i)
    {
      RankReadsMembers(rgb, s.rgb, chosen, i);
      RankReadsMembers(text, s.text, chosen, i);
    }
    hide Rank, Finalists;
    var consensus := Combine(s, chosen, luma, rgbRank, textRank);
    return Ok(SortBy(consensus, s.luma, All(n)));
  }

  /** How an arrangement of the tiles scores. */
  datatype Judges = Judges(luma: seq<int> -> int, rgb: seq<int> -> int, text: seq<int> -> int)

  /** The arrangement of candidate k: the first k + 1 swaps applied. */
  function Arrangement(gridSize: int, swaps: seq<int>, k: nat): seq<int>
    requires gridSize * gridSize >= 0 && k < |swaps| / 2 && T.InRange(T.Pairs(swaps), gridSize * gridSize)
  {
    assert forall i :: 0 <= i <= k ==> T.Pairs(swaps)[..k + 1][i] == T.Pairs(swaps)[i];
    T.Applied(T.Identity(gridSize * gridSize), T.Pairs(swaps)[..k + 1])
  }

  /** Candidate k shows, in each place, the tile that the first k + 1 swaps of the
      list bring there. */
  lemma ArrangementMoves(gridSize: int, swaps: seq<int>, k: nat, place: nat)
    requires gridSize * gridSize >= 0 && k < |swaps| / 2 && T.InRange(T.Pairs(swaps), gridSize * gridSize)
    requires place < gridSize * gridSize
    ensures |Arrangement(gridSize, swaps, k)| == gridSize * gridSize
    ensures Arrangement(gridSize, swaps, k)[place] == T.Source(T.Pairs(swaps)[..k + 1], place)
  {
    var pairs := T.Pairs(swaps)[..k + 1];
    RangeOfPrefixes(T.Pairs(swaps), gridSize * gridSize, k + 1);
    T.AppliedMoves(T.Identity(gridSize * gridSize), pairs, place);
    hide T.Source, T.Applied, T.Pairs;
  }

  function ScoresOf(gridSize: int, swaps: seq<int>, j: Judges): (s: Scores)
    requires gridSize * gridSize >= 0 && T.InRange(T.Pairs(swaps), gridSize * gridSize)
    ensures s.Valid() && s.Count() == |swaps| / 2
  {
    var n := |swaps| / 2;
    Scores(seq(n, k requires 0 <= k < n => j.luma(Arrangement(gridSize, swaps, k))),
           seq(n, k requires 0 <= k < n => j.rgb(Arrangement(gridSize, swaps, k))),
           seq(n, k requires 0 <= k < n => j.text(Arrangement(gridSize, swaps, k))))
  }

  /** Each judge scores each candidate's own arrangement. */
  lemma ScoresAre(gridSize: int, swaps: seq<int>, j: Judges, k: nat)
    requires gridSize * gridSize >= 0 && k < |swaps| / 2 && T.InRange(T.Pairs(swaps), gridSize * gridSize)
    ensures var s, m := ScoresOf(gridSize, swaps, j), Arrangement(gridSize, swaps, k);
            s.luma[k] == j.luma(m) && s.rgb[k] == j.rgb(m) && s.text[k] == j.text(m)
  {
    hide Arrangement, T.InRange, T.Pairs;
  }

  /** One candidate: its arrangement, or why there is none. */
  method Arrange(gridSize: int, swaps: seq<int>, index: nat) returns (r: Result<seq<int>, T.SwapError>)
    requires 1 <= index <= |swaps| / 2
    ensures gridSize == 0 ==> r == Err(T.BadTileCount)
    ensures gridSize != 0 && !T.InRange(T.Pairs(swaps)[..index], gridSize * gridSize) ==> r == Err(T.OutOfRange)
    ensures gridSize != 0 && T.InRange(T.Pairs(swaps)[..index], gridSize * gridSize) ==>
      gridSize * gridSize > 0 && r == Ok(T.Applied(T.Identity(gridSize * gridSize), T.Pairs(swaps)[..index]))
  {
    hide T.Applied, T.Pairs;
    T.ActivePairs(swaps, index);
    T.SquareIsPositive(gridSize);
    var active := T.ActiveSwaps(swaps, index);
    var m := T.ApplySliderSwaps(gridSize, active);
    match m {
      case Err(e) => return Err(e);
      case Ok(a) => return Ok(a[..]);
    }
  }

  lemma RangeOfPrefixes(pairs: seq<(int, int)>, n: int, k: nat)
    requires k <= |pairs| && T.InRange(pairs, n)
    ensures T.InRange(pairs[..k], n)
  {
  }

  /** rankSliderGuessesV2: every candidate's swaps are checked and applied, the
      arrangements are scored, and the candidates ranked. */
  method RankSliderGuesses(gridSize: int, swaps: seq<int>, j: Judges, arrivals: seq<nat>)
    returns (r: Result<seq<nat>, RankError>)
    requires gridSize * gridSize > 0 && T.InRange(T.Pairs(swaps), gridSize * gridSize) ==>
      Within(arrivals, |swaps| / 2) && Elements(arrivals) == Finalists(ScoresOf(gridSize, swaps, j))
    ensures |swaps| / 2 == 0 ==> r == Err(NoCandidates)
    ensures |swaps| / 2 > 0 && gridSize == 0 ==> r == Err(BadSwaps(T.BadTileCount))
    ensures |swaps| / 2 > 0 && gridSize != 0 && !T.InRange(T.Pairs(swaps), gridSize * gridSize) ==>
      r == Err(BadSwaps(T.OutOfRange))
    ensures |swaps| / 2 > 0 && gridSize != 0 && T.InRange(T.Pairs(swaps), gridSize * gridSize) ==>
      gridSize * gridSize > 0 && r == Ok(Ranking(ScoresOf(gridSize, swaps, j)))
  {
    hide T.Applied, T.Pairs, Ranking, Finalists, T.InRange;
    var n := |swaps| / 2;
    T.SquareIsPositive(gridSize);
    if n == 0 {
      return Err(NoCandidates);
    }
    var luma: seq<int>, rgb: seq<int>, text: seq<int> := [], [], [];
    ghost var pairs, size := T.Pairs(swaps), gridSize * gridSize;
    for i := 0 to n
      invariant |luma| == |rgb| == |text| == i
      invariant i > 0 ==> size > 0 && T.InRange(pairs[..i], size)
      invariant size > 0 && T.InRange(pairs, size) ==> forall k :: 0 <= k < i ==>
        luma[k] == j.luma(Arrangement(gridSize, swaps, k)) && rgb[k] == j.rgb(Arrangement(gridSize, swaps, k))
        && text[k] == j.text(Arrangement(gridSize, swaps, k))
    {
      if size > 0 && T.InRange(pairs, size) {
        RangeOfPrefixes(pairs, size, i + 1);
      }
      var m := Arrange(gridSize, swaps, i + 1);
      if m.Err? {
        return Err(BadSwaps(m.error));
      }
      luma, rgb, text := luma + [j.luma(m.value)], rgb + [j.rgb(m.value)], text + [j.text(m.value)];
    }
    assert pairs[..n] == pairs;
    assert Scores(luma, rgb, text) == ScoresOf(gridSize, swaps, j);
    r := RankGuesses(Scores(luma, rgb, text), arrivals);
  }

  /** The first twelve by luma are the ones whose rank is below twelve. */
  lemma FirstAreFinalists(s: Scores, order: seq<nat>, count: nat)
    requires s.Valid() && Within(order, s.Count()) && Ordered(s.luma, s.luma, order)
    requires Elements(order) == Everyone(s) && |order| == s.Count()
    requires count == if s.Count() > STAGE2 then STAGE2 else s.Count()
    ensures Elements(order[..count]) == Finalists(s)
  {
    forall i: nat ensures i in Elements(order[..count]) <==> i in Finalists(s) {
      if i < s.Count() {
        assert All(s.Count())[i] == i;
        assert i in Elements(order);
        var k :| 0 <= k < |order| && order[k] == i;
        RankIsPosition(s.luma, s.luma, order, k);
        assert k < count ==> order[..count][k] == i;
        if i in Elements(order[..count]) {
          var l :| 0 <= l < count && order[..count][l] == i;
          RankIsPosition(s.luma, s.luma, order, l);
        }
      }
    }
  }

  lemma FinalistCount(s: Scores)
    requires s.Valid()
    ensures |Finalists(s)| <= STAGE2
  {
    var order := SortBy(s.luma, s.luma, All(s.Count()));
    var count := if s.Count() > STAGE2 then STAGE2 else s.Count();
    SortOrders(s.luma, s.luma, All(s.Count()));
    FirstAreFinalists(s, order, count);
    ElementCount(order[..count]);
  }

  // ----- Do the best by luma stay in front? -----

  /** No other candidate stands before one of the twelve best by luma. */
  ghost predicate FinalistsFirst(s: Scores)
    requires s.Valid()
  {
    forall k, l :: 0 <= k < l < s.Count() && Finalist(s, Ranking(s)[l]) ==> Finalist(s, Ranking(s)[k])
  }

  lemma FinalistBeatsOther(s: Scores, i: nat, j: nat)
    requires s.Valid() && s.Count() >= 21 && Finalist(s, i) && j < s.Count() && !Finalist(s, j)
    ensures Before(Consensuses(s), s.luma, i, j)
  {
    FinalistCount(s);
    RankBelowSize(s.rgb, s.rgb, Finalists(s), i);
    RankBelowSize(s.text, s.text, Finalists(s), i);
    assert All(s.Count())[i] == i && All(s.Count())[j] == j;
    RankFollowsOrder(s.luma, s.luma, Everyone(s), i, j);
    hide Rank, Finalists;
  }

  lemma ManyPutFinalistsFirst(s: Scores)
    requires s.Valid() && s.Count() >= 21
    ensures FinalistsFirst(s)
  {
    RankingSorts(s);
    var r := Ranking(s);
    hide Ranking, Finalist, Consensuses;
    forall k, l | 0 <= k < l < s.Count() && Finalist(s, r[l]) ensures Finalist(s, r[k]) {
      if !Finalist(s, r[k]) {
        FinalistBeatsOther(s, r[l], r[k]);
        assert false;
      }
    }
  }

  lemma FewAreAllFinalists(s: Scores)
    requires s.Valid() && s.Count() <= STAGE2
    ensures FinalistsFirst(s)
  {
    forall i | 0 <= i < s.Count() ensures Finalist(s, i) {
      assert All(s.Count())[i] == i;
      RankBelowSize(s.luma, s.luma, Everyone(s), i);
      ElementCount(All(s.Count()));
    }
  }

  /** All three scores agree with the positions. */
  function Agreeing(n: nat): Scores { Scores(All(n), All(n), All(n)) }

  lemma AgreeingRanks(n: nat, i: nat)
    requires i < n
    ensures LumaRank(Agreeing(n), i) == i
    ensures i < STAGE2 ==> Consensus(Agreeing(n), i) == 3 * i
    ensures i >= STAGE2 ==> Consensus(Agreeing(n), i) == i + n
  {
    var s := Agreeing(n);
    RankIsPosition(s.luma, s.luma, All(n), i);
    if i < STAGE2 {
      var count := if n > STAGE2 then STAGE2 else n;
      FirstAreFinalists(s, All(n), count);
      RankIsPosition(s.rgb, s.rgb, All(n)[..count], i);
    }
  }

  /** With 13 to 20 candidates the twelfth best by all three scores can fall
      behind the thirteenth. */
  lemma SomeOvertakeFinalists(n: nat)
    requires 13 <= n <= 20
    ensures Agreeing(n).Valid() && !FinalistsFirst(Agreeing(n))
  {
    var s := Agreeing(n);
    AgreeingRanks(n, 11);
    AgreeingRanks(n, 12);
    assert Finalist(s, 11) && !Finalist(s, 12);
    assert Before(Consensuses(s), s.luma, 12, 11);
    assert All(n)[11] == 11 && All(n)[12] == 12;
    assert 11 in Everyone(s) && 12 in Everyone(s);
    RankingSorts(s);
    hide Ranking, Rank, Consensuses, Finalist, All, Everyone, Before;
    var k, l := PositionsFollow(Consensuses(s), s.luma, Ranking(s), 12, 11);
  }

  /** In a sorted list the earlier candidate stands at the earlier position. */
  lemma PositionsFollow(a: seq<int>, c: seq<int>, r: seq<nat>, i: nat, j: nat) returns (k: nat, l: nat)
    requires |a| == |c| && Within(r, |a|) && Ordered(a, c, r) && i in Elements(r) && j in Elements(r)
    requires i < |a| && j < |a| && Before(a, c, i, j)
    ensures k < l < |r| && r[k] == i && r[l] == j
  {
    k :| 0 <= k < |r| && r[k] == i;
    l :| 0 <= l < |r| && r[l] == j;
  }

  ghost predicate AlwaysFirst(n: nat) {
    forall s: Scores :: s.Valid() && s.Count() == n ==> FinalistsFirst(s)
  }

  /** The twelve best by luma always lead the ranking if and only if there are
      at most 12 or at least 21 candidates. */
  lemma FinalistsFirstExactly(n: nat)
    ensures AlwaysFirst(n) <==> n <= 12 || n >= 21
  {
    hide FinalistsFirst;
    if n <= 12 || n >= 21 {
      forall s: Scores | s.Valid() && s.Count() == n ensures FinalistsFirst(s) {
        if n <= 12 {
          FewAreAllFinalists(s);
        } else {
          ManyPutFinalistsFirst(s);
        }
      }
    } else {
      SomeOvertakeFinalists(n);
    }
  }

  /** Of two finalists, one that is better by all three scores stands in front. */
  lemma BetterIsInFront(s: Scores, i: nat, j: nat)
    requires s.Valid() && Finalist(s, i) && Finalist(s, j)
    requires Before(s.luma, s.luma, i, j) && Before(s.rgb, s.rgb, i, j) && Before(s.text, s.text, i, j)
    ensures Before(Consensuses(s), s.luma, i, j)
  {
    assert All(s.Count())[i] == i && All(s.Count())[j] == j;
    RankGrows(s.luma, s.luma, Everyone(s), i, j);
    RankGrows(s.rgb, s.rgb, Finalists(s), i, j);
    RankGrows(s.text, s.text, Finalists(s), i, j);
    hide Rank, Finalists;
  }
}
