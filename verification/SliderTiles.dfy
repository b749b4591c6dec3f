/** The slider captcha's grid (captcha_v2_slider.go): floor-division tiles, swap
    lists, and sampling a picture as if its tiles were rearranged. */
module SliderTiles {
  import opened Wrappers

  /** image.Rectangle: x1 and y1 are outside. */
  datatype Rect = Rect(x0: int, y0: int, x1: int, y1: int) {
    function Dx(): int { x1 - x0 }
    function Dy(): int { y1 - y0 }
    predicate Holds(x: int, y: int) { x0 <= x < x1 && y0 <= y < y1 }
  }

  /** Go's integer division. */
  function Quo(a: int, b: int): int
    requires b > 0
  {
    if a >= 0 then a / b else -((-a) / b)
  }

  // ----- One axis -----

  /** Where the k-th of g tiles starts on an axis of n pixels. */
  function Cut(n: nat, g: nat, k: nat): nat
    requires g > 0
  {
    k * n / g
  }

  /** The tile of pixel x. */
  function TileOn(n: nat, g: nat, x: nat): nat
    requires g > 0 && x < n
  {
    ((x + 1) * g - 1) / n
  }

  lemma FloorAtMost(a: nat, g: nat, x: int)
    requires g > 0 && x >= -1
    ensures a / g <= x <==> a < (x + 1) * g
  {
    var q := a / g;
    assert a == g * q + a % g;
    if q <= x {
      assert g * (q + 1) <= g * (x + 1);
    } else {
      assert g * (x + 1) <= g * q;
    }
  }

  lemma AtMostFloor(k: nat, n: nat, b: nat)
    requires n > 0
    ensures k * n <= b <==> k <= b / n
  {
    FloorAtMost(b, n, k - 1);
    assert (k - 1 + 1) * n == k * n;
  }

  lemma CutAtMost(n: nat, g: nat, x: nat, k: nat)
    requires g > 0 && x < n
    ensures Cut(n, g, k) <= x <==> k <= TileOn(n, g, x)
  {
    FloorAtMost(k * n, g, x);
    AtMostFloor(k, n, (x + 1) * g - 1);
  }

  /** The cuts tile the axis: pixel x lies between cuts k and k + 1 for exactly
      one k. */
  lemma AxisPartition(n: nat, g: nat, x: nat, k: nat)
    requires g > 0 && x < n
    ensures Cut(n, g, k) <= x < Cut(n, g, k + 1) <==> k == TileOn(n, g, x)
    ensures TileOn(n, g, x) < g
  {
    CutAtMost(n, g, x, k);
    CutAtMost(n, g, x, k + 1);
    CutAtMost(n, g, x, g);
    CutEnds(n, g);
    hide *;
  }

  /** In numbers: pixel x belongs to tile k of g on an axis of n pixels if and only
      if k * n < (x + 1) * g <= (k + 1) * n. */
  lemma TileOfPixel(n: nat, g: nat, x: nat, k: nat)
    requires g > 0 && x < n
    ensures Cut(n, g, k) <= x < Cut(n, g, k + 1) <==> k * n < (x + 1) * g <= (k + 1) * n
  {
    FloorAtMost(k * n, g, x);
    FloorAtMost((k + 1) * n, g, x);
  }

  lemma CutEnds(n: nat, g: nat)
    requires g > 0
    ensures Cut(n, g, 0) == 0 && Cut(n, g, g) == n
  {
    assert 0 * n == 0;
    FloorAtMost(g * n, g, n);
    FloorAtMost(g * n, g, n - 1);
  }

  lemma CutGrows(n: nat, g: nat, k: nat)
    requires g > 0
    ensures Cut(n, g, k) <= Cut(n, g, k + 1)
    ensures n >= g ==> Cut(n, g, k) < Cut(n, g, k + 1)
  {
    var c := Cut(n, g, k);
    FloorAtMost(k * n, g, c);
    FloorAtMost(k * n, g, c - 1);
    assert k * n >= c * g;
    assert (k + 1) * n == k * n + n;
    FloorAtMost((k + 1) * n, g, c - 1);
    FloorAtMost((k + 1) * n, g, c);
  }

  lemma {:induction false} CutBelow(n: nat, g: nat, k: nat, m: nat)
    requires g > 0 && k <= m
    ensures Cut(n, g, k) <= Cut(n, g, m)
    decreases m - k
  {
    if k < m {
      CutGrows(n, g, k);
      CutBelow(n, g, k + 1, m);
    }
  }

  /** The coordinate read for offset off of a tile of dw pixels shown from a
      tile of sw pixels. */
  function Scaled(off: int, sw: int, dw: int): int {
    Quo(off * sw, if dw < 1 then 1 else dw)
  }

  lemma ScaledFits(off: nat, sw: nat, dw: nat)
    requires off < dw && sw > 0
    ensures 0 <= Scaled(off, sw, dw) < sw
  {
    TimesBelow(off, dw, sw);
    FloorAtMost(off * sw, dw, sw - 1);
  }

  /** The offset is scaled down to the next whole pixel. */
  lemma ScaledExactly(off: nat, sw: nat, dw: nat, x: nat)
    requires dw > 0
    ensures Scaled(off, sw, dw) == x <==> x * dw <= off * sw < (x + 1) * dw
  {
    FloorAtMost(off * sw, dw, x);
    FloorAtMost(off * sw, dw, x - 1);
  }

  lemma TimesBelow(a: nat, b: nat, c: nat)
    requires a < b && c > 0
    ensures 0 <= a * c < c * b
  {
  }

  lemma ScaledSame(off: nat, w: nat)
    requires off < w
    ensures Scaled(off, w, w) == off
  {
  }

  // ----- The grid -----

  predicate Grid(b: Rect, g: nat) { g > 0 && b.x0 <= b.x1 && b.y0 <= b.y1 }

  /** At least one pixel for every tile in both directions. */
  predicate Roomy(b: Rect, g: nat) { g > 0 && b.Dx() >= g && b.Dy() >= g }

  lemma IndexSplits(g: nat, i: nat)
    requires i < g * g
    ensures 0 <= i % g < g && 0 <= i / g < g && i == (i / g) * g + i % g
  {
  }

  lemma IndexJoins(g: nat, row: nat, col: nat)
    requires row < g && col < g
    ensures row * g + col < g * g
    ensures (row * g + col) / g == row && (row * g + col) % g == col
  {
    var i := row * g + col;
    RowBelow(g, row);
    FloorAtMost(i, g, row);
    FloorAtMost(i, g, row - 1);
    assert (row + 1) * g == row * g + g;
    assert i / g == row;
    DivMod(i, g);
  }

  lemma RowBelow(g: nat, row: nat)
    requires row < g
    ensures row * g + g <= g * g
  {
    assert (row + 1) * g <= g * g;
  }

  lemma DivMod(i: nat, g: nat)
    requires g > 0
    ensures i == g * (i / g) + i % g
  {
  }

  function TileRect(b: Rect, g: nat, i: nat): Rect
    requires Grid(b, g) && i < g * g
  {
    var col, row := i % g, i / g;
    Rect(b.x0 + Cut(b.Dx(), g, col), b.y0 + Cut(b.Dy(), g, row),
         b.x0 + Cut(b.Dx(), g, col + 1), b.y0 + Cut(b.Dy(), g, row + 1))
  }

  function TileAt(b: Rect, g: nat, x: int, y: int): int
    requires Grid(b, g) && b.Holds(x, y)
  {
    TileOn(b.Dy(), g, y - b.y0) * g + TileOn(b.Dx(), g, x - b.x0)
  }

  lemma TileAtIsTile(b: Rect, g: nat, x: int, y: int)
    requires Grid(b, g) && b.Holds(x, y)
    ensures 0 <= TileAt(b, g, x, y) < g * g
  {
    AxisPartition(b.Dx(), g, x - b.x0, 0);
    AxisPartition(b.Dy(), g, y - b.y0, 0);
    IndexJoins(g, TileOn(b.Dy(), g, y - b.y0), TileOn(b.Dx(), g, x - b.x0));
  }

  /** The tiles partition the image: every pixel lies in exactly one of them,
      whatever the sizes. */
  lemma TilesPartition(b: Rect, g: nat, x: int, y: int, i: nat)
    requires Grid(b, g) && b.Holds(x, y) && i < g * g
    ensures TileRect(b, g, i).Holds(x, y) <==> i == TileAt(b, g, x, y)
  {
    hide Cut, TileOn;
    var row, col := TileOn(b.Dy(), g, y - b.y0), TileOn(b.Dx(), g, x - b.x0);
    IndexSplits(g, i);
    AxisPartition(b.Dx(), g, x - b.x0, i % g);
    AxisPartition(b.Dy(), g, y - b.y0, i / g);
    IndexJoins(g, row, col);
    assert TileRect(b, g, i).Holds(x, y) <==> i % g == col && i / g == row;
  }

  /** No tile reaches outside, none is empty when there is room. */
  lemma TileIsInside(b: Rect, g: nat, i: nat)
    requires Grid(b, g) && i < g * g
    ensures var t := TileRect(b, g, i);
            b.x0 <= t.x0 <= t.x1 <= b.x1 && b.y0 <= t.y0 <= t.y1 <= b.y1
            && (Roomy(b, g) ==> t.x0 < t.x1 && t.y0 < t.y1)
  {
    IndexSplits(g, i);
    AxisInside(b.Dx(), g, i % g);
    AxisInside(b.Dy(), g, i / g);
    hide Cut;
  }

  lemma AxisInside(n: nat, g: nat, k: nat)
    requires k < g
    ensures 0 <= Cut(n, g, k) <= Cut(n, g, k + 1) <= n
    ensures n >= g ==> Cut(n, g, k) < Cut(n, g, k + 1)
  {
    CutEnds(n, g);
    CutBelow(n, g, k + 1, g);
    CutGrows(n, g, k);
  }

  // ----- Swap lists -----

  datatype SwapError = BadTileCount | OddLength | OutOfRange

  function Swapped(m: seq<int>, i: nat, j: nat): seq<int>
    requires i < |m| && j < |m|
  {
    m[i := m[j]][j := m[i]]
  }

  /** A flat swap list, two numbers at a time. */
  function Pairs(swaps: seq<int>): (r: seq<(int, int)>)
    ensures |r| == |swaps| / 2
    ensures forall k :: 0 <= k < |r| ==> r[k] == (swaps[2 * k], swaps[2 * k + 1])
  {
    seq(|swaps| / 2, k requires 0 <= k < |swaps| / 2 => (swaps[2 * k], swaps[2 * k + 1]))
  }

  predicate InRange(pairs: seq<(int, int)>, n: int) {
    forall k :: 0 <= k < |pairs| ==> 0 <= pairs[k].0 < n && 0 <= pairs[k].1 < n
  }

  /** A list is in range when each of its numbers is a tile. */
  lemma RangeExactly(swaps: seq<int>, n: int)
    requires |swaps| % 2 == 0
    ensures InRange(Pairs(swaps), n) <==> forall x :: x in swaps ==> 0 <= x < n
  {
    var pairs := Pairs(swaps);
    if InRange(pairs, n) {
      forall i | 0 <= i < |swaps| ensures 0 <= swaps[i] < n {
        assert pairs[i / 2] == (swaps[2 * (i / 2)], swaps[2 * (i / 2) + 1]);
      }
    }
    if forall x :: x in swaps ==> 0 <= x < n {
      forall k | 0 <= k < |pairs| ensures 0 <= pairs[k].0 < n && 0 <= pairs[k].1 < n {
        assert swaps[2 * k] in swaps && swaps[2 * k + 1] in swaps;
      }
    }
  }

  function Applied(m: seq<int>, pairs: seq<(int, int)>): (r: seq<int>)
    requires InRange(pairs, |m|)
    ensures |r| == |m|
  {
    if pairs == [] then m
    else
      var n := |pairs| - 1;
      Swapped(Applied(m, pairs[..n]), pairs[n].0, pairs[n].1)
  }

  lemma AppliedNext(m: seq<int>, pairs: seq<(int, int)>, k: nat)
    requires k < |pairs| && InRange(pairs[..k + 1], |m|)
    ensures InRange(pairs[..k], |m|) && InRange([pairs[k]], |m|)
    ensures Applied(m, pairs[..k + 1]) == Swapped(Applied(m, pairs[..k]), pairs[k].0, pairs[k].1)
  {
    assert pairs[..k + 1][..k] == pairs[..k] && pairs[..k + 1][k] == pairs[k];
  }

  function Identity(n: nat): seq<int> { seq(n, i => i) }

  predicate Permutation(m: seq<int>) {
    && (forall k :: 0 <= k < |m| ==> 0 <= m[k] < |m|)
    && (forall k, l :: 0 <= k < l < |m| ==> m[k] != m[l])
  }

  /** Every in-range swap list leaves a permutation of the tiles. */
  lemma {:induction false} AppliedPermutes(m: seq<int>, pairs: seq<(int, int)>)
    requires InRange(pairs, |m|) && Permutation(m)
    ensures Permutation(Applied(m, pairs))
  {
    if pairs != [] {
      AppliedPermutes(m, pairs[..|pairs| - 1]);
    }
  }

  /** Where the tile that ends up at place k was before the swaps. */
  function Source(pairs: seq<(int, int)>, k: int): int {
    if pairs == [] then k
    else
      var (a, b) := pairs[|pairs| - 1];
      Source(pairs[..|pairs| - 1], if k == a then b else if k == b then a else k)
  }

  /** A swap list moves each tile to where its swaps take it. */
  lemma {:induction false} AppliedMoves(m: seq<int>, pairs: seq<(int, int)>, k: nat)
    requires InRange(pairs, |m|) && k < |m|
    ensures 0 <= Source(pairs, k) < |m| && Applied(m, pairs)[k] == m[Source(pairs, k)]
  {
    if pairs != [] {
      var n := |pairs| - 1;
      var (a, b) := pairs[n];
      AppliedMoves(m, pairs[..n], if k == a then b else if k == b then a else k);
    }
  }

  function Reversed(pairs: seq<(int, int)>): (r: seq<(int, int)>)
    ensures |r| == |pairs|
  {
    seq(|pairs|, k requires 0 <= k < |pairs| => pairs[|pairs| - 1 - k])
  }

  lemma {:induction false} AppliedFirst(m: seq<int>, pairs: seq<(int, int)>)
    requires pairs != [] && InRange(pairs, |m|)
    ensures Applied(m, pairs) == Applied(Swapped(m, pairs[0].0, pairs[0].1), pairs[1..])
  {
    var n := |pairs| - 1;
    if n > 0 {
      AppliedFirst(m, pairs[..n]);
      assert pairs[..n][1..] == pairs[1..][..n - 1];
    } else {
      assert pairs[..0] == [];
    }
  }

  /** Reading a swap list backwards undoes it. */
  lemma {:induction false} BackwardsUndoes(m: seq<int>, pairs: seq<(int, int)>)
    requires InRange(pairs, |m|)
    ensures InRange(Reversed(pairs), |m|) && Applied(Applied(m, pairs), Reversed(pairs)) == m
  {
    if pairs != [] {
      var n := |pairs| - 1;
      var before, back := Applied(m, pairs[..n]), Reversed(pairs);
      assert Applied(m, pairs) == Swapped(before, pairs[n].0, pairs[n].1);
      hide Applied;
      BackwardsUndoes(m, pairs[..n]);
      assert back[1..] == Reversed(pairs[..n]);
      assert back[0] == pairs[n];
      AppliedFirst(Swapped(before, pairs[n].0, pairs[n].1), back);
      SwappedTwice(before, pairs[n].0, pairs[n].1);
    }
  }

  lemma SwappedTwice(m: seq<int>, i: nat, j: nat)
    requires i < |m| && j < |m|
    ensures Swapped(Swapped(m, i, j), i, j) == m
  {
  }

  /** applySliderSwapsV2. */
  method ApplySliderSwaps(gridSize: int, swaps: seq<int>) returns (r: Result<array<int>, SwapError>)
    ensures gridSize == 0 ==> r == Err(BadTileCount)
    ensures gridSize != 0 && |swaps| % 2 != 0 ==> r == Err(OddLength)
    ensures gridSize != 0 && |swaps| % 2 == 0 && !InRange(Pairs(swaps), gridSize * gridSize) ==> r == Err(OutOfRange)
    ensures gridSize != 0 && |swaps| % 2 == 0 && InRange(Pairs(swaps), gridSize * gridSize) ==>
      r.Ok? && r.value[..] == Applied(Identity(gridSize * gridSize), Pairs(swaps))
  {
    var tileCount := gridSize * gridSize;
    SquareIsPositive(gridSize);
    if tileCount <= 0 {
      return Err(BadTileCount);
    }
    if |swaps| % 2 != 0 {
      return Err(OddLength);
    }
    hide Applied, Pairs;
    var mapping := new int[tileCount](i => i);
    ghost var pairs, k := Pairs(swaps), 0;
    assert mapping[..] == Identity(tileCount);
    assert pairs[..0] == [] && Applied(Identity(tileCount), []) == Identity(tileCount) by {
      NothingApplied(Identity(tileCount));
    }
    var i := 0;
    while i < |swaps|
      invariant i == 2 * k <= |swaps|
      invariant InRange(pairs[..k], tileCount)
      invariant mapping[..] == Applied(Identity(tileCount), pairs[..k])
    {
      var left, right := swaps[i], swaps[i + 1];
      assert pairs[k] == (left, right);
      if left < 0 || right < 0 || left >= tileCount || right >= tileCount {
        return Err(OutOfRange);
      }
      AppliedNext(Identity(tileCount), pairs, k);
      mapping[left], mapping[right] := mapping[right], mapping[left];
      i := i + 2;
      k := k + 1;
    }
    assert pairs[..k] == pairs;
    return Ok(mapping);
  }

  lemma NothingApplied(m: seq<int>)
    ensures Applied(m, []) == m
  {
  }

  lemma SquareIsPositive(n: int)
    ensures n * n > 0 <==> n != 0
  {
  }

  /** activeSwapsForIndexV2. */
  function ActiveSwaps(swaps: seq<int>, index: int): seq<int> {
    if index <= 0 then []
    else swaps[..if index * 2 > |swaps| then |swaps| else index * 2]
  }

  lemma ActivePairs(swaps: seq<int>, k: nat)
    requires k <= |swaps| / 2
    ensures Pairs(ActiveSwaps(swaps, k)) == Pairs(swaps)[..k]
  {
  }

  /** Candidate k + 1 is candidate k with one more swap: the candidates are the
      positions the slider passes through. */
  lemma CandidatesFollowTheSlider(swaps: seq<int>, k: nat, m: seq<int>)
    requires k < |swaps| / 2 && InRange(Pairs(swaps), |m|)
    ensures var now, next, step := Pairs(ActiveSwaps(swaps, k)), Pairs(ActiveSwaps(swaps, k + 1)), Pairs(swaps)[k];
            InRange(now, |m|) && InRange(next, |m|) && InRange([step], |m|)
            && Applied(m, next) == Swapped(Applied(m, now), step.0, step.1)
  {
    hide Pairs, Applied, ActiveSwaps;
    ActivePairs(swaps, k);
    ActivePairs(swaps, k + 1);
    AppliedNext(m, Pairs(swaps), k);
    assert InRange([Pairs(swaps)[k]], |m|);
    assert [Pairs(swaps)[k]][0] == Pairs(swaps)[k];
  }
}
