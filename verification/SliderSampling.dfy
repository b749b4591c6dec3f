/** Reading a picture as if its tiles were rearranged (captcha_v2_slider.go):
    where the sampled pixels lie, when sampling is a bijection, and what the seam
    score measures. */
module SliderSampling {
  import opened Sets
  import opened SliderTiles

  type Picture = (int, int) -> int

  /** A picture's bounds, the grid size and which tile each place shows. */
  datatype View = View(b: Rect, g: nat, m: seq<int>) {
    predicate Valid() {
      Grid(b, g) && |m| == g * g && Permutation(m)
    }
  }

  /** sampleColorMappedV2: the point of the source tile read for a point of the
      destination tile. */
  function Sample(dst: Rect, src: Rect, x: int, y: int): (int, int) {
    (src.x0 + Scaled(x - dst.x0, src.Dx(), dst.Dx()),
     src.y0 + Scaled(y - dst.y0, src.Dy(), dst.Dy()))
  }

  /** The point read for point (x, y) of place i. */
  function Point(v: View, i: nat, x: int, y: int): (int, int)
    requires v.Valid() && i < v.g * v.g
  {
    Sample(TileRect(v.b, v.g, i), TileRect(v.b, v.g, v.m[i]), x, y)
  }

  /** A destination pixel is read from inside the tile shown in its place. */
  lemma PointFits(v: View, i: nat, x: int, y: int)
    requires v.Valid() && i < v.g * v.g && Roomy(v.b, v.g)
    requires TileRect(v.b, v.g, i).Holds(x, y)
    ensures var p := Point(v, i, x, y);
            TileRect(v.b, v.g, v.m[i]).Holds(p.0, p.1) && v.b.Holds(p.0, p.1)
  {
    TileIsInside(v.b, v.g, i);
    TileIsInside(v.b, v.g, v.m[i]);
    hide TileRect, Scaled;
    var dst, src := TileRect(v.b, v.g, i), TileRect(v.b, v.g, v.m[i]);
    ScaledFits(x - dst.x0, src.Dx(), dst.Dx());
    ScaledFits(y - dst.y0, src.Dy(), dst.Dy());
  }

  lemma SampleOfItself(t: Rect, x: int, y: int)
    requires t.Holds(x, y)
    ensures Sample(t, t, x, y) == (x, y)
  {
    ScaledSame(x - t.x0, t.Dx());
    ScaledSame(y - t.y0, t.Dy());
  }

  // ----- When sampling is a bijection -----

  /** The point read for a pixel of the image. */
  function Shown(v: View, x: int, y: int): (int, int)
    requires v.Valid() && v.b.Holds(x, y)
  {
    TileAtIsTile(v.b, v.g, x, y);
    Point(v, TileAt(v.b, v.g, x, y), x, y)
  }

  predicate Collide(v: View, x: int, y: int, u: int, w: int)
    requires v.Valid()
  {
    v.b.Holds(x, y) && v.b.Holds(u, w) && (x, y) != (u, w) && Shown(v, x, y) == Shown(v, u, w)
  }

  ghost predicate Injective(v: View)
    requires v.Valid()
  {
    forall x, y, u, w :: !Collide(v, x, y, u, w)
  }

  predicate ReadAt(v: View, p: (int, int), x: int, y: int)
    requires v.Valid()
  {
    v.b.Holds(x, y) && Shown(v, x, y) == p
  }

  ghost predicate Onto(v: View)
    requires v.Valid()
  {
    forall u, w :: v.b.Holds(u, w) ==> exists x, y :: ReadAt(v, (u, w), x, y)
  }

  predicate Even(b: Rect, g: nat)
    requires g > 0
  {
    b.Dx() % g == 0 && b.Dy() % g == 0
  }

  lemma EvenCut(n: nat, g: nat, k: nat)
    requires g > 0 && n % g == 0
    ensures Cut(n, g, k) == k * (n / g)
    ensures Cut(n, g, k + 1) - Cut(n, g, k) == n / g
  {
    var w := n / g;
    assert n == g * w;
    EvenCutAt(g, w, k);
    EvenCutAt(g, w, k + 1);
    assert (k + 1) * w == k * w + w;
  }

  lemma EvenCutAt(g: nat, w: nat, k: nat)
    requires g > 0
    ensures Cut(g * w, g, k) == k * w
  {
    assert k * (g * w) == (k * w) * g;
    FloorAtMost(k * (g * w), g, k * w);
    FloorAtMost(k * (g * w), g, k * w - 1);
    assert (k * w + 1) * g == (k * w) * g + g;
  }

  lemma EvenTile(b: Rect, g: nat, i: nat)
    requires Grid(b, g) && i < g * g && Even(b, g)
    ensures TileRect(b, g, i).Dx() == b.Dx() / g && TileRect(b, g, i).Dy() == b.Dy() / g
  {
    IndexSplits(g, i);
    EvenCut(b.Dx(), g, i % g);
    EvenCut(b.Dy(), g, i / g);
  }

  /** With equal tiles, sampling moves a pixel by its tile's displacement. */
  lemma EvenPoint(v: View, i: nat, x: int, y: int)
    requires v.Valid() && i < v.g * v.g && Even(v.b, v.g)
    requires TileRect(v.b, v.g, i).Holds(x, y)
    ensures var dst, src := TileRect(v.b, v.g, i), TileRect(v.b, v.g, v.m[i]);
            Point(v, i, x, y) == (x - dst.x0 + src.x0, y - dst.y0 + src.y0)
            && src.Holds(Point(v, i, x, y).0, Point(v, i, x, y).1)
  {
    EvenTile(v.b, v.g, i);
    EvenTile(v.b, v.g, v.m[i]);
    hide TileRect, Scaled;
    var dst := TileRect(v.b, v.g, i);
    ScaledSame(x - dst.x0, dst.Dx());
    ScaledSame(y - dst.y0, dst.Dy());
  }

  lemma EvenIsInjective(v: View, x: int, y: int, u: int, w: int)
    requires v.Valid() && Even(v.b, v.g)
    ensures !Collide(v, x, y, u, w)
  {
    if v.b.Holds(x, y) && v.b.Holds(u, w) && Shown(v, x, y) == Shown(v, u, w) {
      var i, j, p := TileAt(v.b, v.g, x, y), TileAt(v.b, v.g, u, w), Shown(v, x, y);
      TileAtIsTile(v.b, v.g, x, y);
      TileAtIsTile(v.b, v.g, u, w);
      TilesPartition(v.b, v.g, x, y, i);
      TilesPartition(v.b, v.g, u, w, j);
      EvenPoint(v, i, x, y);
      EvenPoint(v, j, u, w);
      TileIsInside(v.b, v.g, v.m[i]);
      TilesPartition(v.b, v.g, p.0, p.1, v.m[i]);
      TilesPartition(v.b, v.g, p.0, p.1, v.m[j]);
      hide TileRect, TileAt, Point;
      assert v.m[i] == v.m[j];
      assert i == j;
    }
  }

  lemma {:induction false} PermutationHits(m: seq<int>, j: nat)
    requires Permutation(m) && j < |m|
    ensures exists i :: 0 <= i < |m| && m[i] == j
  {
    ImageSize(m, |m|);
    ImageSize(Identity(|m|), |m|);
    forall x | x in Values(m) ensures x in Values(Identity(|m|)) {
      assert Identity(|m|)[x] == x;
    }
    EqualBySize(Values(m), Values(Identity(|m|)));
    assert Identity(|m|)[j] == j;
    assert j in Values(m);
  }

  function Values(m: seq<int>): set<int> { set i | 0 <= i < |m| :: m[i] }

  lemma {:induction false} ImageSize(m: seq<int>, n: nat)
    requires Permutation(m) && n <= |m|
    ensures |Values(m[..n])| == n && m[..|m|] == m
  {
    if n > 0 {
      ImageSize(m, n - 1);
      var fewer := m[..n - 1];
      assert m[n - 1] !in Values(fewer);
      assert m[..n] == fewer + [m[n - 1]];
      hide Permutation;
      ValuesOfAppend(fewer, m[n - 1]);
    }
  }

  lemma ValuesOfAppend(m: seq<int>, x: int)
    ensures Values(m + [x]) == Values(m) + {x}
  {
    assert (m + [x])[|m|] == x;
    assert forall i :: 0 <= i < |m| ==> (m + [x])[i] == m[i];
  }

  lemma EvenIsOnto(v: View, u: int, w: int)
    requires v.Valid() && Even(v.b, v.g) && v.b.Holds(u, w)
    ensures exists x, y :: ReadAt(v, (u, w), x, y)
  {
    var j := TileAt(v.b, v.g, u, w);
    TileAtIsTile(v.b, v.g, u, w);
    TilesPartition(v.b, v.g, u, w, j);
    PermutationHits(v.m, j);
    var i :| 0 <= i < |v.m| && v.m[i] == j;
    var dst, src := TileRect(v.b, v.g, i), TileRect(v.b, v.g, j);
    EvenTile(v.b, v.g, i);
    EvenTile(v.b, v.g, j);
    TileIsInside(v.b, v.g, i);
    var x, y := u - src.x0 + dst.x0, w - src.y0 + dst.y0;
    EvenPoint(v, i, x, y);
    TilesPartition(v.b, v.g, x, y, i);
    hide TileRect, TileAt, Point;
    assert ReadAt(v, (u, w), x, y);
  }

  /** Some tile is wider than the first one when the tiles do not come out even. */
  lemma {:induction false} WiderTile(n: nat, g: nat, k: nat) returns (c: nat)
    requires g > 0 && k <= g && Cut(n, g, k) > k * (n / g)
    ensures 0 < c < g && Cut(n, g, c + 1) - Cut(n, g, c) > n / g
  {
    var w := n / g;
    assert 0 * w == 0 && 1 * w == w && 1 * n == n;
    CutEnds(n, g);
    assert k >= 2;
    assert k * w == (k - 1) * w + w;
    if Cut(n, g, k - 1) > (k - 1) * w {
      c := WiderTile(n, g, k - 1);
    } else {
      c := k - 1;
    }
  }

  lemma UnevenAxis(n: nat, g: nat) returns (c: nat)
    requires g > 0 && n >= g && n % g != 0
    ensures var first, wide := Cut(n, g, 1) - Cut(n, g, 0), Cut(n, g, c + 1) - Cut(n, g, c);
            0 < c < g && wide >= 2 && Scaled(0, first, wide) == Scaled(1, first, wide) == 0
  {
    CutEnds(n, g);
    assert n == g * (n / g) + n % g;
    c := WiderTile(n, g, g);
    var first, wide := Cut(n, g, 1) - Cut(n, g, 0), Cut(n, g, c + 1) - Cut(n, g, c);
    assert first == n / g by {
      assert 1 * n == n;
    }
    CutGrows(n, g, 0);
    FloorAtMost(first, wide, 0);
    assert 0 * first == 0 && 1 * first == first;
  }

  lemma SwapIsPermutation(n: nat, i: nat, j: nat)
    requires i < n && j < n
    ensures Permutation(Swapped(Identity(n), i, j))
  {
  }

  /** Two neighbouring pixels of place k read the same point of tile 0. */
  lemma CollideAt(b: Rect, g: nat, k: nat, dx: nat, dy: nat)
    requires Roomy(b, g) && 0 < k < g * g && dx + dy == 1
    requires var dst, src := TileRect(b, g, k), TileRect(b, g, 0);
             dst.Dx() > dx && dst.Dy() > dy
             && Scaled(dx, src.Dx(), dst.Dx()) == Scaled(0, src.Dx(), dst.Dx())
             && Scaled(dy, src.Dy(), dst.Dy()) == Scaled(0, src.Dy(), dst.Dy())
    ensures exists m :: View(b, g, m).Valid() && !Injective(View(b, g, m))
  {
    var m := Swapped(Identity(g * g), 0, k);
    SwapIsPermutation(g * g, 0, k);
    var v, dst := View(b, g, m), TileRect(b, g, k);
    TileIsInside(b, g, k);
    TilesPartition(b, g, dst.x0, dst.y0, k);
    TilesPartition(b, g, dst.x0 + dx, dst.y0 + dy, k);
    hide TileRect, TileAt, Scaled;
    assert Shown(v, dst.x0, dst.y0) == Point(v, k, dst.x0, dst.y0);
    assert Shown(v, dst.x0 + dx, dst.y0 + dy) == Point(v, k, dst.x0 + dx, dst.y0 + dy);
    assert Collide(v, dst.x0, dst.y0, dst.x0 + dx, dst.y0 + dy);
  }

  lemma UnevenWidth(b: Rect, g: nat)
    requires Roomy(b, g) && b.Dx() % g != 0
    ensures exists m :: View(b, g, m).Valid() && !Injective(View(b, g, m))
  {
    hide Injective, Cut, Scaled;
    var c := UnevenAxis(b.Dx(), g);
    IndexJoins(g, 0, 0);
    IndexJoins(g, 0, c);
    CutGrows(b.Dy(), g, 0);
    CollideAt(b, g, c, 1, 0);
  }

  lemma UnevenHeight(b: Rect, g: nat)
    requires Roomy(b, g) && b.Dy() % g != 0
    ensures exists m :: View(b, g, m).Valid() && !Injective(View(b, g, m))
  {
    hide Injective, Cut, Scaled;
    var c := UnevenAxis(b.Dy(), g);
    IndexJoins(g, 0, 0);
    IndexJoins(g, c, 0);
    CutGrows(b.Dx(), g, 0);
    CollideAt(b, g, c * g + 0, 0, 1);
  }

  ghost predicate AllBijective(b: Rect, g: nat) {
    forall m :: View(b, g, m).Valid() ==> Injective(View(b, g, m)) && Onto(View(b, g, m))
  }

  /** Sampling is a bijection on the image's pixels for every arrangement of the
      tiles if and only if the grid divides both sides. */
  lemma BijectiveExactly(b: Rect, g: nat)
    requires Roomy(b, g)
    ensures AllBijective(b, g) <==> Even(b, g)
  {
    if Even(b, g) {
      forall m | View(b, g, m).Valid() ensures Injective(View(b, g, m)) && Onto(View(b, g, m)) {
        EvenBijection(View(b, g, m));
      }
    } else if b.Dx() % g != 0 {
      UnevenWidth(b, g);
    } else {
      UnevenHeight(b, g);
    }
  }

  lemma EvenBijection(v: View)
    requires v.Valid() && Even(v.b, v.g)
    ensures Injective(v) && Onto(v)
  {
    hide Collide, ReadAt;
    forall x, y, u, w ensures !Collide(v, x, y, u, w) {
      EvenIsInjective(v, x, y, u, w);
    }
    forall u, w | v.b.Holds(u, w) ensures exists x, y :: ReadAt(v, (u, w), x, y) {
      EvenIsOnto(v, u, w);
    }
  }

  // ----- The seam score -----

  /** The value a place shows at one of its points. */
  function At(pic: Picture, v: View, i: nat, x: int, y: int): int
    requires v.Valid() && i < v.g * v.g
  {
    var p := Point(v, i, x, y);
    pic(p.0, p.1)
  }

  function Abs(n: int): nat { if n < 0 then -n else n }

  /** The seam between place (row, col) and the place to its right or, if down,
      below it. */
  datatype Seam = Seam(down: bool, row: nat, col: nat)

  predicate OnGrid(g: nat, s: Seam) {
    if s.down then s.row + 1 < g && s.col < g else s.row < g && s.col + 1 < g
  }

  function First(g: nat, s: Seam): (i: nat)
    requires OnGrid(g, s)
    ensures i < g * g
  {
    IndexJoins(g, s.row, s.col);
    s.row * g + s.col
  }

  function Second(g: nat, s: Seam): (i: nat)
    requires OnGrid(g, s)
    ensures i < g * g
  {
    IndexJoins(g, s.row + if s.down then 1 else 0, s.col + if s.down then 0 else 1);
    if s.down then (s.row + 1) * g + s.col else s.row * g + s.col + 1
  }

  function Length(v: View, s: Seam): int
    requires v.Valid() && OnGrid(v.g, s)
  {
    var a, c := TileRect(v.b, v.g, First(v.g, s)), TileRect(v.b, v.g, Second(v.g, s));
    var n, k := if s.down then a.Dx() else a.Dy(), if s.down then c.Dx() else c.Dy();
    if k < n then k else n
  }

  /** The two destination pixels facing each other at position k of a seam. */
  function Facing(v: View, s: Seam, k: nat): ((int, int), (int, int))
    requires v.Valid() && OnGrid(v.g, s)
  {
    var a, c := TileRect(v.b, v.g, First(v.g, s)), TileRect(v.b, v.g, Second(v.g, s));
    if s.down then ((a.x0 + k, a.y1 - 1), (a.x0 + k, c.y0)) else ((a.x1 - 1, a.y0 + k), (c.x0, a.y0 + k))
  }

  function Gap(pic: Picture, v: View, s: Seam, k: nat): nat
    requires v.Valid() && OnGrid(v.g, s)
  {
    var f := Facing(v, s, k);
    Abs(At(pic, v, First(v.g, s), f.0.0, f.0.1) - At(pic, v, Second(v.g, s), f.1.0, f.1.1))
  }

  function SeamSum(pic: Picture, v: View, s: Seam, n: int): nat
    requires v.Valid() && OnGrid(v.g, s)
  {
    if n <= 0 then 0 else SeamSum(pic, v, s, n - 1) + Gap(pic, v, s, n - 1)
  }

  function RowSum(pic: Picture, v: View, down: bool, row: nat, n: nat): nat
    requires v.Valid() && (n > 0 ==> OnGrid(v.g, Seam(down, row, n - 1)))
  {
    if n == 0 then 0
    else
      var s := Seam(down, row, n - 1);
      RowSum(pic, v, down, row, n - 1) + SeamSum(pic, v, s, Length(v, s))
  }

  /** The seams of the first n rows. */
  function GridSum(pic: Picture, v: View, down: bool, n: nat): nat
    requires v.Valid() && n <= if down then v.g - 1 else v.g
  {
    if n == 0 then 0
    else GridSum(pic, v, down, n - 1) + RowSum(pic, v, down, n - 1, if down then v.g else v.g - 1)
  }

  function Score(pic: Picture, v: View): nat
    requires v.Valid()
  {
    GridSum(pic, v, false, v.g) + GridSum(pic, v, true, v.g - 1)
  }

  /** The inner loop of seamScoreLumaV2. */
  method AddSeam(pic: Picture, v: View, s: Seam) returns (score: int)
    requires v.Valid() && OnGrid(v.g, s)
    ensures score == SeamSum(pic, v, s, Length(v, s))
  {
    hide Gap;
    score := 0;
    var n := Length(v, s);
    var k := 0;
    while k < n
      invariant 0 <= k && (k <= n || k == 0)
      invariant score == SeamSum(pic, v, s, k)
    {
      score := score + Gap(pic, v, s, k);
      k := k + 1;
    }
  }

  /** seamScoreLumaV2. */
  method SeamScore(pic: Picture, v: View) returns (score: int)
    requires v.Valid()
    ensures score == Score(pic, v)
  {
    hide SeamSum, Length;
    score := 0;
    for row := 0 to v.g
      invariant score == GridSum(pic, v, false, row)
    {
      for col := 0 to v.g - 1
        invariant score == GridSum(pic, v, false, row) + RowSum(pic, v, false, row, col)
      {
        var seam := AddSeam(pic, v, Seam(false, row, col));
        score := score + seam;
      }
    }
    for row := 0 to v.g - 1
      invariant score == GridSum(pic, v, false, v.g) + GridSum(pic, v, true, row)
    {
      for col := 0 to v.g
        invariant score == GridSum(pic, v, false, v.g) + GridSum(pic, v, true, row) + RowSum(pic, v, true, row, col)
      {
        var seam := AddSeam(pic, v, Seam(true, row, col));
        score := score + seam;
      }
    }
  }

  /** The picture with its tiles really rearranged. */
  function Rearranged(pic: Picture, v: View): Picture
    requires v.Valid()
  {
    (x: int, y: int) =>
      if v.b.Holds(x, y) then var p := Shown(v, x, y); pic(p.0, p.1) else pic(x, y)
  }

  function Settled(v: View): View { v.(m := Identity(v.g * v.g)) }

  lemma SeamTiles(b: Rect, g: nat, s: Seam)
    requires Grid(b, g) && OnGrid(g, s)
    ensures var a, c := TileRect(b, g, First(g, s)), TileRect(b, g, Second(g, s));
            if s.down then a.x0 == c.x0 && a.x1 == c.x1 else a.y0 == c.y0 && a.y1 == c.y1
  {
    IndexJoins(g, s.row, s.col);
    IndexJoins(g, s.row + if s.down then 1 else 0, s.col + if s.down then 0 else 1);
    hide Cut;
  }

  /** The facing pixels lie in their tiles. */
  lemma FacingFits(v: View, s: Seam, k: nat)
    requires v.Valid() && Roomy(v.b, v.g) && OnGrid(v.g, s) && k < Length(v, s)
    ensures var f := Facing(v, s, k);
            TileRect(v.b, v.g, First(v.g, s)).Holds(f.0.0, f.0.1)
            && TileRect(v.b, v.g, Second(v.g, s)).Holds(f.1.0, f.1.1)
  {
    hide TileRect, First, Second, Permutation;
    SeamTiles(v.b, v.g, s);
    TileIsInside(v.b, v.g, First(v.g, s));
    TileIsInside(v.b, v.g, Second(v.g, s));
  }

  lemma SettledPoint(v: View, i: nat, x: int, y: int)
    requires v.Valid() && Settled(v).Valid() && i < v.g * v.g && TileRect(v.b, v.g, i).Holds(x, y)
    ensures Point(Settled(v), i, x, y) == (x, y)
  {
    SampleOfItself(TileRect(v.b, v.g, i), x, y);
    assert Settled(v).m[i] == i;
    hide TileRect, Sample, Permutation;
  }

  lemma RearrangedAt(pic: Picture, v: View, i: nat, x: int, y: int)
    requires v.Valid() && i < v.g * v.g && TileRect(v.b, v.g, i).Holds(x, y)
    ensures Rearranged(pic, v)(x, y) == At(pic, v, i, x, y)
  {
    TileIsInside(v.b, v.g, i);
    TilesPartition(v.b, v.g, x, y, i);
    hide TileRect, TileAt, Point, Permutation;
    assert Shown(v, x, y) == Point(v, i, x, y);
  }

  lemma SettledAt(pic: Picture, v: View, i: nat, x: int, y: int)
    requires v.Valid() && Settled(v).Valid() && i < v.g * v.g && TileRect(v.b, v.g, i).Holds(x, y)
    ensures At(Rearranged(pic, v), Settled(v), i, x, y) == At(pic, v, i, x, y)
  {
    assert Settled(v).g == v.g;
    hide TileRect, Point, Rearranged, Settled, Permutation;
    SettledPoint(v, i, x, y);
    RearrangedAt(pic, v, i, x, y);
    assert At(Rearranged(pic, v), Settled(v), i, x, y) == Rearranged(pic, v)(x, y);
  }

  lemma SettledGap(pic: Picture, v: View, s: Seam, k: nat)
    requires v.Valid() && Settled(v).Valid() && Roomy(v.b, v.g) && OnGrid(v.g, s) && k < Length(v, s)
    ensures Gap(Rearranged(pic, v), Settled(v), s, k) == Gap(pic, v, s, k)
  {
    FacingFits(v, s, k);
    var f := Facing(v, s, k);
    assert Facing(Settled(v), s, k) == f;
    SettledAt(pic, v, First(v.g, s), f.0.0, f.0.1);
    SettledAt(pic, v, Second(v.g, s), f.1.0, f.1.1);
    hide At, Facing, TileRect, Rearranged, Settled;
  }

  lemma {:induction false} SettledSeam(pic: Picture, v: View, s: Seam, n: int)
    requires v.Valid() && Settled(v).Valid() && Roomy(v.b, v.g) && OnGrid(v.g, s) && n <= Length(v, s)
    ensures SeamSum(Rearranged(pic, v), Settled(v), s, n) == SeamSum(pic, v, s, n)
  {
    hide Gap, Length, Rearranged;
    if n > 0 {
      SettledSeam(pic, v, s, n - 1);
      SettledGap(pic, v, s, n - 1);
    }
  }

  lemma {:induction false} SettledRow(pic: Picture, v: View, down: bool, row: nat, n: nat)
    requires v.Valid() && Settled(v).Valid() && Roomy(v.b, v.g) && (n > 0 ==> OnGrid(v.g, Seam(down, row, n - 1)))
    ensures RowSum(Rearranged(pic, v), Settled(v), down, row, n) == RowSum(pic, v, down, row, n)
  {
    hide SeamSum, Rearranged;
    if n > 0 {
      var s := Seam(down, row, n - 1);
      SettledRow(pic, v, down, row, n - 1);
      SettledSeam(pic, v, s, Length(v, s));
    }
  }

  lemma {:induction false} SettledGrid(pic: Picture, v: View, down: bool, n: nat)
    requires v.Valid() && Settled(v).Valid() && Roomy(v.b, v.g) && n <= if down then v.g - 1 else v.g
    ensures GridSum(Rearranged(pic, v), Settled(v), down, n) == GridSum(pic, v, down, n)
  {
    hide RowSum, Rearranged;
    if n > 0 {
      SettledGrid(pic, v, down, n - 1);
      SettledRow(pic, v, down, n - 1, if down then v.g else v.g - 1);
    }
  }

  /** The score of a candidate is the score of the picture really rearranged:
      sampling in place means what cutting up and reassembling would mean. */
  lemma ScoreIsOfRearranged(pic: Picture, v: View)
    requires v.Valid() && Roomy(v.b, v.g)
    ensures Settled(v).Valid() && Score(pic, v) == Score(Rearranged(pic, v), Settled(v))
  {
    hide *;
    SettledIsValid(v);
    SettledGrid(pic, v, false, v.g);
    SettledGrid(pic, v, true, v.g - 1);
    ScoreParts(pic, v);
    ScoreParts(Rearranged(pic, v), Settled(v));
  }

  lemma ScoreParts(pic: Picture, v: View)
    requires v.Valid()
    ensures v.g > 0 && Score(pic, v) == GridSum(pic, v, false, v.g) + GridSum(pic, v, true, v.g - 1)
  {
  }

  lemma SettledIsValid(v: View)
    requires v.Valid()
    ensures Settled(v).Valid() && Settled(v).g == v.g > 0
  {
  }

  // ----- What the score measures -----

  function Distance(a: int, b: int): nat { if a < b then b - a else a - b }

  /** How much a picture changes across the vertical line in front of column x,
      over n pixels from y down. */
  function Across(r: Picture, x: int, y: int, n: nat): nat {
    if n == 0 then 0 else Across(r, x, y, n - 1) + Distance(r(x - 1, y + n - 1), r(x, y + n - 1))
  }

  /** The same across the horizontal line above row y, from x to the right. */
  function Along(r: Picture, x: int, y: int, n: nat): nat {
    if n == 0 then 0 else Along(r, x, y, n - 1) + Distance(r(x + n - 1, y - 1), r(x + n - 1, y))
  }

  /** Across the first m vertical lines of the grid, over n pixels from the top. */
  function VerticalLines(r: Picture, b: Rect, g: nat, m: nat, n: nat): nat
    requires Grid(b, g)
  {
    if m == 0 then 0 else VerticalLines(r, b, g, m - 1, n) + Across(r, b.x0 + Cut(b.Dx(), g, m), b.y0, n)
  }

  /** Across the first m horizontal lines, from side to side. */
  function HorizontalLines(r: Picture, b: Rect, g: nat, m: nat): nat
    requires Grid(b, g)
  {
    if m == 0 then 0
    else HorizontalLines(r, b, g, m - 1) + Along(r, b.x0, b.y0 + Cut(b.Dy(), g, m), b.Dx())
  }

  /** Facing pixels are neighbours on the two sides of a grid line. */
  lemma FacingIs(v: View, s: Seam, k: nat)
    requires v.Valid() && OnGrid(v.g, s)
    ensures var b, g, f := v.b, v.g, Facing(v, s, k);
            if s.down then
              f.1 == (b.x0 + Cut(b.Dx(), g, s.col) + k, b.y0 + Cut(b.Dy(), g, s.row + 1)) && f.0 == (f.1.0, f.1.1 - 1)
            else
              f.1 == (b.x0 + Cut(b.Dx(), g, s.col + 1), b.y0 + Cut(b.Dy(), g, s.row) + k) && f.0 == (f.1.0 - 1, f.1.1)
  {
    IndexJoins(v.g, s.row, s.col);
    IndexJoins(v.g, s.row + if s.down then 1 else 0, s.col + if s.down then 0 else 1);
    hide Cut, Permutation;
  }

  lemma LengthIs(v: View, s: Seam)
    requires v.Valid() && OnGrid(v.g, s)
    ensures Length(v, s) == if s.down then Cut(v.b.Dx(), v.g, s.col + 1) - Cut(v.b.Dx(), v.g, s.col)
                            else Cut(v.b.Dy(), v.g, s.row + 1) - Cut(v.b.Dy(), v.g, s.row)
  {
    IndexJoins(v.g, s.row, s.col);
    IndexJoins(v.g, s.row + if s.down then 1 else 0, s.col + if s.down then 0 else 1);
    hide Cut, Permutation;
  }

  /** A gap is a step of the rearranged picture. */
  lemma GapIsStep(pic: Picture, v: View, s: Seam, k: nat)
    requires v.Valid() && Roomy(v.b, v.g) && OnGrid(v.g, s) && k < Length(v, s)
    ensures var r, f := Rearranged(pic, v), Facing(v, s, k);
            Gap(pic, v, s, k) == Distance(r(f.0.0, f.0.1), r(f.1.0, f.1.1))
  {
    FacingFits(v, s, k);
    var f := Facing(v, s, k);
    hide Facing, TileRect, Rearranged, At, Permutation;
    RearrangedAt(pic, v, First(v.g, s), f.0.0, f.0.1);
    RearrangedAt(pic, v, Second(v.g, s), f.1.0, f.1.1);
  }

  lemma {:induction false} SeamIsAcross(pic: Picture, v: View, s: Seam, n: nat)
    requires v.Valid() && Roomy(v.b, v.g) && OnGrid(v.g, s) && n <= Length(v, s) && !s.down
    ensures var r, x, top := Rearranged(pic, v), v.b.x0 + Cut(v.b.Dx(), v.g, s.col + 1), Cut(v.b.Dy(), v.g, s.row);
            Across(r, x, v.b.y0, top) + SeamSum(pic, v, s, n) == Across(r, x, v.b.y0, top + n)
  {
    hide Gap, Length, Rearranged, Facing, Cut, Distance;
    if n > 0 {
      SeamIsAcross(pic, v, s, n - 1);
      GapIsStep(pic, v, s, n - 1);
      FacingIs(v, s, n - 1);
    }
  }

  lemma {:induction false} SeamIsAlong(pic: Picture, v: View, s: Seam, n: nat)
    requires v.Valid() && Roomy(v.b, v.g) && OnGrid(v.g, s) && n <= Length(v, s) && s.down
    ensures var r, y, left := Rearranged(pic, v), v.b.y0 + Cut(v.b.Dy(), v.g, s.row + 1), Cut(v.b.Dx(), v.g, s.col);
            Along(r, v.b.x0, y, left) + SeamSum(pic, v, s, n) == Along(r, v.b.x0, y, left + n)
  {
    hide Gap, Length, Rearranged, Facing, Cut, Distance;
    if n > 0 {
      SeamIsAlong(pic, v, s, n - 1);
      GapIsStep(pic, v, s, n - 1);
      FacingIs(v, s, n - 1);
    }
  }

  lemma {:induction false} RowIsAcross(pic: Picture, v: View, row: nat, m: nat)
    requires v.Valid() && Roomy(v.b, v.g) && row < v.g && m < v.g
    ensures var r, b, g := Rearranged(pic, v), v.b, v.g;
            VerticalLines(r, b, g, m, Cut(b.Dy(), g, row)) + RowSum(pic, v, false, row, m)
            == VerticalLines(r, b, g, m, Cut(b.Dy(), g, row + 1))
  {
    hide SeamSum, Length, Rearranged, Cut, Across;
    if m > 0 {
      var s := Seam(false, row, m - 1);
      RowIsAcross(pic, v, row, m - 1);
      LengthIs(v, s);
      CutGrows(v.b.Dy(), v.g, row);
      SeamIsAcross(pic, v, s, Length(v, s));
    }
  }

  lemma {:induction false} RowIsAlong(pic: Picture, v: View, row: nat, m: nat)
    requires v.Valid() && Roomy(v.b, v.g) && row + 1 < v.g && m <= v.g
    ensures var r, b, g := Rearranged(pic, v), v.b, v.g;
            RowSum(pic, v, true, row, m) == Along(r, b.x0, b.y0 + Cut(b.Dy(), g, row + 1), Cut(b.Dx(), g, m))
  {
    hide SeamSum, Length, Rearranged, Cut;
    if m > 0 {
      var s := Seam(true, row, m - 1);
      RowIsAlong(pic, v, row, m - 1);
      LengthIs(v, s);
      CutGrows(v.b.Dx(), v.g, m - 1);
      SeamIsAlong(pic, v, s, Length(v, s));
    } else {
      CutEnds(v.b.Dx(), v.g);
    }
  }

  lemma {:induction false} NoLines(r: Picture, b: Rect, g: nat, m: nat)
    requires Grid(b, g)
    ensures VerticalLines(r, b, g, m, 0) == 0
  {
    if m > 0 {
      NoLines(r, b, g, m - 1);
    }
  }

  lemma {:induction false} RowsAreVertical(pic: Picture, v: View, n: nat)
    requires v.Valid() && Roomy(v.b, v.g) && n <= v.g
    ensures GridSum(pic, v, false, n) == VerticalLines(Rearranged(pic, v), v.b, v.g, v.g - 1, Cut(v.b.Dy(), v.g, n))
  {
    hide RowSum, Rearranged, Cut, VerticalLines;
    if n > 0 {
      RowsAreVertical(pic, v, n - 1);
      RowIsAcross(pic, v, n - 1, v.g - 1);
    } else {
      CutEnds(v.b.Dy(), v.g);
      NoLines(Rearranged(pic, v), v.b, v.g, v.g - 1);
    }
  }

  lemma {:induction false} RowsAreHorizontal(pic: Picture, v: View, n: nat)
    requires v.Valid() && Roomy(v.b, v.g) && n < v.g
    ensures GridSum(pic, v, true, n) == HorizontalLines(Rearranged(pic, v), v.b, v.g, n)
  {
    hide RowSum, Rearranged, Cut, Along;
    if n > 0 {
      RowsAreHorizontal(pic, v, n - 1);
      RowIsAlong(pic, v, n - 1, v.g);
      CutEnds(v.b.Dx(), v.g);
    }
  }

  /** The score measures how much the rearranged picture changes across the inner
      lines of the grid, each from end to end, pixel by pixel. */
  lemma ScoreExactly(pic: Picture, v: View)
    requires v.Valid() && Roomy(v.b, v.g)
    ensures var r, b, g := Rearranged(pic, v), v.b, v.g;
            Score(pic, v) == VerticalLines(r, b, g, g - 1, b.Dy()) + HorizontalLines(r, b, g, g - 1)
  {
    hide *;
    ScoreParts(pic, v);
    SettledIsValid(v);
    RowsAreVertical(pic, v, v.g);
    RowsAreHorizontal(pic, v, v.g - 1);
    CutEndsHere(v);
  }

  lemma CutEndsHere(v: View)
    requires v.Valid()
    ensures Cut(v.b.Dy(), v.g, v.g) == v.b.Dy()
  {
    CutEnds(v.b.Dy(), v.g);
  }

  // ----- Which images are sampled inside their bounds -----

  predicate ReadsInside(v: View, s: Seam, k: nat)
    requires v.Valid() && OnGrid(v.g, s)
  {
    var f := Facing(v, s, k);
    var p, q := Point(v, First(v.g, s), f.0.0, f.0.1), Point(v, Second(v.g, s), f.1.0, f.1.1);
    v.b.Holds(p.0, p.1) && v.b.Holds(q.0, q.1)
  }

  /** The seam score reads no point outside the image, whatever the arrangement. */
  ghost predicate AllInside(b: Rect, g: nat) {
    forall m, s, k: nat :: View(b, g, m).Valid() && OnGrid(g, s) && k < Length(View(b, g, m), s) ==>
      ReadsInside(View(b, g, m), s, k)
  }

  lemma RoomyReadsInside(v: View, s: Seam, k: nat)
    requires v.Valid() && Roomy(v.b, v.g) && OnGrid(v.g, s) && k < Length(v, s)
    ensures ReadsInside(v, s, k)
  {
    FacingFits(v, s, k);
    hide Facing, TileRect, Point;
    var f := Facing(v, s, k);
    PointFits(v, First(v.g, s), f.0.0, f.0.1);
    PointFits(v, Second(v.g, s), f.1.0, f.1.1);
  }

  lemma EmptyHasNoSeam(v: View, s: Seam)
    requires v.Valid() && v.b.Dx() == 0 && v.b.Dy() == 0 && OnGrid(v.g, s)
    ensures Length(v, s) == 0
  {
  }

  /** The first place of an axis shorter than the grid has no pixels, and some
      place shows pixel 0. */
  lemma ShortAxis(n: nat, g: nat) returns (c: nat)
    requires 0 < n < g
    ensures c < g && Cut(n, g, 0) == Cut(n, g, 1) == Cut(n, g, c) == 0 < Cut(n, g, c + 1)
    ensures Scaled(-1, Cut(n, g, c + 1), 0) < 0
  {
    c := TileOn(n, g, 0);
    AxisPartition(n, g, 0, c);
    CutEnds(n, g);
    assert 1 * n == n;
    FloorAtMost(n, g, 0);
  }

  lemma NarrowReadsOutside(b: Rect, g: nat) returns (m: seq<int>, s: Seam)
    requires Grid(b, g) && g >= 2 && 0 < b.Dx() < g && b.Dy() > 0
    ensures View(b, g, m).Valid() && OnGrid(g, s) && Length(View(b, g, m), s) > 0
    ensures !ReadsInside(View(b, g, m), s, 0)
  {
    var row := TileOn(b.Dy(), g, 0);
    AxisPartition(b.Dy(), g, 0, row);
    var c := ShortAxis(b.Dx(), g);
    IndexJoins(g, row, 0);
    IndexJoins(g, row, 1);
    IndexJoins(g, row, c);
    hide Cut, TileOn, Scaled, Permutation;
    m := Swapped(Identity(g * g), row * g + 0, row * g + c);
    SwapIsPermutation(g * g, row * g + 0, row * g + c);
    s := Seam(false, row, 0);
    var v := View(b, g, m);
    var dst, src := TileRect(b, g, row * g + 0), TileRect(b, g, row * g + c);
    assert First(g, s) == row * g + 0 && m[row * g + 0] == row * g + c;
    assert Facing(v, s, 0).0.0 == b.x0 - 1;
    assert Point(v, First(g, s), b.x0 - 1, dst.y0).0 == b.x0 + Scaled(-1, Cut(b.Dx(), g, c + 1), 0);
  }

  lemma FlatReadsOutside(b: Rect, g: nat) returns (m: seq<int>, s: Seam)
    requires Grid(b, g) && g >= 2 && 0 < b.Dy() < g && b.Dx() > 0
    ensures View(b, g, m).Valid() && OnGrid(g, s) && Length(View(b, g, m), s) > 0
    ensures !ReadsInside(View(b, g, m), s, 0)
  {
    var col := TileOn(b.Dx(), g, 0);
    AxisPartition(b.Dx(), g, 0, col);
    var c := ShortAxis(b.Dy(), g);
    IndexJoins(g, 0, col);
    IndexJoins(g, 1, col);
    IndexJoins(g, c, col);
    hide Cut, TileOn, Scaled, Permutation;
    m := Swapped(Identity(g * g), 0 * g + col, c * g + col);
    SwapIsPermutation(g * g, 0 * g + col, c * g + col);
    s := Seam(true, 0, col);
    var v := View(b, g, m);
    var dst, src := TileRect(b, g, 0 * g + col), TileRect(b, g, c * g + col);
    assert First(g, s) == 0 * g + col && m[0 * g + col] == c * g + col;
    assert Facing(v, s, 0).0.1 == b.y0 - 1;
    assert Point(v, First(g, s), dst.x0, b.y0 - 1).1 == b.y0 + Scaled(-1, Cut(b.Dy(), g, c + 1), 0);
  }

  lemma LineReadsOutside(b: Rect, g: nat) returns (m: seq<int>, s: Seam)
    requires Grid(b, g) && g >= 2 && (b.Dx() == 0 || b.Dy() == 0) && b.Dx() + b.Dy() > 0
    ensures View(b, g, m).Valid() && OnGrid(g, s) && Length(View(b, g, m), s) > 0
    ensures !ReadsInside(View(b, g, m), s, 0)
  {
    m := Identity(g * g);
    if b.Dx() == 0 {
      var row := TileOn(b.Dy(), g, 0);
      AxisPartition(b.Dy(), g, 0, row);
      IndexJoins(g, row, 0);
      IndexJoins(g, row, 1);
      s := Seam(false, row, 0);
    } else {
      var col := TileOn(b.Dx(), g, 0);
      AxisPartition(b.Dx(), g, 0, col);
      IndexJoins(g, 0, col);
      IndexJoins(g, 1, col);
      s := Seam(true, 0, col);
    }
    hide Cut, TileOn, Scaled, Point;
  }

  /** The score reads only points of the image if and only if the image has a
      pixel for every tile in both directions (or there is nothing to read). */
  lemma ReadsInsideExactly(b: Rect, g: nat)
    requires Grid(b, g)
    ensures AllInside(b, g) <==> g == 1 || Roomy(b, g) || (b.Dx() == 0 && b.Dy() == 0)
  {
    hide Length, ReadsInside, Permutation;
    if g == 1 || Roomy(b, g) || (b.Dx() == 0 && b.Dy() == 0) {
      forall m, s, k: nat | View(b, g, m).Valid() && OnGrid(g, s) && k < Length(View(b, g, m), s)
        ensures ReadsInside(View(b, g, m), s, k)
      {
        if Roomy(b, g) {
          RoomyReadsInside(View(b, g, m), s, k);
        } else {
          EmptyHasNoSeam(View(b, g, m), s);
        }
      }
    } else if b.Dx() == 0 || b.Dy() == 0 {
      var m, s := LineReadsOutside(b, g);
      assert !ReadsInside(View(b, g, m), s, 0);
    } else if b.Dx() < g {
      var m, s := NarrowReadsOutside(b, g);
      assert !ReadsInside(View(b, g, m), s, 0);
    } else {
      var m, s := FlatReadsOutside(b, g);
      assert !ReadsInside(View(b, g, m), s, 0);
    }
  }
}
