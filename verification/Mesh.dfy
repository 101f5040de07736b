/** The warp mesh (create_warpmatrix.c): a triangle list and a padded triangle strip over one grid denote
the same triangles in the same order. */
module Mesh {

  /** A grid point by row and column. */
  datatype Point = Point(row: nat, col: nat)

  /** One vertex record: screen position, texture position, and the two constants of tex2. */
  datatype Vertex = Vertex(x: real, y: real, s: real, t: real, u: real, v: real)

  /** vx and vy: screen coordinates at index 0, texture coordinates at index 1. */
  datatype Grid = Grid(vx: seq<seq<(real, real)>>, vy: seq<seq<(real, real)>>)

  predicate Covers(g: Grid, ngx: nat, ngy: nat) {
    && |g.vx| == |g.vy| == ngy
    && forall r :: 0 <= r < ngy ==> |g.vx[r]| == |g.vy[r]| == ngx
  }

  /** The record of a grid point; the two branches fill tex2.y with different constants. */
  function At(g: Grid, p: Point, v: real): Vertex
    requires p.row < |g.vx| && p.row < |g.vy| && p.col < |g.vx[p.row]| && p.col < |g.vy[p.row]|
  {
    var x, y := g.vx[p.row][p.col], g.vy[p.row][p.col];
    Vertex(x.0, y.0, x.1, y.1, 0.0, v)
  }

  /** A vertex carries the coordinates of a grid point: those at index 0 are where it is drawn, those at index 1
      where its picture comes from. */
  predicate Places(d: Vertex, g: Grid, p: Point)
    requires p.row < |g.vx| && p.row < |g.vy| && p.col < |g.vx[p.row]| && p.col < |g.vy[p.row]|
  {
    d.x == g.vx[p.row][p.col].0 && d.y == g.vy[p.row][p.col].0 && d.s == g.vx[p.row][p.col].1 && d.t == g.vy[p.row][p.col].1
  }

  // ---------- positions ----------

  /** Where row k starts when rows are n long. */
  function Start(n: nat, k: nat): nat {
    if k == 0 then 0 else Start(n, k - 1) + n
  }

  lemma {:induction false} StartIsProduct(n: nat, k: nat)
    ensures Start(n, k) == k * n
  {
    if k > 0 {
      StartIsProduct(n, k - 1);
      assert (k - 1) * n + n == k * n;
    }
  }

  lemma {:induction false} StartGrows(n: nat, k: nat, l: nat)
    requires k < l
    ensures Start(n, k) + n <= Start(n, l)
  {
    if k < l - 1 {
      StartGrows(n, k, l - 1);
    }
  }

  lemma QuotientsAgree(a: nat, q: nat, n: nat, r: nat, m: nat)
    requires Start(n, a) + r == Start(n, q) + m && r < n && m < n
    ensures a == q && r == m
  {
    if a < q {
      StartGrows(n, a, q);
    } else if q < a {
      StartGrows(n, q, a);
    }
  }

  lemma Euclid(k: nat, n: nat)
    requires n > 0
    ensures k == (k / n) * n + k % n
  {
  }

  /** Row and column of a position. */
  lemma RowAndColumn(n: nat, a: nat, r: nat, k: nat)
    requires r < n && k == Start(n, a) + r
    ensures k / n == a && k % n == r
  {
    Euclid(k, n);
    StartIsProduct(n, k / n);
    QuotientsAgree(a, k / n, n, r, k % n);
  }

  lemma Position(n: nat, k: nat)
    requires n > 0
    ensures k == Start(n, k / n) + k % n
  {
    Euclid(k, n);
    StartIsProduct(n, k / n);
  }

  /** Corner e of the two triangles of a rectangle. */
  function Corner(gy: nat, gx: nat, e: nat): Point {
    Point(if e == 2 || e == 4 || e == 5 then gy + 1 else gy, if e == 1 || e == 3 || e == 4 then gx + 1 else gx)
  }

  /** The grid point of vertex m of the list: six for each rectangle. */
  function ListPoint(ngx: nat, m: nat): Point
    requires ngx >= 2
  {
    Corner((m / 6) / (ngx - 1), (m / 6) % (ngx - 1), m % 6)
  }

  /** Position r of row gy of the strip: padding, then top and bottom in turns, then padding. */
  function RowPoint(ngx: nat, gy: nat, r: nat): Point
    requires ngx >= 1
  {
    if r == 0 then Point(gy, 0)
    else if r <= 2 * ngx then Point(gy + (r - 1) % 2, (r - 1) / 2)
    else Point(gy + 1, ngx - 1)
  }

  /** The grid point of vertex i of the strip. A row takes two positions more than its points, for the
      padding; the first row has none in front. */
  function StripPoint(ngx: nat, i: nat): Point
    requires ngx >= 1
  {
    RowPoint(ngx, (i + 1) / (2 * ngx + 2), (i + 1) % (2 * ngx + 2))
  }

  function ListSize(ngx: nat, ngy: nat): int { (ngy - 1) * (ngx - 1) * 6 }

  function StripSize(ngx: nat, ngy: nat): int { (ngx * (ngy - 1) * 2) + 2 * (ngy - 2) }

  lemma ListSizeByRows(ngx: nat, ngy: nat)
    requires ngx >= 2 && ngy >= 1
    ensures ListSize(ngx, ngy) == Start(ngx - 1, ngy - 1) * 6
  {
    StartIsProduct(ngx - 1, ngy - 1);
  }

  lemma StripSizeByRows(ngx: nat, ngy: nat)
    requires ngx >= 1 && ngy >= 2
    ensures StripSize(ngx, ngy) == Start(2 * ngx + 2, ngy - 1) - 2
  {
    StartIsProduct(2 * ngx + 2, ngy - 1);
    assert (ngy - 1) * (2 * ngx + 2) == ngx * (ngy - 1) * 2 + 2 * (ngy - 1);
  }

  lemma ListPointAt(ngx: nat, gy: nat, gx: nat, e: nat, m: nat)
    requires ngx >= 2 && gx < ngx - 1 && e < 6 && m == (Start(ngx - 1, gy) + gx) * 6 + e
    ensures ListPoint(ngx, m) == Corner(gy, gx, e)
  {
    RowAndColumn(ngx - 1, gy, gx, Start(ngx - 1, gy) + gx);
  }

  lemma StripPointAt(ngx: nat, gy: nat, r: nat, i: nat)
    requires ngx >= 1 && r < 2 * ngx + 2 && i + 1 == Start(2 * ngx + 2, gy) + r
    ensures StripPoint(ngx, i) == RowPoint(ngx, gy, r)
  {
    RowAndColumn(2 * ngx + 2, gy, r, i + 1);
  }

  // ---------- the two branches ----------

  predicate ListDone(g: Grid, ngx: nat, ngy: nat, data: array<Vertex>, n: nat)
    reads data
    requires ngx >= 2 && Covers(g, ngx, ngy)
  {
    && n <= data.Length
    && forall m :: 0 <= m < n ==>
         var p := ListPoint(ngx, m); p.row < ngy && p.col < ngx && data[m] == At(g, p, 1.0)
  }

  /** The next vertex of the list: corner e of a rectangle. */
  method PutCorner(g: Grid, ngx: nat, ngy: nat, warpData: array<Vertex>, i: nat, gy: nat, gx: nat, e: nat, p: Point)
    requires ngx >= 2 && gy < ngy - 1 && gx < ngx - 1 && Covers(g, ngx, ngy) && i == Start(ngx - 1, gy) + gx
    requires e < 6 && p == Corner(gy, gx, e) && i * 6 + e < warpData.Length && ListDone(g, ngx, ngy, warpData, i * 6 + e)
    modifies warpData
    ensures ListDone(g, ngx, ngy, warpData, i * 6 + e + 1)
  {
    ListPointAt(ngx, gy, gx, e, i * 6 + e);
    warpData[i * 6 + e] := At(g, p, 1.0);
  }

  /** The two triangles of a rectangle. */
  method PutRectangle(g: Grid, ngx: nat, ngy: nat, warpData: array<Vertex>, i: nat, gy: nat, gx: nat)
    requires ngx >= 2 && gy < ngy - 1 && gx < ngx - 1 && Covers(g, ngx, ngy) && i == Start(ngx - 1, gy) + gx
    requires i * 6 + 6 <= warpData.Length && ListDone(g, ngx, ngy, warpData, i * 6)
    modifies warpData
    ensures ListDone(g, ngx, ngy, warpData, i * 6 + 6)
  {
    PutCorner(g, ngx, ngy, warpData, i, gy, gx, 0, Point(gy, gx));
    PutCorner(g, ngx, ngy, warpData, i, gy, gx, 1, Point(gy, gx + 1));
    PutCorner(g, ngx, ngy, warpData, i, gy, gx, 2, Point(gy + 1, gx));
    PutCorner(g, ngx, ngy, warpData, i, gy, gx, 3, Point(gy, gx + 1));
    PutCorner(g, ngx, ngy, warpData, i, gy, gx, 4, Point(gy + 1, gx + 1));
    PutCorner(g, ngx, ngy, warpData, i, gy, gx, 5, Point(gy + 1, gx));
  }

  /** The triangle list fills its storage exactly. */
  method CreateList(g: Grid, ngx: nat, ngy: nat) returns (warpData: array<Vertex>)
    requires ngx >= 2 && ngy >= 2 && Covers(g, ngx, ngy)
    ensures fresh(warpData) && warpData.Length == ListSize(ngx, ngy)
    ensures ListDone(g, ngx, ngy, warpData, warpData.Length)
    ensures forall m :: 0 <= m < warpData.Length ==>
      var p := ListPoint(ngx, m); p.row < ngy && p.col < ngx && Places(warpData[m], g, p)
  {
    ListSizeByRows(ngx, ngy);
    var nr := (ngy - 1) * (ngx - 1);
    warpData := new Vertex[nr * 6](_ => Vertex(0.0, 0.0, 0.0, 0.0, 0.0, 0.0));
    ghost var w := ngx - 1;
    var i, gy := 0, 0;
    while gy < ngy - 1
      invariant gy <= ngy - 1 && i == Start(w, gy) && ListDone(g, ngx, ngy, warpData, i * 6)
    {
      StartGrows(w, gy, ngy - 1);
      var gx := 0;
      while gx < ngx - 1
        invariant gx <= ngx - 1 && i == Start(w, gy) + gx && ListDone(g, ngx, ngy, warpData, i * 6)
      {
        PutRectangle(g, ngx, ngy, warpData, i, gy, gx);
        i := i + 1;
        gx := gx + 1;
      }
      gy := gy + 1;
    }
  }

  predicate StripDone(g: Grid, ngx: nat, ngy: nat, data: array<Vertex>, i: nat)
    reads data
    requires ngx >= 1 && Covers(g, ngx, ngy)
  {
    && i <= data.Length
    && forall k :: 0 <= k < i ==>
         var p := StripPoint(ngx, k); p.row < ngy && p.col < ngx && data[k] == At(g, p, 0.0)
  }

  /** The next vertex of the strip, at position r of row gy. Only the last row has no padding behind. */
  method PutVertex(g: Grid, ngx: nat, ngy: nat, warpData: array<Vertex>, i: nat, gy: nat, r: nat, p: Point)
    requires ngx >= 1 && gy < ngy - 1 && r <= (if gy < ngy - 2 then 2 * ngx + 1 else 2 * ngx)
    requires Covers(g, ngx, ngy) && warpData.Length == Start(2 * ngx + 2, ngy - 1) - 2
    requires i + 1 == Start(2 * ngx + 2, gy) + r && StripDone(g, ngx, ngy, warpData, i) && p == RowPoint(ngx, gy, r)
    modifies warpData
    ensures StripDone(g, ngx, ngy, warpData, i + 1)
  {
    StripPointAt(ngx, gy, r, i);
    StartGrows(2 * ngx + 2, gy, ngy - 1);
    if gy < ngy - 2 { StartGrows(2 * ngx + 2, gy + 1, ngy - 1); }
    warpData[i] := At(g, p, 0.0);
  }

  lemma TopAndBottom(ngx: nat, gy: nat, gx: nat)
    requires gx < ngx
    ensures RowPoint(ngx, gy, 2 * gx + 1) == Point(gy, gx) && RowPoint(ngx, gy, 2 * gx + 2) == Point(gy + 1, gx)
  {
  }

  /** A row of the strip; rows but the first begin with padding. */
  method StripRow(g: Grid, ngx: nat, ngy: nat, warpData: array<Vertex>, gy: nat, start: nat) returns (i: nat)
    requires ngx >= 1 && gy < ngy - 1 && Covers(g, ngx, ngy) && warpData.Length == Start(2 * ngx + 2, ngy - 1) - 2
    requires StripDone(g, ngx, ngy, warpData, start) && start == if gy == 0 then 0 else Start(2 * ngx + 2, gy) - 1
    modifies warpData
    ensures StripDone(g, ngx, ngy, warpData, i)
    ensures i == if gy < ngy - 2 then Start(2 * ngx + 2, gy + 1) - 1 else warpData.Length
  {
    i := start;
    var gx := 0;
    while gx < ngx
      invariant gx <= ngx && StripDone(g, ngx, ngy, warpData, i)
      invariant i == if gx == 0 && gy > 0 then Start(2 * ngx + 2, gy) - 1 else Start(2 * ngx + 2, gy) + 2 * gx
    {
      if gx == 0 && gy > 0 {
        PutVertex(g, ngx, ngy, warpData, i, gy, 0, Point(gy, gx));
        i := i + 1;
      }
      TopAndBottom(ngx, gy, gx);
      PutVertex(g, ngx, ngy, warpData, i, gy, 2 * gx + 1, Point(gy, gx));
      i := i + 1;
      PutVertex(g, ngx, ngy, warpData, i, gy, 2 * gx + 2, Point(gy + 1, gx));
      i := i + 1;
      gx := gx + 1;
    }
    if gy < ngy - 2 {
      PutVertex(g, ngx, ngy, warpData, i, gy, 2 * ngx + 1, Point(gy + 1, ngx - 1));
      i := i + 1;
    }
  }

  /** The triangle strip fills its storage exactly. */
  method CreateStrip(g: Grid, ngx: nat, ngy: nat) returns (warpData: array<Vertex>)
    requires ngx >= 1 && ngy >= 2 && Covers(g, ngx, ngy)
    ensures fresh(warpData) && warpData.Length == StripSize(ngx, ngy)
    ensures StripDone(g, ngx, ngy, warpData, warpData.Length)
    ensures forall k :: 0 <= k < warpData.Length ==>
      var p := StripPoint(ngx, k); p.row < ngy && p.col < ngx && Places(warpData[k], g, p)
  {
    StripSizeByRows(ngx, ngy);
    StartGrows(2 * ngx + 2, 0, ngy - 1);
    var nv := (ngx * (ngy - 1) * 2) + 2 * (ngy - 2);
    warpData := new Vertex[nv](_ => Vertex(0.0, 0.0, 0.0, 0.0, 0.0, 0.0));
    var i, gy := 0, 0;
    while gy < ngy - 1
      invariant gy <= ngy - 1 && StripDone(g, ngx, ngy, warpData, i)
      invariant i == if gy == 0 then 0 else if gy < ngy - 1 then Start(2 * ngx + 2, gy) - 1 else nv
    {
      i := StripRow(g, ngx, ngy, warpData, gy, i);
      gy := gy + 1;
    }
  }

  // ---------- the same mesh ----------

  type Triangle = set<Point>

  predicate Degenerate(a: Point, b: Point, c: Point) { a == b || b == c || a == c }

  /** Triangle j of the list. */
  function ListTriangle(ngx: nat, j: nat): Triangle
    requires ngx >= 2
  {
    {ListPoint(ngx, 3 * j), ListPoint(ngx, 3 * j + 1), ListPoint(ngx, 3 * j + 2)}
  }

  function ListMesh(ngx: nat, n: nat): (r: seq<Triangle>)
    requires ngx >= 2
    ensures |r| == n && forall j :: 0 <= j < n ==> r[j] == ListTriangle(ngx, j)
  {
    seq(n, j requires j >= 0 => ListTriangle(ngx, j))
  }

  /** What a renderer draws of the first n triangles of the strip: each three consecutive vertices, unless
      they collapse. */
  function StripMesh(ngx: nat, n: nat): seq<Triangle>
    requires ngx >= 2
  {
    if n == 0 then []
    else
      var a, b, c := StripPoint(ngx, n - 1), StripPoint(ngx, n), StripPoint(ngx, n + 1);
      StripMesh(ngx, n - 1) + if Degenerate(a, b, c) then [] else [{a, b, c}]
  }

  /** How many triangles of the list come before position r of row gy of the strip. */
  function Before(ngx: nat, gy: nat, r: nat): nat
    requires ngx >= 2
  {
    2 * Start(ngx - 1, gy) + if r == 0 then 0 else if r <= 2 * ngx - 1 then r - 1 else 2 * ngx - 2
  }

  /** Position r of row gy, counted on into the next row. */
  function Ahead(ngx: nat, gy: nat, r: nat): Point
    requires ngx >= 1
  {
    if r < 2 * ngx + 2 then RowPoint(ngx, gy, r) else RowPoint(ngx, gy + 1, r - (2 * ngx + 2))
  }

  lemma StripAhead(ngx: nat, gy: nat, r: nat, i: nat)
    requires ngx >= 1 && r < 2 * (2 * ngx + 2) && i + 1 == Start(2 * ngx + 2, gy) + r
    ensures StripPoint(ngx, i) == Ahead(ngx, gy, r)
  {
    if r < 2 * ngx + 2 {
      StripPointAt(ngx, gy, r, i);
    } else {
      StripPointAt(ngx, gy + 1, r - (2 * ngx + 2), i);
    }
  }

  /** The triangle at position r of row gy: inside a row it is one of a rectangle's two, at the padding it
      collapses. */
  lemma RowTriangle(ngx: nat, gy: nat, r: nat)
    requires ngx >= 2 && r < 2 * ngx + 2
    ensures var a, b, c, gx := Ahead(ngx, gy, r), Ahead(ngx, gy, r + 1), Ahead(ngx, gy, r + 2), (r - 1) / 2;
      if 1 <= r <= 2 * ngx - 2 then
        && !Degenerate(a, b, c)
        && {a, b, c} == if r % 2 == 1 then {Point(gy, gx), Point(gy, gx + 1), Point(gy + 1, gx)}
                        else {Point(gy, gx + 1), Point(gy + 1, gx + 1), Point(gy + 1, gx)}
      else Degenerate(a, b, c)
  {
  }

  /** The two triangles of a rectangle in the list. */
  lemma ListTriangleAt(ngx: nat, gy: nat, gx: nat, e: nat, j: nat)
    requires ngx >= 2 && gx < ngx - 1 && e < 2 && j == 2 * (Start(ngx - 1, gy) + gx) + e
    ensures ListTriangle(ngx, j) ==
      if e == 0 then {Point(gy, gx), Point(gy, gx + 1), Point(gy + 1, gx)}
      else {Point(gy, gx + 1), Point(gy + 1, gx + 1), Point(gy + 1, gx)}
  {
    ListPointAt(ngx, gy, gx, 3 * e, 3 * j);
    ListPointAt(ngx, gy, gx, 3 * e + 1, 3 * j + 1);
    ListPointAt(ngx, gy, gx, 3 * e + 2, 3 * j + 2);
  }

  lemma RowTriangleIsListed(ngx: nat, gy: nat, r: nat, gx: nat, e: nat)
    requires ngx >= 2 && r == 2 * gx + 1 + e && e < 2 && gx < ngx - 1
    ensures {Ahead(ngx, gy, r), Ahead(ngx, gy, r + 1), Ahead(ngx, gy, r + 2)} == ListTriangle(ngx, Before(ngx, gy, r))
  {
    RowTriangle(ngx, gy, r);
    ListTriangleAt(ngx, gy, gx, e, Before(ngx, gy, r));
  }

  lemma RowCollapses(ngx: nat, gy: nat, r: nat)
    requires ngx >= 2 && r < 2 * ngx + 2
    ensures Degenerate(Ahead(ngx, gy, r), Ahead(ngx, gy, r + 1), Ahead(ngx, gy, r + 2)) <==> !(1 <= r <= 2 * ngx - 2)
  {
    RowTriangle(ngx, gy, r);
  }

  lemma StripTriangle(ngx: nat, gy: nat, r: nat, k: nat)
    requires ngx >= 2 && r < 2 * ngx + 2 && k + 1 == Start(2 * ngx + 2, gy) + r
    ensures StripPoint(ngx, k) == Ahead(ngx, gy, r) && StripPoint(ngx, k + 1) == Ahead(ngx, gy, r + 1)
    ensures StripPoint(ngx, k + 2) == Ahead(ngx, gy, r + 2)
  {
    StripAhead(ngx, gy, r, k);
    StripAhead(ngx, gy, r + 1, k + 1);
    StripAhead(ngx, gy, r + 2, k + 2);
  }

  lemma ListMeshNext(ngx: nat, n: nat)
    requires ngx >= 2
    ensures ListMesh(ngx, n + 1) == ListMesh(ngx, n) + [ListTriangle(ngx, n)]
  {
  }

  lemma BeforeNext(ngx: nat, gy: nat, r: nat)
    requires ngx >= 2 && r < 2 * ngx + 2
    ensures Before(ngx, gy, r) + (if 1 <= r <= 2 * ngx - 2 then 1 else 0)
         == if r + 1 < 2 * ngx + 2 then Before(ngx, gy, r + 1) else Before(ngx, gy + 1, 0)
  {
  }

  lemma OneMoreTriangle(ngx: nat, n: nat, gy: nat, r: nat)
    requires ngx >= 2 && n > 0 && r < 2 * ngx + 2 && n == Start(2 * ngx + 2, gy) + r
    ensures StripMesh(ngx, n) == StripMesh(ngx, n - 1)
      + if 1 <= r <= 2 * ngx - 2 then [ListTriangle(ngx, Before(ngx, gy, r))] else []
  {
    StripTriangle(ngx, gy, r, n - 1);
    RowCollapses(ngx, gy, r);
    if 1 <= r <= 2 * ngx - 2 {
      RowTriangleIsListed(ngx, gy, r, (r - 1) / 2, (r - 1) % 2);
    }
  }

  /** Up to every position, strip and list have drawn the same triangles in the same order. */
  lemma {:induction false} SameMeshUpTo(ngx: nat, gy: nat, r: nat, n: nat)
    requires ngx >= 2 && r < 2 * ngx + 2 && n + 1 == Start(2 * ngx + 2, gy) + r
    ensures StripMesh(ngx, n) == ListMesh(ngx, Before(ngx, gy, r))
    decreases n
  {
    var m := 2 * ngx + 2;
    if n > 0 {
      var (gy0, r0) := if r > 0 then (gy, r - 1) else (gy - 1, m - 1);
      SameMeshUpTo(ngx, gy0, r0, n - 1);
      OneMoreTriangle(ngx, n, gy0, r0);
      ListMeshNext(ngx, Before(ngx, gy0, r0));
      BeforeNext(ngx, gy0, r0);
    }
  }

  /** The strip draws exactly the list's triangles, in the list's order. */
  lemma StripIsList(ngx: nat, ngy: nat)
    requires ngx >= 2 && ngy >= 2
    ensures StripSize(ngx, ngy) >= 2 && ListSize(ngx, ngy) >= 0
    ensures StripMesh(ngx, StripSize(ngx, ngy) - 2) == ListMesh(ngx, ListSize(ngx, ngy) / 3)
  {
    var m := 2 * ngx + 2;
    StripSizeByRows(ngx, ngy);
    ListSizeByRows(ngx, ngy);
    StartGrows(m, ngy - 2, ngy - 1);
    SameMeshUpTo(ngx, ngy - 2, m - 3, StripSize(ngx, ngy) - 2);
  }
}
