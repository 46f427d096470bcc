/** The particle lattice of the magnetic mesh: cells, their linear index
    `x * H + y`, the quad index list, the initial layout, the neighbour
    relation, and the per-particle velocity and colour rules of one tick. */
module Grid {
  import opened Vectors
  import opened Hands

  /** Rest length of a spring and spacing of the lattice. */
  const MESH_PARTICLE_DISTANCE: nat := 8
  /** Spring constant. */
  const MESH_FORCE: real := 0.2
  const PARTICLE_DAMPING: real := 0.99
  const PINCH_FORCE: real := 200.0
  /** Added to a pinch distance so that the pull never divides by zero. */
  const PINCH_FLOOR: real := 50.0
  const MESH_ALPHA: real := 0.3
  /** Green offset of an interior particle's colour. */
  const GREEN_OFFSET: real := 0.13

  /** A lattice dimension: at least two particles, so that every particle has
      a neighbour along each axis. */
  type Dim = n: nat | n >= 2 witness 2

  /** The particle at column `x`, row `y`. */
  datatype Cell = Cell(x: nat, y: nat)

  predicate InGrid(c: Cell, w: nat, h: nat) {
    c.x < w && c.y < h
  }

  lemma MulMonotone(a: nat, b: nat, h: nat)
    requires a <= b
    ensures a * h <= b * h
  {
  }

  /** The linear index of a particle in the parallel vectors. */
  function Slot(c: Cell, w: nat, h: nat): (i: nat)
    requires InGrid(c, w, h)
    ensures i < w * h
  {
    MulMonotone(c.x + 1, w, h);
    c.x * h + c.y
  }

  /** `c` comes before `(x, y)` in the column-major walk of the grid. */
  predicate Precedes(c: Cell, x: nat, y: nat) {
    c.x < x || (c.x == x && c.y < y)
  }

  /** The linear index orders cells column by column, and no two cells share it. */
  lemma SlotOrder(c: Cell, d: Cell, w: nat, h: nat)
    requires InGrid(c, w, h) && InGrid(d, w, h)
    ensures Slot(c, w, h) < Slot(d, w, h) <==> Precedes(c, d.x, d.y)
    ensures Slot(c, w, h) == Slot(d, w, h) <==> c == d
  {
    if c.x < d.x {
      LessColumn(c, d, w, h);
    } else if d.x < c.x {
      LessColumn(d, c, w, h);
    }
  }

  lemma LessColumn(c: Cell, d: Cell, w: nat, h: nat)
    requires InGrid(c, w, h) && InGrid(d, w, h) && c.x < d.x
    ensures Slot(c, w, h) < Slot(d, w, h)
  {
    MulMonotone(c.x + 1, d.x, h);
    assert (c.x + 1) * h == c.x * h + h;
  }

  lemma DivBound(p: nat, w: nat, h: nat)
    requires p < w * h
    ensures h > 0 && p / h < w
  {
    if p / h >= w {
      MulMonotone(w, p / h, h);
    }
  }

  /** The cell stored at linear index `p`. */
  function CellOf(p: nat, w: nat, h: nat): (c: Cell)
    requires p < w * h
    ensures InGrid(c, w, h) && Slot(c, w, h) == p
  {
    DivBound(p, w, h);
    Cell(p / h, p % h)
  }

  /** Every cell is found again at its own linear index. */
  lemma CellOfSlot(c: Cell, w: nat, h: nat)
    requires InGrid(c, w, h)
    ensures CellOf(Slot(c, w, h), w, h) == c
  {
    SlotOrder(c, CellOf(Slot(c, w, h), w, h), w, h);
  }

  // ---------------------------------------------------------------------
  // The quad index list

  /** The four corners of quad `(x, y)`, in drawing order. */
  function Quad(x: nat, y: nat, h: nat): seq<nat> {
    [x * h + y, (x + 1) * h + y, (x + 1) * h + (y + 1), x * h + (y + 1)]
  }

  /** Quads `(x, 0)` to `(x, n - 1)`. */
  function QuadColumn(x: nat, n: nat, h: nat): seq<nat> {
    if n == 0 then [] else QuadColumn(x, n - 1, h) + Quad(x, n - 1, h)
  }

  /** Columns `0` to `m - 1` of quads, each `h - 1` quads tall. */
  function QuadIndices(m: nat, h: nat): seq<nat>
    requires h >= 1
  {
    if m == 0 then [] else QuadIndices(m - 1, h) + QuadColumn(m - 1, h - 1, h)
  }

  /** The number of quads of a `w` by `h` lattice. */
  function QuadCount(w: nat, h: nat): nat
    requires w >= 1 && h >= 1
  {
    (w - 1) * (h - 1)
  }

  /** The index list of a `w` by `h` lattice. */
  function MeshIndices(w: nat, h: nat): seq<nat>
    requires w >= 1 && h >= 1
  {
    QuadIndices(w - 1, h)
  }

  lemma {:induction false} QuadColumnAt(x: nat, n: nat, h: nat, y: nat)
    requires y < n
    ensures |QuadColumn(x, n, h)| == 4 * n
    ensures QuadColumn(x, n, h)[4 * y .. 4 * y + 4] == Quad(x, y, h)
  {
    if y < n - 1 {
      QuadColumnAt(x, n - 1, h, y);
    } else if n > 1 {
      QuadColumnAt(x, n - 1, h, 0);
    }
  }

  lemma {:induction false} QuadColumnLength(x: nat, n: nat, h: nat)
    ensures |QuadColumn(x, n, h)| == 4 * n
  {
    if n > 0 {
      QuadColumnAt(x, n, h, 0);
    }
  }

  lemma {:induction false} QuadIndicesLength(m: nat, h: nat)
    requires h >= 1
    ensures |QuadIndices(m, h)| == 4 * (m * (h - 1))
  {
    if m > 0 {
      QuadIndicesLength(m - 1, h);
      QuadColumnLength(m - 1, h - 1, h);
    }
  }

  /** Quad `(x, y)` is entry `x * (h - 1) + y` of the list, which is its
      linear index in the `m` by `h - 1` grid of quads. */
  lemma {:induction false} QuadIndicesAt(m: nat, h: nat, x: nat, y: nat)
    requires h >= 1 && InGrid(Cell(x, y), m, h - 1)
    ensures |QuadIndices(m, h)| == 4 * (m * (h - 1))
    ensures 4 * Slot(Cell(x, y), m, h - 1) + 4 <= |QuadIndices(m, h)| &&
            QuadIndices(m, h)[4 * Slot(Cell(x, y), m, h - 1) .. 4 * Slot(Cell(x, y), m, h - 1) + 4] == Quad(x, y, h)
  {
    QuadIndicesLength(m, h);
    if x == m - 1 {
      QuadIndicesLength(m - 1, h);
      LastColumnAt(m, h, y, (m - 1) * (h - 1));
    } else {
      QuadIndicesAt(m - 1, h, x, y);
      EarlierColumnAt(m, h, x, y);
    }
  }

  /** Quad `(m - 1, y)` sits in the last column, after the `k` quads of the
      earlier ones. */
  lemma LastColumnAt(m: nat, h: nat, y: nat, k: nat)
    requires h >= 1 && m >= 1 && y < h - 1 && |QuadIndices(m - 1, h)| == 4 * k
    ensures 4 * (k + y) + 4 <= |QuadIndices(m, h)| &&
            QuadIndices(m, h)[4 * (k + y) .. 4 * (k + y) + 4] == Quad(m - 1, y, h)
  {
    QuadColumnAt(m - 1, h - 1, h, y);
    SliceOfConcat(QuadIndices(m - 1, h), QuadColumn(m - 1, h - 1, h), 4 * (k + y));
  }

  lemma EarlierColumnAt(m: nat, h: nat, x: nat, y: nat)
    requires h >= 1 && x + 1 < m && y < h - 1
    requires 4 * Slot(Cell(x, y), m - 1, h - 1) + 4 <= |QuadIndices(m - 1, h)|
    ensures QuadIndices(m, h)[4 * Slot(Cell(x, y), m - 1, h - 1) .. 4 * Slot(Cell(x, y), m - 1, h - 1) + 4]
         == QuadIndices(m - 1, h)[4 * Slot(Cell(x, y), m - 1, h - 1) .. 4 * Slot(Cell(x, y), m - 1, h - 1) + 4]
  {
    SliceOfConcat(QuadIndices(m - 1, h), QuadColumn(m - 1, h - 1, h), 4 * Slot(Cell(x, y), m - 1, h - 1));
  }

  lemma SliceOfConcat(a: seq<nat>, b: seq<nat>, q: nat)
    requires q + 4 <= |a| + |b|
    ensures q + 4 <= |a| ==> (a + b)[q .. q + 4] == a[q .. q + 4]
    ensures q >= |a| ==> (a + b)[q .. q + 4] == b[q - |a| .. q - |a| + 4]
  {
  }

  lemma {:induction false} QuadColumnBelow(x: nat, n: nat, h: nat)
    requires n < h
    ensures forall j :: 0 <= j < |QuadColumn(x, n, h)| ==> QuadColumn(x, n, h)[j] < (x + 2) * h
  {
    if n > 0 {
      QuadColumnBelow(x, n - 1, h);
    }
  }

  lemma {:induction false} QuadIndicesBelow(m: nat, h: nat)
    requires h >= 1
    ensures forall j :: 0 <= j < |QuadIndices(m, h)| ==> QuadIndices(m, h)[j] < (m + 1) * h
  {
    if m > 0 {
      QuadIndicesBelow(m - 1, h);
      QuadColumnBelow(m - 1, h - 1, h);
    }
  }

  /** The index list has four entries per quad, and every entry names a particle. */
  lemma MeshIndicesShape(w: nat, h: nat)
    requires w >= 1 && h >= 1
    ensures |MeshIndices(w, h)| == 4 * QuadCount(w, h)
    ensures forall j :: 0 <= j < |MeshIndices(w, h)| ==> MeshIndices(w, h)[j] < w * h
  {
    QuadIndicesLength(w - 1, h);
    QuadIndicesBelow(w - 1, h);
  }

  // ---------------------------------------------------------------------
  // The initial layout

  /** Where `createMesh` puts particle `c`. */
  function LatticePosition(c: Cell, w: nat, h: nat): Vec3
    requires w > 0 && h > 0
  {
    Vec3((c.x as real / w as real - 0.5) * (MESH_PARTICLE_DISTANCE * w) as real,
         (c.y as real / h as real - 0.5) * (MESH_PARTICLE_DISTANCE * h) as real,
         1.0)
  }

  /** The lattice points of column `x`, bottom to top. */
  function LatticeColumn(x: nat, w: nat, h: nat): seq<Vec3>
    requires w > 0 && h > 0
  {
    seq(h, y requires 0 <= y < h => LatticePosition(Cell(x, y), w, h))
  }

  /** The lattice points of columns `0` to `m - 1`, in the order
      `createMesh` appends them. */
  function Lattice(m: nat, w: nat, h: nat): seq<Vec3>
    requires w > 0 && h > 0
  {
    if m == 0 then [] else Lattice(m - 1, w, h) + LatticeColumn(m - 1, w, h)
  }

  lemma {:induction false} LatticeLength(m: nat, w: nat, h: nat)
    requires w > 0 && h > 0
    ensures |Lattice(m, w, h)| == m * h
  {
    if m > 0 {
      LatticeLength(m - 1, w, h);
      assert (m - 1) * h + h == m * h;
    }
  }

  /** Every particle of the first `m` columns sits at its own lattice point,
      at its linear index. */
  lemma {:induction false} LatticeAt(m: nat, w: nat, h: nat, c: Cell)
    requires w > 0 && h > 0 && InGrid(c, w, h) && c.x < m
    ensures Slot(c, w, h) < |Lattice(m, w, h)| && Lattice(m, w, h)[Slot(c, w, h)] == LatticePosition(c, w, h)
  {
    if c.x == m - 1 {
      LatticeLastColumn(m, w, h, c);
    } else {
      LatticeAt(m - 1, w, h, c);
      LatticeEarlierColumn(m, w, h, c);
    }
  }

  lemma LatticeLastColumn(m: nat, w: nat, h: nat, c: Cell)
    requires w > 0 && h > 0 && InGrid(c, w, h) && c.x == m - 1
    ensures Slot(c, w, h) < |Lattice(m, w, h)| && Lattice(m, w, h)[Slot(c, w, h)] == LatticePosition(c, w, h)
  {
    LatticeLength(m - 1, w, h);
    assert Slot(c, w, h) == |Lattice(m - 1, w, h)| + c.y;
  }

  lemma LatticeEarlierColumn(m: nat, w: nat, h: nat, c: Cell)
    requires w > 0 && h > 0 && InGrid(c, w, h) && c.x + 1 < m
    requires Slot(c, w, h) < |Lattice(m - 1, w, h)|
    ensures Slot(c, w, h) < |Lattice(m, w, h)| && Lattice(m, w, h)[Slot(c, w, h)] == Lattice(m - 1, w, h)[Slot(c, w, h)]
  {
  }

  /** The lattice is centred on the origin in the plane `z = 1`, with
      neighbouring particles one rest length apart. */
  lemma LatticeLayout(c: Cell, w: nat, h: nat)
    requires w > 0 && h > 0
    ensures LatticePosition(c, w, h).x == (MESH_PARTICLE_DISTANCE as real) * (c.x as real - w as real / 2.0)
    ensures LatticePosition(c, w, h).y == (MESH_PARTICLE_DISTANCE as real) * (c.y as real - h as real / 2.0)
    ensures LatticePosition(c, w, h).z == 1.0
  {
  }

  // ---------------------------------------------------------------------
  // Neighbours

  predicate Adjacent(a: Cell, b: Cell) {
    (a.x == b.x && (a.y + 1 == b.y || b.y + 1 == a.y)) ||
    (a.y == b.y && (a.x + 1 == b.x || b.x + 1 == a.x))
  }

  /** The neighbours in the same column: below, then above, where they exist. */
  function ColumnNeighbours(c: Cell, w: nat, h: nat): (ns: seq<Cell>)
    requires InGrid(c, w, h)
    ensures forall n :: n in ns ==> InGrid(n, w, h)
  {
    (if c.y > 0 then [Cell(c.x, c.y - 1)] else []) +
    (if c.y < h - 1 then [Cell(c.x, c.y + 1)] else [])
  }

  /** The neighbours in the same row: left, then right, where they exist. */
  function RowNeighbours(c: Cell, w: nat, h: nat): (ns: seq<Cell>)
    requires InGrid(c, w, h)
    ensures forall n :: n in ns ==> InGrid(n, w, h)
  {
    (if c.x > 0 then [Cell(c.x - 1, c.y)] else []) +
    (if c.x < w - 1 then [Cell(c.x + 1, c.y)] else [])
  }

  /** The neighbours whose springs act on `c`, in the order the tick applies
      them: below, above, left, right, each only where it exists. */
  function Neighbours(c: Cell, w: nat, h: nat): (ns: seq<Cell>)
    requires InGrid(c, w, h)
    ensures forall n :: n in ns ==> InGrid(n, w, h) && Adjacent(n, c)
  {
    ColumnNeighbours(c, w, h) + RowNeighbours(c, w, h)
  }

  /** Every adjacent particle of the grid is a neighbour, so the relation is symmetric. */
  lemma NeighboursComplete(c: Cell, d: Cell, w: nat, h: nat)
    requires InGrid(c, w, h) && InGrid(d, w, h)
    ensures d in Neighbours(c, w, h) <==> Adjacent(d, c)
    ensures d in Neighbours(c, w, h) <==> c in Neighbours(d, w, h)
  {
  }

  predicate IsCorner(c: Cell, w: nat, h: nat) {
    (c.x == 0 || c.x == w - 1) && (c.y == 0 || c.y == h - 1)
  }

  predicate OnBoundary(c: Cell, w: nat, h: nat) {
    c.x == 0 || c.y == 0 || c.x == w - 1 || c.y == h - 1
  }

  /** A corner feels two springs, another boundary particle three, an interior one four. */
  lemma NeighbourCount(c: Cell, w: Dim, h: Dim)
    requires InGrid(c, w, h)
    ensures |Neighbours(c, w, h)| == if IsCorner(c, w, h) then 2 else if OnBoundary(c, w, h) then 3 else 4
  {
  }

  // ---------------------------------------------------------------------
  // One tick, for one particle

  /** The pinch distance: the length of the offset plus the floor. */
  function PinchDistance(num: Numerics, delta: Vec3): (d: real)
    requires num.Valid()
    ensures d >= PINCH_FLOOR
  {
    num.length(delta) + PINCH_FLOOR
  }

  /** The pull of one pinch on a particle at `here`. */
  function PinchPull(num: Numerics, pinch: Pinch, here: Vec3): Vec3
    requires num.Valid()
  {
    var delta := Sub(pinch.position, here);
    Scale(pinch.strength * PINCH_FORCE / PinchDistance(num, delta), num.normalized(delta))
  }

  /** `v` with the pulls of `pinches` added, in list order. */
  function Attract(num: Numerics, v: Vec3, pinches: seq<Pinch>, here: Vec3): Vec3
    requires num.Valid()
  {
    if pinches == [] then v
    else Add(Attract(num, v, pinches[..|pinches| - 1], here), PinchPull(num, pinches[|pinches| - 1], here))
  }

  /** Pinches superpose: two lists pull as their concatenation does. */
  lemma {:induction false} AttractSuperposition(num: Numerics, v: Vec3, ps: seq<Pinch>, qs: seq<Pinch>, here: Vec3)
    requires num.Valid()
    ensures Attract(num, v, ps + qs, here) == Attract(num, Attract(num, v, ps, here), qs, here)
  {
    if qs == [] {
      assert ps + qs == ps;
    } else {
      assert (ps + qs)[..|ps + qs| - 1] == ps + qs[..|qs| - 1];
      AttractSuperposition(num, v, ps, qs[..|qs| - 1], here);
    }
  }

  /** An empty pinch list leaves the velocity as it was. */
  lemma NoPinchesPullNothing(num: Numerics, v: Vec3, here: Vec3)
    requires num.Valid()
    ensures Attract(num, v, [], here) == v
  {
  }

  /** A pinch of strength zero pulls nothing. */
  lemma ZeroStrengthPullsNothing(num: Numerics, pinch: Pinch, here: Vec3)
    requires num.Valid() && pinch.strength == 0.0
    ensures PinchPull(num, pinch, here) == Zero
  {
  }

  /** The spring between a particle at `here` and a neighbour at `there`. */
  function SpringPull(num: Numerics, here: Vec3, there: Vec3): Vec3 {
    var delta := Sub(there, here);
    Scale(MESH_FORCE, Sub(delta, Scale(MESH_PARTICLE_DISTANCE as real, num.normalized(delta))))
  }

  /** `v` with the springs to `ns` added, in list order. */
  function Springs(num: Numerics, v: Vec3, positions: seq<Vec3>, here: Vec3, ns: seq<Cell>, w: nat, h: nat): Vec3
    requires |positions| == w * h
    requires forall n :: n in ns ==> InGrid(n, w, h)
  {
    if ns == [] then v
    else
      var last := ns[|ns| - 1];
      Add(Springs(num, v, positions, here, ns[..|ns| - 1], w, h), SpringPull(num, here, positions[Slot(last, w, h)]))
  }

  /** The slots of the four neighbours of `c`, where they exist. */
  lemma NeighbourSlots(c: Cell, w: nat, h: nat)
    requires InGrid(c, w, h)
    ensures c.y > 0 ==> Slot(Cell(c.x, c.y - 1), w, h) == Slot(c, w, h) - 1
    ensures c.y < h - 1 ==> Slot(Cell(c.x, c.y + 1), w, h) == Slot(c, w, h) + 1
    ensures c.x > 0 ==> Slot(Cell(c.x - 1, c.y), w, h) == Slot(c, w, h) - h
    ensures c.x < w - 1 ==> Slot(Cell(c.x + 1, c.y), w, h) == Slot(c, w, h) + h
  {
    assert (c.x + 1) * h == c.x * h + h;
    if c.x > 0 {
      assert (c.x - 1) * h == c.x * h - h;
    }
  }

  /** Adding one more neighbour adds its spring. */
  lemma SpringsSnoc(num: Numerics, v: Vec3, positions: seq<Vec3>, here: Vec3, ns: seq<Cell>, n: Cell, w: nat, h: nat)
    requires |positions| == w * h
    requires forall m :: m in ns ==> InGrid(m, w, h)
    requires InGrid(n, w, h)
    ensures Springs(num, v, positions, here, ns + [n], w, h)
         == Add(Springs(num, v, positions, here, ns, w, h), SpringPull(num, here, positions[Slot(n, w, h)]))
  {
    assert (ns + [n])[..|ns|] == ns;
  }

  /** Springs to two lists of neighbours act as springs to their concatenation. */
  lemma {:induction false} SpringsAppend(num: Numerics, v: Vec3, positions: seq<Vec3>, here: Vec3, ns: seq<Cell>, ms: seq<Cell>, w: nat, h: nat)
    requires |positions| == w * h
    requires forall n :: n in ns + ms ==> InGrid(n, w, h)
    ensures Springs(num, v, positions, here, ns + ms, w, h)
         == Springs(num, Springs(num, v, positions, here, ns, w, h), positions, here, ms, w, h)
  {
    if ms == [] {
      assert ns + ms == ns;
    } else {
      assert (ns + ms)[..|ns + ms| - 1] == ns + ms[..|ms| - 1];
      SpringsAppend(num, v, positions, here, ns, ms[..|ms| - 1], w, h);
    }
  }

  /** The velocity of particle `c` after one tick, from its velocity `v` and
      the positions of the whole grid before the tick. */
  function ParticleVelocity(num: Numerics, v: Vec3, positions: seq<Vec3>, pinches: seq<Pinch>, c: Cell, w: nat, h: nat): Vec3
    requires num.Valid() && InGrid(c, w, h) && |positions| == w * h
  {
    var here := positions[Slot(c, w, h)];
    Scale(PARTICLE_DAMPING, Springs(num, Attract(num, v, pinches, here), positions, here, Neighbours(c, w, h), w, h))
  }

  /** The colour of particle `c` after one tick. */
  function ParticleColor(num: Numerics, c: Cell, w: Dim, h: Dim, bass: real, treble: real): ColorA {
    var r := num.powCurve(c.y as real / h as real, bass);
    var g := num.powCurve((c.y * c.x) as real / (w * h) as real, treble);
    if OnBoundary(c, w, h) then ColorA(treble, treble, treble, 1.0)
    else ColorA(r, GREEN_OFFSET + g, 1.0 - r, MESH_ALPHA)
  }

  /** Boundary particles, and only they, are opaque grey at the treble level;
      interior ones are translucent with blue the complement of red. */
  lemma BoundaryColour(num: Numerics, c: Cell, w: Dim, h: Dim, bass: real, treble: real)
    requires InGrid(c, w, h)
    ensures ParticleColor(num, c, w, h, bass, treble).a == 1.0 <==> OnBoundary(c, w, h)
    ensures OnBoundary(c, w, h) ==> ParticleColor(num, c, w, h, bass, treble) == ColorA(treble, treble, treble, 1.0)
    ensures !OnBoundary(c, w, h) ==>
      var col := ParticleColor(num, c, w, h, bass, treble);
      col.a == MESH_ALPHA && col.b == 1.0 - col.r
  {
  }
}
