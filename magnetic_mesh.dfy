/** The magnetic mesh application: a `width` by `height` lattice of particles
    kept in three parallel vectors, built once by `CreateMesh` and advanced
    once per frame by `Update`. */
module Mesh {
  import opened Vectors
  import opened Hands
  import opened Grid
  import opened Spectrum

  /** The lattice the application is built with. */
  const MESH_PARTICLE_WIDTH: Dim := 200
  const MESH_PARTICLE_HEIGHT: Dim := 400

  const HAND_SCALE: real := 2.0
  const HAND_TRANSLATION: Vec3 := Vec3(0.0, -400.0, -100.0)

  /** What the vertex buffer holds for one particle. */
  datatype Vertex = Vertex(position: Vec3, color: ColorA)

  /** The pinch loop of the tick: every pinch pulls the particle at `here`
      whose velocity is `v`. */
  method PinchPulls(v: Vec3, here: Vec3, pinches: seq<Pinch>, num: Numerics) returns (r: Vec3)
    requires num.Valid()
    ensures r == Attract(num, v, pinches, here)
  {
    r := v;
    var p := 0;
    while p < |pinches|
      invariant 0 <= p <= |pinches|
      invariant r == Attract(num, v, pinches[..p], here)
    {
      var delta := Sub(pinches[p].position, here);
      var distance := num.length(delta) + PINCH_FLOOR;
      var force := pinches[p].strength * PINCH_FORCE / distance;
      r := Add(r, Scale(force, num.normalized(delta)));
      assert pinches[..p + 1][..p] == pinches[..p];
      p := p + 1;
    }
    assert pinches[..|pinches|] == pinches;
  }

  /** `CINDER_APP_BASIC`: the application is constructed at its lattice
      size and set up once. */
  method Launch() returns (app: MagneticMesh)
    ensures fresh(app) && fresh(app.hand)
    ensures app.width == MESH_PARTICLE_WIDTH && app.height == MESH_PARTICLE_HEIGHT
    ensures app.Valid() && app.vertexCount == MESH_PARTICLE_WIDTH * MESH_PARTICLE_HEIGHT
    ensures app.vertexBuffer == []
    ensures app.indices == MeshIndices(MESH_PARTICLE_WIDTH, MESH_PARTICLE_HEIGHT) && |app.indices| == app.indexCount
    ensures forall c :: InGrid(c, app.width, app.height) ==>
      app.positions[Slot(c, app.width, app.height)] == LatticePosition(c, app.width, app.height) &&
      app.velocities[Slot(c, app.width, app.height)] == Zero &&
      app.colors[Slot(c, app.width, app.height)] == White
    ensures app.hand.scale == HAND_SCALE && app.hand.translation == HAND_TRANSLATION
  {
    app := new MagneticMesh(MESH_PARTICLE_WIDTH, MESH_PARTICLE_HEIGHT);
    app.Setup();
  }

  class MagneticMesh {
    const width: Dim
    const height: Dim
    const hand: HandController

    var positions: seq<Vec3>
    var velocities: seq<Vec3>
    var colors: seq<ColorA>

    /** The mesh's size as allocated, and its static index buffer. */
    var vertexCount: nat
    var indexCount: nat
    var indices: seq<nat>
    /** The vertices written through the mapped vertex buffer, in slot order. */
    var vertexBuffer: seq<Vertex>

    /** One particle per lattice cell in each of the three vectors. */
    ghost predicate Valid()
      reads this
    {
      |positions| == width * height &&
      |velocities| == width * height &&
      |colors| == width * height
    }

    /** The state after one tick from `oldPositions` and `oldVelocities`:
        every velocity and colour follows the per-particle rule, every
        position moved by its new velocity, and the vertex buffer holds each
        particle's position from before the move with its new colour. */
    ghost predicate Ticked(oldPositions: seq<Vec3>, oldVelocities: seq<Vec3>, pinches: seq<Pinch>,
                           bass: real, treble: real, num: Numerics)
      reads this
      requires Valid() && num.Valid()
      requires |oldPositions| == width * height && |oldVelocities| == width * height
    {
      (forall c :: InGrid(c, width, height) ==>
        velocities[Slot(c, width, height)] ==
          ParticleVelocity(num, oldVelocities[Slot(c, width, height)], oldPositions, pinches, c, width, height) &&
        colors[Slot(c, width, height)] == ParticleColor(num, c, width, height, bass, treble)) &&
      (forall p :: 0 <= p < width * height ==> positions[p] == Add(oldPositions[p], velocities[p])) &&
      |vertexBuffer| == width * height &&
      (forall p :: 0 <= p < width * height ==> vertexBuffer[p] == Vertex(oldPositions[p], colors[p]))
    }

    constructor (w: Dim, h: Dim)
      ensures width == w && height == h
      ensures fresh(hand) && hand.scale == 1.0 && hand.translation == Zero
      ensures positions == [] && velocities == [] && colors == []
      ensures vertexCount == 0 && indexCount == 0 && indices == [] && vertexBuffer == []
    {
      width, height := w, h;
      hand := new HandController();
      positions, velocities, colors := [], [], [];
      vertexCount, indexCount, indices, vertexBuffer := 0, 0, [], [];
    }

    /** `setup`: builds the mesh and places the hands in simulation space. */
    method Setup()
      requires positions == [] && velocities == [] && colors == []
      modifies this, hand
      ensures Valid()
      ensures vertexCount == width * height && vertexBuffer == []
      ensures indices == MeshIndices(width, height) && |indices| == indexCount
      ensures forall c :: InGrid(c, width, height) ==>
        positions[Slot(c, width, height)] == LatticePosition(c, width, height) &&
        velocities[Slot(c, width, height)] == Zero &&
        colors[Slot(c, width, height)] == White
      ensures hand.scale == HAND_SCALE && hand.translation == HAND_TRANSLATION
    {
      CreateMesh();
      LatticeLength(width, width, height);
      forall c | InGrid(c, width, height)
        ensures positions[Slot(c, width, height)] == LatticePosition(c, width, height)
      {
        LatticeAt(width, width, height, c);
      }
      hand.SetScale(HAND_SCALE);
      hand.SetTranslation(HAND_TRANSLATION);
    }

    /** `createMesh`: sizes the mesh, emits the quad index list and appends
        one particle per cell, in column-major order, to each vector. */
    method CreateMesh()
      modifies this
      ensures vertexCount == width * height && indexCount == 4 * QuadCount(width, height)
      ensures indices == MeshIndices(width, height) && |indices| == indexCount
      ensures forall j :: 0 <= j < |indices| ==> indices[j] < vertexCount
      ensures vertexBuffer == []
      ensures positions == old(positions) + Lattice(width, width, height)
      ensures velocities == old(velocities) + seq(width * height, _ => Zero)
      ensures colors == old(colors) + seq(width * height, _ => White)
    {
      var list := IndexList();
      AppendParticles();
      vertexCount := width * height;
      indexCount := 4 * QuadCount(width, height);
      indices := list;
      vertexBuffer := [];
      MeshIndicesShape(width, height);
    }

    /** The second pair of loops of `createMesh`: one particle per cell,
        column by column. */
    method AppendParticles()
      modifies this`positions, this`velocities, this`colors
      ensures positions == old(positions) + Lattice(width, width, height)
      ensures velocities == old(velocities) + seq(width * height, _ => Zero)
      ensures colors == old(colors) + seq(width * height, _ => White)
    {
      var x := 0;
      while x < width
        invariant 0 <= x <= width
        invariant positions == old(positions) + Lattice(x, width, height)
        invariant velocities == old(velocities) + seq(x * height, _ => Zero)
        invariant colors == old(colors) + seq(x * height, _ => White)
      {
        AppendColumn(x);
        assert x * height + height == (x + 1) * height;
        assert seq(x * height, _ => Zero) + seq(height, _ => Zero) == seq((x + 1) * height, _ => Zero);
        assert seq(x * height, _ => White) + seq(height, _ => White) == seq((x + 1) * height, _ => White);
        x := x + 1;
      }
    }

    /** The first pair of loops of `createMesh`: the four corners of every
        quad, quad by quad in column-major order. */
    method IndexList() returns (list: seq<nat>)
      ensures list == MeshIndices(width, height)
    {
      list := [];
      var x := 0;
      while x < width - 1
        invariant 0 <= x <= width - 1
        invariant list == QuadIndices(x, height)
      {
        var column := QuadColumnList(x);
        list := list + column;
        x := x + 1;
      }
    }

    /** One pass of the inner index loop of `createMesh`: the quads of column `x`. */
    method QuadColumnList(x: nat) returns (column: seq<nat>)
      ensures column == QuadColumn(x, height - 1, height)
    {
      column := [];
      var y := 0;
      while y < height - 1
        invariant 0 <= y <= height - 1
        invariant column == QuadColumn(x, y, height)
      {
        column := column + [(x + 0) * height + (y + 0)];
        column := column + [(x + 1) * height + (y + 0)];
        column := column + [(x + 1) * height + (y + 1)];
        column := column + [(x + 0) * height + (y + 1)];
        y := y + 1;
      }
    }

    /** One pass of the inner particle loop of `createMesh`: the particles of
        column `x`, bottom to top, each at its lattice point, at rest and white. */
    method AppendColumn(x: nat)
      requires x < width
      modifies this`positions, this`velocities, this`colors
      ensures positions == old(positions) + LatticeColumn(x, width, height)
      ensures velocities == old(velocities) + seq(height, _ => Zero)
      ensures colors == old(colors) + seq(height, _ => White)
    {
      var y := 0;
      while y < height
        invariant 0 <= y <= height
        invariant positions == old(positions) + LatticeColumn(x, width, height)[..y]
        invariant velocities == old(velocities) + seq(y, _ => Zero)
        invariant colors == old(colors) + seq(y, _ => White)
      {
        positions := positions + [LatticePosition(Cell(x, y), width, height)];
        velocities := velocities + [Zero];
        colors := colors + [White];
        assert LatticeColumn(x, width, height)[..y + 1] == LatticeColumn(x, width, height)[..y] + [LatticePosition(Cell(x, y), width, height)];
        y := y + 1;
      }
      assert LatticeColumn(x, width, height)[..height] == LatticeColumn(x, width, height);
    }

    /** The body of the first loop of `updateMesh` for particle `(x, y)` at
        slot `i`: pinch pulls, springs, damping and colour. The velocity is
        accumulated in `v` and stored once, which is what the repeated
        `velocities_[i] +=` of the tick amounts to. */
    method UpdateParticle(i: nat, x: nat, y: nat, pinches: seq<Pinch>, bass: real, treble: real, num: Numerics)
      requires Valid() && num.Valid()
      requires x < width && y < height && i == Slot(Cell(x, y), width, height)
      modifies this`velocities, this`colors
      ensures velocities == old(velocities)[i := ParticleVelocity(num, old(velocities)[i], positions, pinches, Cell(x, y), width, height)]
      ensures colors == old(colors)[i := ParticleColor(num, Cell(x, y), width, height, bass, treble)]
    {
      var v := PinchPulls(velocities[i], positions[i], pinches, num);
      v := NeighbourSprings(i, x, y, v, num);
      // Damping.
      v := Scale(PARTICLE_DAMPING, v);
      velocities := velocities[i := v];
      var colour := Colour(x, y, bass, treble, num);
      colors := colors[i := colour];
    }

    /** The four guarded spring terms of particle `(x, y)` at slot `i`,
        added to `v` in the order of the tick. */
    method NeighbourSprings(i: nat, x: nat, y: nat, v: Vec3, num: Numerics) returns (r: Vec3)
      requires |positions| == width * height
      requires x < width && y < height && i == Slot(Cell(x, y), width, height)
      ensures r == Springs(num, v, positions, positions[i], Neighbours(Cell(x, y), width, height), width, height)
    {
      var column := ColumnSprings(i, x, y, v, num);
      r := RowSprings(i, x, y, column, num);
      SpringsAppend(num, v, positions, positions[i], ColumnNeighbours(Cell(x, y), width, height),
                    RowNeighbours(Cell(x, y), width, height), width, height);
    }

    /** The springs to the particles below and above `(x, y)`, at `i - 1` and `i + 1`. */
    method ColumnSprings(i: nat, x: nat, y: nat, v: Vec3, num: Numerics) returns (r: Vec3)
      requires |positions| == width * height
      requires x < width && y < height && i == Slot(Cell(x, y), width, height)
      ensures r == Springs(num, v, positions, positions[i], ColumnNeighbours(Cell(x, y), width, height), width, height)
    {
      ghost var done: seq<Cell> := [];
      NeighbourSlots(Cell(x, y), width, height);
      r := v;
      if y > 0 {
        r := Add(r, SpringPull(num, positions[i], positions[i - 1]));
        SpringsSnoc(num, v, positions, positions[i], done, Cell(x, y - 1), width, height);
        done := done + [Cell(x, y - 1)];
      }
      if y < height - 1 {
        r := Add(r, SpringPull(num, positions[i], positions[i + 1]));
        SpringsSnoc(num, v, positions, positions[i], done, Cell(x, y + 1), width, height);
        done := done + [Cell(x, y + 1)];
      }
      assert done == ColumnNeighbours(Cell(x, y), width, height);
    }

    /** The springs to the particles left and right of `(x, y)`, at
        `i - height` and `i + height`. */
    method RowSprings(i: nat, x: nat, y: nat, v: Vec3, num: Numerics) returns (r: Vec3)
      requires |positions| == width * height
      requires x < width && y < height && i == Slot(Cell(x, y), width, height)
      ensures r == Springs(num, v, positions, positions[i], RowNeighbours(Cell(x, y), width, height), width, height)
    {
      ghost var done: seq<Cell> := [];
      NeighbourSlots(Cell(x, y), width, height);
      r := v;
      if x > 0 {
        r := Add(r, SpringPull(num, positions[i], positions[i - height]));
        SpringsSnoc(num, v, positions, positions[i], done, Cell(x - 1, y), width, height);
        done := done + [Cell(x - 1, y)];
      }
      if x < width - 1 {
        r := Add(r, SpringPull(num, positions[i], positions[i + height]));
        SpringsSnoc(num, v, positions, positions[i], done, Cell(x + 1, y), width, height);
        done := done + [Cell(x + 1, y)];
      }
      assert done == RowNeighbours(Cell(x, y), width, height);
    }

    /** The colour step of the tick: the colour of particle `(x, y)`. */
    method Colour(x: nat, y: nat, bass: real, treble: real, num: Numerics) returns (colour: ColorA)
      requires x < width && y < height
      ensures colour == ParticleColor(num, Cell(x, y), width, height, bass, treble)
      ensures colour.a == 1.0 <==> OnBoundary(Cell(x, y), width, height)
      ensures OnBoundary(Cell(x, y), width, height) ==> colour == ColorA(treble, treble, treble, 1.0)
      ensures !OnBoundary(Cell(x, y), width, height) ==> colour.a == MESH_ALPHA && colour.b == 1.0 - colour.r
    {
      var r := num.powCurve(y as real / height as real, bass);
      var g := num.powCurve((y * x) as real / (width * height) as real, treble);
      if x == 0 || y == 0 || x == width - 1 || y == height - 1 {
        colour := ColorA(treble, treble, treble, 1.0);
      } else {
        colour := ColorA(r, GREEN_OFFSET + g, 1.0 - r, MESH_ALPHA);
      }
    }

    /** `updateMesh`: first every velocity and colour, reading only the
        positions from before the tick; then the vertex buffer and every
        position, each slot once. */
    method UpdateMesh(pinches: seq<Pinch>, bass: real, treble: real, num: Numerics)
      requires Valid() && num.Valid()
      modifies this`positions, this`velocities, this`colors, this`vertexBuffer
      ensures Valid()
      ensures Ticked(old(positions), old(velocities), pinches, bass, treble, num)
    {
      UpdateParticles(pinches, bass, treble, num);
      MoveParticles();
    }

    /** The first loop of `updateMesh`, in column-major order with the running
        slot `i`. */
    method UpdateParticles(pinches: seq<Pinch>, bass: real, treble: real, num: Numerics)
      requires Valid() && num.Valid()
      modifies this`velocities, this`colors
      ensures Valid()
      ensures forall c :: InGrid(c, width, height) ==>
        velocities[Slot(c, width, height)] ==
          ParticleVelocity(num, old(velocities)[Slot(c, width, height)], positions, pinches, c, width, height) &&
        colors[Slot(c, width, height)] == ParticleColor(num, c, width, height, bass, treble)
    {
      var i := 0;
      var x := 0;
      while x < width
        invariant 0 <= x <= width && i == x * height
        invariant Valid()
        invariant forall c :: InGrid(c, width, height) && c.x < x ==>
          velocities[Slot(c, width, height)] ==
            ParticleVelocity(num, old(velocities)[Slot(c, width, height)], positions, pinches, c, width, height) &&
          colors[Slot(c, width, height)] == ParticleColor(num, c, width, height, bass, treble)
        invariant forall c :: InGrid(c, width, height) && x <= c.x ==>
          velocities[Slot(c, width, height)] == old(velocities)[Slot(c, width, height)]
      {
        i := UpdateColumn(i, x, pinches, bass, treble, num);
        x := x + 1;
      }
      assert i == width * height;
    }

    /** One pass of the inner loop of `updateMesh`: the particles of column
        `x`, at slots `i` to `i + height - 1`. */
    method UpdateColumn(i: nat, x: nat, pinches: seq<Pinch>, bass: real, treble: real, num: Numerics)
      returns (next: nat)
      requires Valid() && num.Valid()
      requires x < width && i == x * height
      modifies this`velocities, this`colors
      ensures Valid() && next == (x + 1) * height
      ensures forall c :: InGrid(c, width, height) && c.x == x ==>
        velocities[Slot(c, width, height)] ==
          ParticleVelocity(num, old(velocities)[Slot(c, width, height)], positions, pinches, c, width, height) &&
        colors[Slot(c, width, height)] == ParticleColor(num, c, width, height, bass, treble)
      ensures forall c :: InGrid(c, width, height) && c.x != x ==>
        velocities[Slot(c, width, height)] == old(velocities)[Slot(c, width, height)] &&
        colors[Slot(c, width, height)] == old(colors)[Slot(c, width, height)]
    {
      next := i;
      var y := 0;
      while y < height
        invariant 0 <= y <= height && next == x * height + y
        invariant Valid()
        invariant forall c :: InGrid(c, width, height) && c.x == x && c.y < y ==>
          velocities[Slot(c, width, height)] ==
            ParticleVelocity(num, old(velocities)[Slot(c, width, height)], positions, pinches, c, width, height) &&
          colors[Slot(c, width, height)] == ParticleColor(num, c, width, height, bass, treble)
        invariant forall c :: InGrid(c, width, height) && !(c.x == x && c.y < y) ==>
          velocities[Slot(c, width, height)] == old(velocities)[Slot(c, width, height)] &&
          colors[Slot(c, width, height)] == old(colors)[Slot(c, width, height)]
      {
        UpdateParticle(next, x, y, pinches, bass, treble, num);
        forall c | InGrid(c, width, height) && c != Cell(x, y)
          ensures Slot(c, width, height) != next
        {
          SlotOrder(c, Cell(x, y), width, height);
        }
        next := next + 1;
        y := y + 1;
      }
      assert x * height + height == (x + 1) * height;
    }

    /** The second loop of `updateMesh`: each vertex gets the particle's
        position from before the move and its colour, then the particle moves
        by its velocity. */
    method MoveParticles()
      requires Valid()
      modifies this`positions, this`vertexBuffer
      ensures Valid() && |vertexBuffer| == width * height
      ensures forall p :: 0 <= p < width * height ==>
        vertexBuffer[p] == Vertex(old(positions)[p], colors[p]) &&
        positions[p] == Add(old(positions)[p], velocities[p])
    {
      var written: seq<Vertex> := [];
      var p := 0;
      while p < width * height
        invariant 0 <= p <= width * height && |written| == p
        invariant Valid()
        invariant forall q :: 0 <= q < p ==>
          written[q] == Vertex(old(positions)[q], colors[q]) && positions[q] == Add(old(positions)[q], velocities[q])
        invariant forall q :: p <= q < width * height ==> positions[q] == old(positions)[q]
      {
        written := written + [Vertex(positions[p], colors[p])];
        positions := positions[p := Add(positions[p], velocities[p])];
        p := p + 1;
      }
      vertexBuffer := written;
    }

    /** `update`: reduces the audio to a loudness pair, reads the pinches
        from the hand controller and advances the mesh by one tick. */
    method Update(audio: AudioFrame, frame: seq<Hand>, num: Numerics)
      returns (ghost bass: real, ghost treble: real, ghost pinches: seq<Pinch>)
      requires Valid() && num.Valid()
      requires Spectrum.WellFormed(audio) && Hands.WellFormed(frame)
      modifies this`positions, this`velocities, this`colors, this`vertexBuffer
      ensures Valid()
      ensures Reduced(audio, bass, treble)
      ensures hand.Mapped(frame, pinches)
      ensures Ticked(old(positions), old(velocities), pinches, bass, treble, num)
    {
      var bassTotal, trebleTotal := Loudness(audio);
      var list := hand.GetPinches(frame);
      UpdateMesh(list, bassTotal, trebleTotal, num);
      bass, treble, pinches := bassTotal, trebleTotal, list;
    }
  }
}
