# MagneticMesh, modelled in Dafny

MagneticMesh is a Cinder application that draws a lattice of particles held
together by springs. The hands seen by a Leap Motion sensor pull the
particles toward the point where the index finger is, with a force that
grows with the hand's pinch strength. Once per frame the music playing
in the background is reduced to a bass and a treble loudness, which colour
the particles.

The project models:

- the hand controller (`HandController`): the affine map
  `scale * tip + translation` from the index-finger tip of each hand to a
  pinch in simulation space, and its setters;
- `createMesh`: the quad index list and the three parallel particle vectors
  (positions, velocities, colours), filled column by column at the linear
  index `x * H + y`;
- `updateMesh`: the velocity and colour of every particle (pinch pulls, the
  up to four springs to its neighbours, damping, the boundary/interior
  colour rule), then the vertex buffer and the move of every position by its
  velocity;
- `update`: the reduction of a 512-band spectrum to a bass and a treble mean,
  or the fixed default in a build without audio, followed by one tick.

Layout: `vectors.dfy` (the value types `Vec3f` and `ColorA`, and the
floating-point routines as a parameter), `hand_controller.dfy` (module
`Hands`), `grid.dfy` (module `Grid`: linear index, quad list, lattice,
neighbours and the per-particle rules as functions), `spectrum.dfy` (module
`Spectrum`: the loudness reduction) and `magnetic_mesh.dfy` (module `Mesh`:
the application class).

`Vec3f::length`, `Vec3f::normalized` and `powf` are not defined here. They
are fields of a `Numerics` value passed to every operation that uses them,
and the only thing assumed of them is that a length is never negative. The
lattice size `W` by `H` (the constants 200 and 400 of the application) is a
parameter of the class, with `W, H >= 2`.

Only a build without audio support uses the default loudness 5
(src/MagneticMesh.cpp:178-182). In the audio build, a track with no PCM
buffer yet, or a transform that returns nothing, leaves both totals at 0 and
then divides them by 256 (src/MagneticMesh.cpp:154-177).
`Spectrum.Loudness` gives 0 in those two cases.

## Model

| member | source | states |
|---|---|---|
| Hands.ToVec3f | src/HandController.cpp:17-19 | the three coordinates are copied unchanged |
| Hands.HandController.constructor | src/HandController.h:16 | a new controller has scale 1 and the zero translation |
| Hands.HandController.SetScale | src/HandController.h:20 | the scale becomes `s`; the translation is unchanged |
| Hands.HandController.SetTranslation | src/HandController.h:21 | the translation becomes `t`; the scale is unchanged |
| Hands.HandController.GetPinches | src/HandController.cpp:22-36 | one pinch per hand, in hand order (none for no hands); each at `scale * tip + translation` of finger 1's tip, with the hand's own pinch strength; the controller's state is not changed |
| Grid.Slot | src/MagneticMesh.cpp:80-89 | the linear index `x * H + y` of a cell of the grid is below `W * H` |
| Grid.SlotOrder | src/MagneticMesh.cpp:95-99 | the linear index orders cells column by column, and two cells share it only if they are equal |
| Grid.CellOf | src/MagneticMesh.cpp:80-89 | every index below `W * H` is the linear index of a cell of the grid |
| Grid.CellOfSlot | src/MagneticMesh.cpp:80-89 | a cell is recovered from its own linear index |
| Grid.Quad | src/MagneticMesh.cpp:73-76 | the four corner indices pushed for quad `(x, y)`, in push order (definition; its place in the list is `Grid.QuadIndicesAt`) |
| Grid.QuadIndicesLength | src/MagneticMesh.cpp:66-78 | the index list of `m` quad columns has `4 * m * (H - 1)` entries |
| Grid.QuadIndicesAt | src/MagneticMesh.cpp:71-78 | entries `4k` to `4k + 3`, for `k` the index of quad `(x, y)` among the quads, are its corners `xH + y`, `(x + 1)H + y`, `(x + 1)H + y + 1`, `xH + y + 1` in that order |
| Grid.MeshIndicesShape | src/MagneticMesh.cpp:65-78 | the list has `4 * (W - 1) * (H - 1)` entries, the number the mesh is sized for, and every entry is below `W * H` |
| Grid.LatticeLength | src/MagneticMesh.cpp:80-89 | the first `m` columns hold `m * H` points |
| Grid.LatticePosition | src/MagneticMesh.cpp:82-84 | the position `((x/W - 0.5) * 8W, (y/H - 0.5) * 8H, 1)` given to particle `(x, y)` (definition; see `Grid.LatticeLayout`) |
| Grid.LatticeAt | src/MagneticMesh.cpp:80-89 | the point at the linear index of a cell is that cell's lattice point |
| Grid.LatticeLayout | src/MagneticMesh.cpp:82-84 | the lattice point of `(x, y)` is `(8 (x - W/2), 8 (y - H/2), 1)` |
| Grid.ColumnNeighbours | src/MagneticMesh.cpp:110-117 | the neighbours below and above exist in the grid |
| Grid.RowNeighbours | src/MagneticMesh.cpp:118-125 | the neighbours left and right exist in the grid |
| Grid.Neighbours | src/MagneticMesh.cpp:110-125 | every neighbour whose spring acts on a particle is in the grid and adjacent to it |
| Grid.NeighboursComplete | src/MagneticMesh.cpp:110-125 | a cell is a neighbour exactly when it is adjacent, so the relation is symmetric |
| Grid.NeighbourCount | src/MagneticMesh.cpp:110-125 | a corner gets 2 spring terms, another boundary particle 3, an interior one 4 |
| Grid.NeighbourSlots | src/MagneticMesh.cpp:110-125 | the neighbours below, above, left and right sit at `i - 1`, `i + 1`, `i - H`, `i + H`, each where its guard holds |
| Grid.SpringsSnoc | src/MagneticMesh.cpp:110-125 | one more neighbour adds its spring to the velocity |
| Grid.SpringsAppend | src/MagneticMesh.cpp:110-125 | the springs of two neighbour lists applied one after the other are the springs of their concatenation |
| Grid.PinchDistance | src/MagneticMesh.cpp:103 | the divisor of a pinch pull is at least 50 |
| Grid.PinchPull | src/MagneticMesh.cpp:102-106 | the pull of one pinch: strength times 200 over the pinch distance, along the normalized offset (definition; see `Grid.ZeroStrengthPullsNothing`) |
| Grid.AttractSuperposition | src/MagneticMesh.cpp:101-107 | applying two pinch lists one after the other is applying their concatenation |
| Grid.NoPinchesPullNothing | src/MagneticMesh.cpp:101-107 | an empty pinch list leaves the velocity unchanged |
| Grid.ZeroStrengthPullsNothing | src/MagneticMesh.cpp:101-107 | a pinch of strength 0 adds nothing |
| Grid.SpringPull | src/MagneticMesh.cpp:111-124 | one spring term: 0.2 times the offset minus 8 times its normalized direction (definition; see `Grid.SpringsSnoc`) |
| Grid.ParticleVelocity | src/MagneticMesh.cpp:100-128 | a particle's new velocity: its pinch pulls, then the springs to its neighbours, then damping by 0.99, all read from the positions before the tick (definition; `Mesh.MagneticMesh.UpdateParticle` is proved to compute it) |
| Grid.ParticleColor | src/MagneticMesh.cpp:130-137 | a particle's new colour from the boundary test and the two loudness curves (definition; see `Grid.BoundaryColour`) |
| Grid.BoundaryColour | src/MagneticMesh.cpp:131-137 | a particle is opaque exactly when it is on the boundary; a boundary particle is `(treble, treble, treble, 1)`; an interior one has alpha 0.3 and blue `1 - red` |
| Spectrum.BandTotal | src/MagneticMesh.cpp:167-172 | each summing loop computes `Spectrum.Sum` of its bands |
| Spectrum.Reduced | src/MagneticMesh.cpp:153-182 | the loudness pair of each audio case (definition; `Spectrum.Loudness` is proved to meet it) |
| Spectrum.Loudness | src/MagneticMesh.cpp:153-182 | without audio support both values are 5; with no PCM buffer or no FFT both are 0; otherwise bass and treble are the means of bands 0-255 and 256-511 |
| Spectrum.ReducedSplitsSpectrum | src/MagneticMesh.cpp:167-177 | bass plus treble is the sum of all 512 bands divided by 256 |
| Spectrum.ReducedNonNegative | src/MagneticMesh.cpp:154-182 | with non-negative band magnitudes both loudness values are non-negative |
| Mesh.PinchPulls | src/MagneticMesh.cpp:101-107 | the pinch loop adds the pull of every pinch, in list order: the result is the fold `Grid.Attract` |
| Mesh.Launch | src/MagneticMesh.cpp:211 | the application is created at 200 by 400 and set up: the mesh is sized for 80000 vertices, its vertex buffer is empty and its index list is `Grid.MeshIndices`; each vector holds one particle per cell at its linear index (lattice point, at rest, white); the hands are scaled by 2 and translated by `(0, -400, -100)` |
| Mesh.MagneticMesh.constructor | src/MagneticMesh.h:38-45 | a new application has empty particle vectors and a fresh hand controller with scale 1 |
| Mesh.MagneticMesh.Setup | src/MagneticMesh.cpp:37-51 | after setup the mesh is sized for `W * H` vertices and nothing is yet written to its vertex buffer; each vector holds one particle per cell at its linear index (lattice point, at rest, white), the index list is the quad list, and the hands are scaled by 2 and translated by `(0, -400, -100)` |
| Mesh.MagneticMesh.CreateMesh | src/MagneticMesh.cpp:59-92 | the mesh is sized for `W * H` vertices and `4 * (W - 1) * (H - 1)` indices; the index list is the quad list and names only existing particles; the lattice, zero velocities and white colours are appended to the three vectors |
| Mesh.MagneticMesh.IndexList | src/MagneticMesh.cpp:69-78 | the nested index loops build exactly `Grid.MeshIndices`, the quads column by column |
| Mesh.MagneticMesh.QuadColumnList | src/MagneticMesh.cpp:72-77 | the inner index loop emits the quads of column `x`, four corners each |
| Mesh.MagneticMesh.AppendParticles | src/MagneticMesh.cpp:80-89 | the particle loops append `Grid.Lattice` (every column of lattice points, in order), `W * H` zero velocities and `W * H` white colours |
| Mesh.MagneticMesh.AppendColumn | src/MagneticMesh.cpp:81-88 | the inner particle loop appends column `x`, bottom to top |
| Mesh.MagneticMesh.UpdateMesh | src/MagneticMesh.cpp:94-151 | after a tick the state satisfies `Mesh.MagneticMesh.Ticked`: every velocity and colour follows `Grid.ParticleVelocity` and `Grid.ParticleColor` computed from the positions before the tick, every position moved by its new velocity, and the vertex buffer holds each particle's position before the move with its new colour |
| Mesh.MagneticMesh.UpdateParticles | src/MagneticMesh.cpp:95-140 | the first loop sets the velocity and colour of every particle from the unchanged positions, which it does not write |
| Mesh.MagneticMesh.UpdateColumn | src/MagneticMesh.cpp:98-139 | one pass of the inner loop updates exactly the particles of column `x`, with the counter at `xH + y` for particle `(x, y)` |
| Mesh.MagneticMesh.UpdateParticle | src/MagneticMesh.cpp:100-139 | only slot `i` changes: its velocity gets the pinch pulls, then the springs, then damping by 0.99, and its colour follows the colour rule |
| Mesh.MagneticMesh.NeighbourSprings | src/MagneticMesh.cpp:109-125 | the four guarded spring terms add the springs of exactly the neighbours that exist: the result is `Grid.Springs` over `Grid.Neighbours` |
| Mesh.MagneticMesh.ColumnSprings | src/MagneticMesh.cpp:110-117 | the reads at `i - 1` and `i + 1` are the springs to the particles below and above |
| Mesh.MagneticMesh.RowSprings | src/MagneticMesh.cpp:118-125 | the reads at `i - H` and `i + H` are the springs to the particles left and right |
| Mesh.MagneticMesh.Colour | src/MagneticMesh.cpp:127-137 | the colour computed in the loop body is `Grid.ParticleColor`: opaque exactly on the boundary, `(treble, treble, treble, 1)` there, and alpha 0.3 with blue `1 - red` inside |
| Mesh.MagneticMesh.MoveParticles | src/MagneticMesh.cpp:142-150 | each vertex gets the position from before the move and the current colour; then each position is advanced once by its velocity |
| Mesh.MagneticMesh.Update | src/MagneticMesh.cpp:153-185 | a frame reduces the audio as `Loudness` states, reads one pinch per hand through the controller's map, and advances the mesh by one tick with them |

## Left out

- Rendering: `prepareSettings`, `resize`, `draw`, `drawHands`, `drawJoint`, `drawBone` and the GL calls. The vertex buffer is modelled as the sequence of (position, colour) pairs written to it.
- Audio I/O: loading the track, PCM buffering and `audio::calculateFft` are foreign calls. An `AudioFrame` says which case occurred and carries the 512 bands.
- The Leap SDK: the current frame is passed to `GetPinches` as a list of hands (pinch strength and finger tips).
- Hands.HandController.GetPinches: requires every hand to report at least two fingers, because the sensor always reports all five.
- Floating-point behaviour: the model computes over the reals. `length`, `normalized` and `powf` are unspecified functions. This covers a zero-length offset and the division `5.0f / bass_total` when the bass is 0, because the colour curve is given the loudness, not its reciprocal.
- Integer widths: at 200 by 400 no `int` in the source overflows, so the model uses unbounded integers.
- Mesh.MagneticMesh.Setup: requires the particle vectors to be empty, because `setup` runs once, on the application as constructed.
- The lattice size: the class takes `W` and `H`; `Mesh.Launch` builds it with the application's 200 by 400 (`MESH_PARTICLE_WIDTH`, `MESH_PARTICLE_HEIGHT`).
- `initMesh` (declared at src/MagneticMesh.h:35 but never defined) and the unused `controller_` member (src/MagneticMesh.h:41).
- Physical claims such as energy decay or a monotone pull toward a pinch: they depend on floating point and tuning, not on the program's structure.
- Mesh.MagneticMesh.UpdateParticle: the source adds each force to `velocities_[i]` in place. The model adds them to a local value and stores it once. Nothing else reads slot `i` in between, so the resulting state is the same.
