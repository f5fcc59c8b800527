# Particle simulation: the grid, the particles and their update

This project models the core of a 2-D particle-life simulation in Dafny.
Particles of six coloured groups move on a torus the size of the window. Each
group attracts or repels every other group with a strength read from a 6 × 6
attraction matrix. The core has three parts:

- **Particles** (`particle.dfy`, module `Particles`). A `Particle` is a mutable
  record: position, velocity, drawing radius, group, glow flag, and a colour
  that matches its group (`Valid`). The constructor and `SetGroup` establish
  and keep that match. The class keeps its fields and setters. `State()` reads
  the fields as a `PState` value. The manager's `ParticlesValid` says every
  listed particle matches its group. Its constructor, `CreateParticles`,
  `ChangeGlow` and the moves keep it. For an update, `StepKeepsColour` proves
  that the step keeps the snapshot coloured, and `ColouredSnapshot` ties that
  to `ParticlesValid`.
- **The spatial-partitioning grid** (`grid.dfy`, module `Grids`).
  - `Grid` cuts the frame into square cells of side `rMax`: `ceil(width / rMax)`
    columns and `ceil(height / rMax)` rows.
  - It stores each particle in the bucket of its row-major cell index.
  - It answers a neighbour query with the contents of the 3 × 3 block of cells
    around the particle's cell, wrapping at the edges, with the particle itself
    removed once.
  - Next to the class sit the value-level definitions it is proved against:
    `Buckets`, `BlockCells`, `Gather`, `RemoveFirst` and `NeighborList`.
- **The manager** (`manager.dfy`, module `Manager`, with the pure laws in
  `kernel.dfy`, module `Kernel`).
  - `ParticleManager` owns the particle list and the tunables: `rMax`,
    `friction`, `forceFactor`, `dt` and the attraction matrix.
  - `Update` builds a fresh grid, then lets every particle take its turn in
    list order:
    1. It sums the piecewise force of its neighbours along the minimum-image
       displacement on the torus.
    2. It applies friction and the scaled force to its velocity.
    3. It moves one time step and wraps back onto the frame.
  - The turns happen in place. A particle later in the list therefore sees the
    positions the earlier particles already moved to. The grid, though, stays as
    it was built from the positions before the update.
  - `Step`/`Advance` state this order on a snapshot `map<Particle, PState>` of
    the heap. `Update` is proved to leave exactly that snapshot.

`javamath.dfy` (module `JavaMath`) defines the Java operators the core relies
on:

- the `(int)` cast, which rounds toward zero;
- `Math.ceil`;
- `int` `/` and `%`, which truncate;
- `double` `%`, whose result takes the sign of the dividend.

For the cast and `Math.ceil`, the model proves that they round toward zero and
upward. For `int` `/` and `%` with a positive divisor, it proves four things:
both are odd in the dividend, they recompose the dividend, the remainder has the
dividend's sign and lies strictly within the divisor, and the quotient is the
real quotient rounded toward zero. For `double` `%`, it proves the sign and the
bound of the remainder, and that it differs from the dividend by a whole number
of divisors.

The model also shows some behaviour that a reader might not expect:

- **The far edge.** `setInFrame` tests `x > width` and `x < 0`, so a particle
  exactly on the far edge `x == width` stays there (`FrameAxisInFrame`).
- **The core repulsion.** Below 0.2 · `rMax` every pair repels, whatever its
  attraction (`ForceRepulsive`). A matrix of zeros therefore does not leave
  particles at rest.
- **A narrow last column.** The neighbour query looks only one cell each way.
  When the frame's width is not a multiple of `rMax`, the last column is
  narrower than `rMax`. Two particles closer than `rMax` across the wrap can
  then sit two columns apart. The one in the narrow column is then not listed
  among the other's neighbours (`NarrowColumnMissesNeighbor`). The same
  happens across a narrow last row (`NarrowRowMissesNeighbor`).
- **Whole cells.** Suppose the width and height are whole multiples of `rMax`,
  and every particle has `0 <= x < width` and `0 <= y < height`. Then nothing
  is missed: a particle less than `rMax` from another along each axis,
  measured the short way round, is in the other's neighbour list
  (`NeighborCovered`, `GridListsCloseParticles`).
- **Particles on the far edge.** The update does not keep particles in that
  range. `setInFrame` leaves a particle at `x == width`, and `moveParticlesX`
  and `moveParticlesY` do not wrap at all. A particle at `x == width` gets
  column `cols`, one past the last, so its row-major index is the first bucket
  of the next row. The neighbour query can then miss it
  (`FarEdgeMissesNeighbor`). In the last row, its index is one past the last
  bucket, and the grid's constructor fails with an index exception.
- **Small grids.** On a grid narrower or lower than three cells, the 3 × 3
  walk visits some bucket twice, so a neighbour can be listed twice
  (`BlockCellsDistinctIff`).

## Model

| member | source | states |
|---|---|---|
| Particles.GroupColorWhiteIff | particlesimulation/src/main/java/project/particles/Particle.java:81-88 | a group is drawn white exactly when it is not one of the six palette indices 0..5 |
| Particles.Particle.GetGroupColor | particlesimulation/src/main/java/project/particles/Particle.java:81-88 | the palette scan returns the palette entry of groups 0..5 and white for any other group, including negative ones |
| Particles.GroupColor | particlesimulation/src/main/java/project/particles/Particle.java:81-88 | the colour of a group: its palette entry for groups 0..5, white otherwise (definition; `GroupColorWhiteIff` and `GetGroupColor` state its laws) |
| Particles.Particle.constructor | particlesimulation/src/main/java/project/particles/Particle.java:32-41 | every field holds its argument, and the colour is the one the group calls for |
| Particles.Particle.SetX | particlesimulation/src/main/java/project/particles/Particle.java:96-98 | x takes the new value; every other field is unchanged |
| Particles.Particle.SetY | particlesimulation/src/main/java/project/particles/Particle.java:104-106 | y takes the new value; every other field is unchanged |
| Particles.Particle.SetRadius | particlesimulation/src/main/java/project/particles/Particle.java:112-114 | the radius takes the new value; every other field is unchanged |
| Particles.Particle.SetXspeed | particlesimulation/src/main/java/project/particles/Particle.java:124-126 | the x speed takes the new value; every other field is unchanged |
| Particles.Particle.SetYspeed | particlesimulation/src/main/java/project/particles/Particle.java:132-134 | the y speed takes the new value; every other field is unchanged |
| Particles.Particle.SetGroup | particlesimulation/src/main/java/project/particles/Particle.java:140-143 | the group changes and the colour follows it, so the colour still matches the group; nothing else changes |
| Particles.Particle.SetGlow | particlesimulation/src/main/java/project/particles/Particle.java:149-151 | the glow flag takes the new value; every other field is unchanged |
| JavaMath.Trunc | particlesimulation/src/main/java/project/particles/Grid.java:76-77 | the `(int)` cast of a double rounds toward zero: the result is the whole number at most one below a non-negative input, or at most one above a negative one |
| JavaMath.Ceil | particlesimulation/src/main/java/project/particles/Grid.java:22-23 | `Math.ceil` gives the least whole number at or above its input |
| JavaMath.QuotRem | particlesimulation/src/main/java/project/particles/Grid.java:55-56 | repeated subtraction splits a non-negative dividend into divisor × quotient + remainder, remainder in [0, divisor) |
| JavaMath.QuotUnique | particlesimulation/src/main/java/project/particles/Grid.java:55-56 | that split is unique |
| JavaMath.NonNegativeIntDivRem | particlesimulation/src/main/java/project/particles/Grid.java:55-56 | on a non-negative index, Java's `/` and `%` are that quotient and remainder |
| JavaMath.DivRemUnique | particlesimulation/src/main/java/project/particles/Grid.java:55-56 | Java's `/` and `%` recover the quotient and remainder of any such split |
| JavaMath.IntDiv | particlesimulation/src/main/java/project/particles/Grid.java:55-56 | Java's `int` `/`: the quotient of the magnitudes, negated when the signs differ (definition; its laws are the two lemmas below) |
| JavaMath.IntRem | particlesimulation/src/main/java/project/particles/Grid.java:55-56 | Java's `int` `%`: the remainder of the magnitudes, with the dividend's sign (definition; its laws are the two lemmas below) |
| JavaMath.IntDivRemSigned | particlesimulation/src/main/java/project/particles/Grid.java:55-56 | for a positive divisor, `/` and `%` are odd in the dividend, recompose it, and the remainder lies strictly within the divisor with the dividend's sign |
| JavaMath.IntDivRoundsTowardZero | particlesimulation/src/main/java/project/particles/Grid.java:55-56 | for a positive divisor, `/` is the real quotient rounded toward zero |
| JavaMath.FloatRem | particlesimulation/src/main/java/project/particles/ParticleManager.java:153-166 | Java's `double` `%` by the frame extent, taking whole extents off toward zero (definition; its laws are the `FloatRem` lemmas below) |
| JavaMath.FloatRemTruncates | particlesimulation/src/main/java/project/particles/ParticleManager.java:153-166 | the double remainder used by `setInFrame` is Java's `x - w * (int)(x / w)`, the remainder of the truncated quotient |
| JavaMath.FloatRemNonNegative | particlesimulation/src/main/java/project/particles/ParticleManager.java:154-155 | the remainder of a non-negative coordinate by the frame extent lies in [0, w) |
| JavaMath.FloatRemNegative | particlesimulation/src/main/java/project/particles/ParticleManager.java:157-158 | the remainder of a negative coordinate lies in (-w, 0], the sign of the dividend |
| JavaMath.FloatRemShift | particlesimulation/src/main/java/project/particles/ParticleManager.java:153-166 | the remainder differs from the coordinate by a whole number of extents |
| Grids.CellsAcross | particlesimulation/src/main/java/project/particles/Grid.java:22-23 | a positive extent always needs at least one cell |
| Grids.CellsAcrossCover | particlesimulation/src/main/java/project/particles/Grid.java:22-23 | the cells across an extent cover it, and one cell fewer would not |
| Grids.ColumnInRange | particlesimulation/src/main/java/project/particles/Grid.java:76-77 | a coordinate in [0, extent) falls into one of the cells across the extent |
| Grids.RowMajor | particlesimulation/src/main/java/project/particles/Grid.java:55-56 | for a cell of the grid, `index % cols` and `index / cols` give back its column and row, and the index is in range |
| Grids.RowMajorInjective | particlesimulation/src/main/java/project/particles/Grid.java:78 | distinct cells have distinct row-major indices |
| Grids.RowMajorBounds | particlesimulation/src/main/java/project/particles/Grid.java:55-56 | a valid bucket index splits into a column and a row inside the grid that recompose to it |
| Grids.CellOf | particlesimulation/src/main/java/project/particles/Grid.java:54-56 | the column and row of a valid index lie in the grid and recompose to the index |
| Grids.CellIndexDecomposes | particlesimulation/src/main/java/project/particles/Grid.java:75-79 | the index of a position in the grid is in range, and `%` and `/` by `cols` recover the position's column and row |
| Grids.CellIndex | particlesimulation/src/main/java/project/particles/Grid.java:75-79 | row-major cell index `row * cols + col` of a position, column and row truncated from the position over the cell size (definition; `CellIndexDecomposes` states its law) |
| Grids.FramePositionInRange | particlesimulation/src/main/java/project/particles/Grid.java:21-23 | every position strictly inside the frame lies in a cell of the grid built over the frame |
| Grids.Wrap | particlesimulation/src/main/java/project/particles/Grid.java:60-61 | a column or row at most one step off the grid wraps to a cell inside it |
| Grids.JavaWrapIsWrap | particlesimulation/src/main/java/project/particles/Grid.java:60-61 | Java's `(i + n) % n` is that wrap for every index from -1 to n |
| Grids.WrapAround | particlesimulation/src/main/java/project/particles/Grid.java:60-61 | the computed `(i + n) % n` is the wrapped index |
| Grids.BlockCells | particlesimulation/src/main/java/project/particles/Grid.java:58-64 | the walk visits nine buckets, every one of them inside the grid |
| Grids.BlockCellsVisit | particlesimulation/src/main/java/project/particles/Grid.java:58-62 | visit number 3·(i - col + 1) + (j - row + 1) is the bucket of wrapped column i and wrapped row j |
| Grids.BlockCellsInRange | particlesimulation/src/main/java/project/particles/Grid.java:58-62 | every bucket the walk visits is in bounds |
| Grids.BlockCellsCentre | particlesimulation/src/main/java/project/particles/Grid.java:58-62 | the query's own cell is among the nine, as the fifth visit |
| Grids.BlockCellsDistinctIff | particlesimulation/src/main/java/project/particles/Grid.java:58-64 | the nine visited buckets are all different exactly when the grid is at least three cells wide and three high |
| Grids.WrappedTripleDistinct | particlesimulation/src/main/java/project/particles/Grid.java:58-61 | on an axis of at least three cells, the three wrapped offsets are different |
| Grids.WrappedTripleRepeats | particlesimulation/src/main/java/project/particles/Grid.java:58-61 | on an axis of fewer than three cells, two of the three wrapped offsets coincide |
| Grids.EmptyBuckets | particlesimulation/src/main/java/project/particles/Grid.java:26-29 | `cols * rows` buckets, all empty |
| Grids.Insert | particlesimulation/src/main/java/project/particles/Grid.java:40-43 | `HashSet.add` on a bucket: the particle is appended unless already present (definition; `BucketsNoDuplicates` and `BucketsMembership` state its laws) |
| Grids.Buckets | particlesimulation/src/main/java/project/particles/Grid.java:26-33 | the buckets after adding the particles in order number `cols * rows` |
| Grids.BucketsMembership | particlesimulation/src/main/java/project/particles/Grid.java:31-33 | a particle is in a bucket exactly when some entry of the list holding it was sent to that bucket |
| Grids.BucketsNoDuplicates | particlesimulation/src/main/java/project/particles/Grid.java:40-43 | since `HashSet.add` ignores a particle already present, no bucket holds a particle twice |
| Grids.ParticleInExactlyOneBucket | particlesimulation/src/main/java/project/particles/Grid.java:31-33 | each particle is in the bucket of its index and in no other |
| Grids.BucketsDisjoint | particlesimulation/src/main/java/project/particles/Grid.java:31-33 | the buckets are duplicate-free and pairwise disjoint |
| Grids.GatherContents | particlesimulation/src/main/java/project/particles/Grid.java:58-64 | the gathered list holds exactly the particles of the visited buckets, and is as long as they are together |
| Grids.GatherNoDuplicates | particlesimulation/src/main/java/project/particles/Grid.java:58-64 | distinct visits to disjoint duplicate-free buckets gather a duplicate-free list |
| Grids.RemoveFirstMultiset | particlesimulation/src/main/java/project/particles/Grid.java:66 | `remove(Object)` takes exactly one copy of the particle out of the list, if it holds one |
| Grids.RemoveFirstLength | particlesimulation/src/main/java/project/particles/Grid.java:66 | the list shrinks by one when it holds the particle and is left alone otherwise |
| Grids.RemoveFirstAt | particlesimulation/src/main/java/project/particles/Grid.java:66 | the first occurrence is the one cut out |
| Grids.RemoveFirstUnique | particlesimulation/src/main/java/project/particles/Grid.java:66 | in a duplicate-free list no copy of the particle is left |
| Grids.RemoveFirst | particlesimulation/src/main/java/project/particles/Grid.java:66 | `List.remove(Object)`: the first copy of the particle is cut out, if any (definition; the `RemoveFirst` lemmas state its laws) |
| Grids.NeighborListMultiset | particlesimulation/src/main/java/project/particles/Grid.java:52-68 | the neighbour list is the nine buckets' contents less one copy of the queried particle |
| Grids.NeighborListMember | particlesimulation/src/main/java/project/particles/Grid.java:52-68 | another particle is a neighbour exactly when it is stored in one of the nine buckets |
| Grids.NeighborListLength | particlesimulation/src/main/java/project/particles/Grid.java:52-68 | the list is as long as the nine buckets together, less one when the particle was among them, which it is whenever it lies in its own cell's bucket |
| Grids.NeighborList | particlesimulation/src/main/java/project/particles/Grid.java:52-68 | the nine wrapped buckets around a cell gathered in visiting order, less one copy of the particle (definition; the `NeighborList` lemmas state its laws) |
| Grids.NoSelfNeighbor | particlesimulation/src/main/java/project/particles/Grid.java:65-66 | on a grid at least three by three with disjoint duplicate-free buckets, a particle is never its own neighbour |
| Grids.NeighborInBlock | particlesimulation/src/main/java/project/particles/Grid.java:58-66 | every neighbour lies in one of the nine buckets |
| Grids.NeighborFromList | particlesimulation/src/main/java/project/particles/Grid.java:21-68 | every neighbour of a grid built from a list is a particle of that list |
| Grids.Indices | particlesimulation/src/main/java/project/particles/Grid.java:31-33 | one bucket index per particle, in list order |
| Grids.IndicesValid | particlesimulation/src/main/java/project/particles/Grid.java:31-33 | positions inside the grid give valid indices, the same particle always the same one |
| Grids.Grid.constructor | particlesimulation/src/main/java/project/particles/Grid.java:21-34 | the grid is `ceil(width / cellSize)` by `ceil(height / cellSize)` cells, and its buckets are those of adding every particle in list order |
| Grids.Grid.AddParticle | particlesimulation/src/main/java/project/particles/Grid.java:40-43 | the particle joins the bucket of its cell index, unless already there; no other bucket changes |
| Grids.Grid.GetCellIndex | particlesimulation/src/main/java/project/particles/Grid.java:75-79 | the row-major index of the particle's cell, in range whenever the position is in the grid |
| Grids.Grid.GetNeighbors | particlesimulation/src/main/java/project/particles/Grid.java:52-68 | the result is the neighbour list of the particle's cell: the nine wrapped buckets in visiting order, with the particle removed once |
| Kernel.ForceVanishes | particlesimulation/src/main/java/project/particles/ParticleManager.java:137-146 | there is no force at or beyond `rMax`, and none exactly at the breakpoint 0.2 |
| Kernel.ForceRepulsive | particlesimulation/src/main/java/project/particles/ParticleManager.java:139-140 | below the breakpoint the force is a repulsion in [-1, 0), linear in the distance and independent of the attraction |
| Kernel.ForceBounded | particlesimulation/src/main/java/project/particles/ParticleManager.java:141-142 | between the breakpoint and `rMax` the force has the sign of the attraction and is no stronger than it |
| Kernel.ForcePeak | particlesimulation/src/main/java/project/particles/ParticleManager.java:141-142 | at relative distance 0.6 the force equals the attraction |
| Kernel.Force | particlesimulation/src/main/java/project/particles/ParticleManager.java:137-146 | the force law on the relative distance: a linear repulsion below 0.2, a tent peaking at the attraction between 0.2 and 1, zero elsewhere (definition; the `Force` lemmas state its laws) |
| Kernel.CheckDeltaMinimumImage | particlesimulation/src/main/java/project/particles/ParticleManager.java:171-192 | for two points of the frame, the corrected displacement is one of the three images, within half an extent, and no longer than any image |
| Kernel.CheckDeltaOdd | particlesimulation/src/main/java/project/particles/ParticleManager.java:171-192 | reversing the displacement reverses the correction |
| Kernel.CheckDelta | particlesimulation/src/main/java/project/particles/ParticleManager.java:171-192 | the minimum-image correction of a displacement on one axis: more than half an extent one way is taken the other way round (definition; `CheckDeltaMinimumImage` and `CheckDeltaOdd` state its laws) |
| Kernel.FrameAxisKeeps | particlesimulation/src/main/java/project/particles/ParticleManager.java:153-166 | a coordinate already in [0, w] is left alone |
| Kernel.FrameAxisWraps | particlesimulation/src/main/java/project/particles/ParticleManager.java:153-166 | a coordinate off the axis, on either side, is brought into [0, w) |
| Kernel.FrameAxisInFrame | particlesimulation/src/main/java/project/particles/ParticleManager.java:153-166 | every wrapped coordinate lies in [0, w], and equals w exactly when it was w |
| Kernel.FrameAxisShift | particlesimulation/src/main/java/project/particles/ParticleManager.java:153-166 | the wrap moves a coordinate by a whole number of extents, so it reappears on the other side |
| Kernel.FrameAxis | particlesimulation/src/main/java/project/particles/ParticleManager.java:153-166 | `setInFrame` on one axis: a coordinate beyond the far edge takes `%`, a negative one is wrapped by `(v % w + w) % w` (definition; the `FrameAxis` lemmas state its laws) |
| Kernel.ContributionVanishes | particlesimulation/src/main/java/project/particles/ParticleManager.java:123-128 | a neighbour at distance 0, or at `rMax` or beyond, adds nothing to the total force |
| Kernel.PushOpposite | particlesimulation/src/main/java/project/particles/ParticleManager.java:123-127 | the reversed displacement is pushed the opposite way |
| Kernel.PushMagnitude | particlesimulation/src/main/java/project/particles/ParticleManager.java:123-127 | with an exact square root, the pushed vector has the magnitude of the force law, so the direction is a unit vector |
| Kernel.ContributionOpposite | particlesimulation/src/main/java/project/particles/ParticleManager.java:118-129 | with a symmetric attraction, two particles push each other with opposite forces |
| Kernel.Contribution | particlesimulation/src/main/java/project/particles/ParticleManager.java:118-129 | the force one neighbour adds: the force law pushed along the minimum-image displacement between the two (definition; the `Contribution` and `Push` lemmas state its laws) |
| Kernel.NetForceVanishes | particlesimulation/src/main/java/project/particles/ParticleManager.java:86-90 | neighbours that each contribute nothing give no total force |
| Kernel.PartialForceVanishes | particlesimulation/src/main/java/project/particles/ParticleManager.java:86-90 | the same for every prefix of the neighbour list |
| Kernel.AccelerateWithoutForce | particlesimulation/src/main/java/project/particles/ParticleManager.java:92-97 | with no force, only friction acts, and a friction factor in [0, 1] never speeds a particle up |
| Kernel.Accelerate | particlesimulation/src/main/java/project/particles/ParticleManager.java:92-97 | one speed component after `updateVelocity`: friction, plus the scaled force times `dt` (definition; `AccelerateWithoutForce` states its law) |
| Manager.AdvanceFrame | particlesimulation/src/main/java/project/particles/ParticleManager.java:71-74 | a turn changes only the particle taking it |
| Manager.Advance | particlesimulation/src/main/java/project/particles/ParticleManager.java:71-74 | one particle's turn on a snapshot: its new velocity from the net force of its neighbours, then one time step wrapped onto the frame (definition; the `Advance` lemmas state its laws) |
| Manager.Step | particlesimulation/src/main/java/project/particles/ParticleManager.java:68-75 | the update on a snapshot: every listed particle takes its turn, in list order, each seeing the states the earlier turns left (definition; the `Step` lemmas state its laws) |
| Manager.AdvanceMoves | particlesimulation/src/main/java/project/particles/ParticleManager.java:82-108 | after its turn a particle has the velocity that friction and the net force give it, lies on the frame (its far edge included), and keeps its radius, colour, group and glow |
| Manager.AdvanceWithoutNeighbors | particlesimulation/src/main/java/project/particles/ParticleManager.java:82-98 | a particle with no neighbours keeps its speed scaled by the friction factor |
| Manager.StepFrame | particlesimulation/src/main/java/project/particles/ParticleManager.java:71-74 | an update knows the same particles, and a particle that takes no turn keeps its state |
| Manager.StepKeepsKind | particlesimulation/src/main/java/project/particles/ParticleManager.java:68-75 | an update changes no particle's radius, colour, group or glow |
| Manager.StepKeepsCover | particlesimulation/src/main/java/project/particles/ParticleManager.java:68-75 | once every pair of groups has an attraction entry, it still has one after an update |
| Manager.StepOnFrame | particlesimulation/src/main/java/project/particles/ParticleManager.java:68-75 | after an update every particle that took its turn lies on the frame |
| Manager.StepKeepsColour | particlesimulation/src/main/java/project/particles/ParticleManager.java:68-75 | when every particle of a snapshot has its group's colour, every particle still has it after an update |
| Manager.ColouredSnapshot | particlesimulation/src/main/java/project/particles/Particle.java:81-88 | the snapshot of a list is coloured exactly when every listed particle has its group's colour |
| Manager.Samples | particlesimulation/src/main/java/project/particles/ParticleManager.java:88-89 | each neighbour's position and group, read from its fields |
| Manager.LookupSnapshot | particlesimulation/src/main/java/project/particles/ParticleManager.java:88-89 | looking neighbours up in the snapshot reads their own fields |
| Manager.NeighborsIndexable | particlesimulation/src/main/java/project/particles/ParticleManager.java:89 | when the particle's row of the attraction matrix covers every stored particle's group, it covers every neighbour's |
| Manager.ColumnBelow | particlesimulation/src/main/java/project/particles/Grid.java:76-77 | a coordinate inside `n` whole cells falls in one of the `n` columns |
| Manager.AxisNeighbor | particlesimulation/src/main/java/project/particles/Grid.java:58-61 | on an axis of `n` whole cells, a point less than one cell from another, the short way round, lies in one of the three wrapped columns the walk visits around the other's column |
| Manager.NeighborCovered | particlesimulation/src/main/java/project/particles/Grid.java:52-68 | when the frame is whole cells wide and high and every position has `0 <= x < width` and `0 <= y < height`, a particle less than one cell from another along each axis, the short way round, is in the neighbour list of the other's cell |
| Manager.CellsAcrossExact | particlesimulation/src/main/java/project/particles/Grid.java:22-23 | an extent of `n` whole cells is cut into exactly `n` cells |
| Manager.GridListsCloseParticles | particlesimulation/src/main/java/project/particles/Grid.java:21-68 | the same for the grid built from the particles' fields, for particles with `0 <= x < width` and `0 <= y < height`: it is exactly `cols` by `rows`, every particle's index is valid, and a particle less than one cell from another along each axis, the short way round, is among the other's neighbours |
| Manager.NarrowColumnMissesNeighbor | particlesimulation/src/main/java/project/particles/Grid.java:52-68 | on a 310 by 310 frame with `rMax` 100, a particle at (299, 5) is 16 from one at (5, 5) across the wrap and would push it with force (0.2, 0). Yet in a grid that stores it in its own bucket only, it is not among that particle's neighbours |
| Manager.NarrowRowMissesNeighbor | particlesimulation/src/main/java/project/particles/Grid.java:52-68 | the same across a narrow last row: a particle at (5, 299) is 16 from one at (5, 5) across the wrap and would push it with force (0, 0.2). Yet in a grid that stores it in its own bucket only, it is not among that particle's neighbours |
| Manager.FarEdgeMissesNeighbor | particlesimulation/src/main/java/project/particles/Grid.java:75-79 | on a 500 by 500 frame with `rMax` 100, which `setInFrame` leaves a particle at x = 500 on, a particle at (500, 201) gets index 15, cell (0, 3), though it is 1 from one at (1, 199) in cell (0, 1) across the wrap and 2 along y. In a grid that stores it in its own bucket only, it is not among that particle's neighbours. A particle at (500, 450) gets index 25, one past the last bucket |
| Manager.ToggledTwice | particlesimulation/src/main/java/project/particles/ParticleManager.java:245-253 | switching the glow twice gives the particle back its state |
| Manager.TranslatedBack | particlesimulation/src/main/java/project/particles/ParticleManager.java:259-273 | moving by an offset and back leaves the particle where it was |
| Manager.TranslatedTwice | particlesimulation/src/main/java/project/particles/ParticleManager.java:259-273 | two moves add up to one move by the summed offset |
| Manager.Level | particlesimulation/src/main/java/project/particles/ParticleManager.java:237 | a draw from [-5, 5) divided by 5.0 is a level in [-1.0, 0.8] that is a fifth of the draw |
| Manager.Levels | particlesimulation/src/main/java/project/particles/ParticleManager.java:234-240 | the randomised matrix has the draws' shape, with every entry in [-1.0, 0.8] and a fifth of its draw |
| Manager.SameShapeCovers | particlesimulation/src/main/java/project/particles/ParticleManager.java:234-240 | a matrix of the same shape covers the same pairs of groups, so randomising the rules keeps every lookup in bounds |
| Manager.ParticleManager.constructor | particlesimulation/src/main/java/project/particles/ParticleManager.java:11-42 | the manager starts with no particles, no grid, rMax 172, friction 0.90, force factor 1, dt 0.01, zero totals and the identity attraction matrix |
| Manager.ParticleManager.CreateParticles | particlesimulation/src/main/java/project/particles/ParticleManager.java:50-63 | 6 × 600 fresh particles are appended, group by group: particle k at the k-th drawn position, radius 2, at rest, glow off, in group k / 600 with its colour |
| Manager.ParticleManager.Update | particlesimulation/src/main/java/project/particles/ParticleManager.java:68-75 | a fresh grid of cell size `rMax` is built from the positions before the update, and the particles' new states are the step in which each particle, in list order, takes its turn on that grid |
| Manager.ParticleManager.BuildGrid | particlesimulation/src/main/java/project/particles/ParticleManager.java:69 | the new grid is stored; it has `rMax`-sized cells, `ceil(width / rMax)` columns, the buckets of adding every particle at its position before the update, only listed particles, and a bucket for every particle's index; no particle's state changes |
| Manager.ParticleManager.Turns | particlesimulation/src/main/java/project/particles/ParticleManager.java:71-74 | after the loop the particles' states are the step over the whole list |
| Manager.ParticleManager.NextTurn | particlesimulation/src/main/java/project/particles/ParticleManager.java:71-74 | one pass of the loop extends the step by the next particle's turn |
| Manager.ParticleManager.UpdateTurn | particlesimulation/src/main/java/project/particles/ParticleManager.java:72-73 | the states change by exactly the turn of particle i |
| Manager.ParticleManager.Turn | particlesimulation/src/main/java/project/particles/ParticleManager.java:72-73 | the particle ends with the velocity the net force of its neighbours gives it and the position one step later, wrapped onto the frame |
| Manager.ParticleManager.CalculateDistance | particlesimulation/src/main/java/project/particles/ParticleManager.java:118-129 | the totals grow by the force the neighbour exerts along the minimum-image displacement |
| Manager.ParticleManager.AddNeighborForce | particlesimulation/src/main/java/project/particles/ParticleManager.java:88-90 | one pass of the neighbour loop adds that neighbour's contribution to the running total |
| Manager.ParticleManager.SumForces | particlesimulation/src/main/java/project/particles/ParticleManager.java:83-90 | the totals, started at zero, end as the net force of the neighbour list |
| Manager.ParticleManager.ApplyForce | particlesimulation/src/main/java/project/particles/ParticleManager.java:92-97 | the totals are scaled by `rMax * forceFactor`, and the speeds get friction and then the scaled force times `dt` |
| Manager.ParticleManager.UpdateVelocity | particlesimulation/src/main/java/project/particles/ParticleManager.java:82-98 | the particle's velocity is the one the net force of its grid neighbours gives it; its position is unchanged |
| Manager.ParticleManager.UpdatePosition | particlesimulation/src/main/java/project/particles/ParticleManager.java:104-108 | the particle moves one time step at its speed and is wrapped onto the frame |
| Manager.ParticleManager.SetInFrame | particlesimulation/src/main/java/project/particles/ParticleManager.java:153-166 | each coordinate is wrapped onto its axis, independently of the other |
| Manager.ParticleManager.ChangeAttraction | particlesimulation/src/main/java/project/particles/ParticleManager.java:234-240 | every entry of the attraction matrix becomes the level of its draw, and the matrix keeps its shape |
| Manager.ParticleManager.ChangeGlow | particlesimulation/src/main/java/project/particles/ParticleManager.java:245-253 | every particle's glow is switched, and nothing else about it changes |
| Manager.ParticleManager.MoveParticlesX | particlesimulation/src/main/java/project/particles/ParticleManager.java:259-263 | every particle moves `value` along the x axis, and nothing else about it changes |
| Manager.ParticleManager.MoveParticlesY | particlesimulation/src/main/java/project/particles/ParticleManager.java:269-273 | every particle moves `value` along the y axis, and nothing else about it changes |
| Manager.ParticleManager.SetAttraction | particlesimulation/src/main/java/project/particles/ParticleManager.java:292-294 | the matrix is replaced by the given one |
| Manager.ParticleManager.SetFriction | particlesimulation/src/main/java/project/particles/ParticleManager.java:300-302 | `GetFriction` then returns the new value |
| Manager.ParticleManager.SetForceFactor | particlesimulation/src/main/java/project/particles/ParticleManager.java:308-310 | `GetForceFactor` then returns the new value |
| Manager.ParticleManager.SetDt | particlesimulation/src/main/java/project/particles/ParticleManager.java:316-318 | `GetDt` then returns the new value |
| Manager.ParticleManager.SetRMax | particlesimulation/src/main/java/project/particles/ParticleManager.java:324-326 | `GetRMax` then returns the new radius, whatever its value |

## Left out

- Rendering is not modelled. That covers `Particle.render` and its glow,
  `Grid.render`, `ParticleManager.render`, `showInfo` and `getGridColor`, which only draw with AWT.
- `java.util.Random` becomes parameters: the drawn positions of `CreateParticles` and the drawn integers of `ChangeAttraction`.
- `Math.sqrt` is a function parameter of `Update` with no property assumed. `PushMagnitude` alone assumes it is exact.
- Doubles are exact reals. Rounding, overflow to infinity and NaN are not modelled.
- `Frame.width` and `Frame.height` are read from the window in the original. Here they are the manager's constructor arguments, required positive. The window class is not part of this model, and neither are `Simulation`, `Panel` and `KeyboardInputs`.
- The buckets are `HashSet`s, whose iteration order is unspecified. They are modelled as duplicate-free sequences in insertion order. The neighbour list, and so the order in which forces are summed, follows that order. With exact reals the sum does not depend on the order. Particles are
  compared by identity, since `Particle` does not override `equals`; this is
  how `HashSet.add` and `ArrayList.remove` see them.
- `setAttraction` stores the caller's array, so the caller and the manager then share it. `SetAttraction` copies the value instead; aliasing between the two is not modelled.
- Getters (`getX`, `getFriction` and so on) are plain field reads with no contract. `GetNumberParticles` and `GetNumberOfGroups` return the constants 600 and 6.
- The original fails with an index exception in two cases: a particle whose cell index falls outside the grid, and a group outside the attraction matrix. `Update` requires that neither happens, rather than modelling the exception. On values, `Advance` leaves such a particle unchanged, and `Lookup` reads a particle missing from the snapshot as group -1.
- Manager.ParticleManager.Update: does not state the force totals left in `totalForcex` and `totalForcey`. Those are scratch values of the last particle.
- Manager.ParticleManager.Update: does not state that the particles end on the frame. `StepOnFrame` proves that property of the step that `Update` is proved to perform.
- `Update` requires a positive `rMax`, which `SetRMax` does not enforce. A
  zero or negative `rMax` would make the original size its grid from an
  infinite or negative quotient; that case is not modelled.
- JavaMath.FloatRem: is defined for divisors of at least 1 only. Every divisor in the core is a positive integer frame extent.
- Manager.ParticleManager.Update: does not state that every particle keeps its group's colour. The step is proved to keep it on the snapshot (`StepKeepsColour`, `ColouredSnapshot`); carrying it through the heap-level loop was too costly to verify.
- Java's 32-bit `int` is not modelled. That covers `cols * rows`, `row * cols + col` and the saturating `(int)` cast of a double. On a screen-sized frame (1800 by 1200 by default) with an `rMax` of at least 0.1, every such value stays below 2^31; only a far smaller `rMax` set through `SetRMax` could overflow.
