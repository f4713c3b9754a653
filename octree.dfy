/** Index arithmetic of the voxel octree: tree heights, the eight children
    of a node, a node's region of the voxel grid and the octant path from
    the root to a voxel. The newer tree (src/voxel/tree.rs) and the older
    one (src/geometry/voxel.rs) share this code line for line; the voxel
    faces are declared by the older file. */
module Octree {
  import opened Wrappers
  import opened Arith

  // ---------------------------------------------------------------------
  // Faces
  // ---------------------------------------------------------------------

  /** The six faces of a voxel, numbered 0 to 5 in declaration order. */
  datatype VoxelFace = LowerX | UpperX | LowerY | UpperY | LowerZ | UpperZ

  /** The axis a face is perpendicular to: 0, 1 or 2. */
  function FaceDim(face: VoxelFace): nat
  {
    match face
    case LowerX => 0
    case UpperX => 0
    case LowerY => 1
    case UpperY => 1
    case LowerZ => 2
    case UpperZ => 2
  }

  /** Whether a face is on the upper side of its axis. */
  predicate IsUpper(face: VoxelFace)
  {
    face.UpperX? || face.UpperY? || face.UpperZ?
  }

  /** `face as usize`: two slots per axis, lower side first. */
  function FaceIdx(face: VoxelFace): (idx: nat)
    ensures idx < 6
    ensures idx == 2 * FaceDim(face) + (if IsUpper(face) then 1 else 0)
  {
    match face
    case LowerX => 0
    case UpperX => 1
    case LowerY => 2
    case UpperY => 3
    case LowerZ => 4
    case UpperZ => 5
  }

  /** `opposite_face`: the face on the other side of the same axis. */
  function OppositeFace(face: VoxelFace): (r: VoxelFace)
    ensures FaceDim(r) == FaceDim(face) && IsUpper(r) != IsUpper(face)
  {
    match face
    case LowerX => UpperX
    case UpperX => LowerX
    case LowerY => UpperY
    case UpperY => LowerY
    case LowerZ => UpperZ
    case UpperZ => LowerZ
  }

  /** Taking the opposite face twice gives the face back, and no face is
      its own opposite. */
  lemma OppositeFaceIsInvolution(face: VoxelFace)
    ensures OppositeFace(OppositeFace(face)) == face
    ensures OppositeFace(face) != face
  {
  }

  /** Distinct faces occupy distinct slots. */
  lemma FaceIdxInjective(a: VoxelFace, b: VoxelFace)
    ensures FaceIdx(a) == FaceIdx(b) ==> a == b
  {
  }

  // ---------------------------------------------------------------------
  // Heights, depths and sizes
  // ---------------------------------------------------------------------

  /** The width of `usize` and of `u32`, which bound the shifts. */
  const USIZE_BITS: nat := 64
  const U32_BITS: nat := 32

  /** Whether `n` is a power of two. */
  predicate IsPowerOfTwo(n: nat)
    decreases n
  {
    n == 1 || (n >= 2 && n % 2 == 0 && IsPowerOfTwo(n / 2))
  }

  lemma {:induction false} Pow2IsPowerOfTwo(h: nat)
    ensures IsPowerOfTwo(Pow2(h))
  {
    if h > 0 {
      Pow2IsPowerOfTwo(h - 1);
      assert Pow2(h) / 2 == Pow2(h - 1);
    }
  }

  lemma {:induction false} Pow2Strict(a: nat, b: nat)
    requires a < b
    ensures Pow2(a) < Pow2(b)
  {
    if a + 1 < b {
      Pow2Strict(a, b - 1);
    }
  }

  lemma {:induction false} Pow2Add(a: nat, b: nat)
    ensures Pow2(a + b) == Pow2(a) * Pow2(b)
  {
    if b > 0 {
      Pow2Add(a, b - 1);
      MulTwice(Pow2(a), Pow2(b - 1));
    }
  }

  lemma MulTwice(x: int, y: int)
    ensures x * (2 * y) == 2 * (x * y)
  {
  }

  /** The exponent of a power of two. */
  function Log2(p: nat): (h: nat)
    requires IsPowerOfTwo(p)
    ensures Pow2(h) == p
    decreases p
  {
    if p == 1 then 0 else 1 + Log2(p / 2)
  }

  /** `next_power_of_two` from a power of two `p` that is not yet past the
      answer. */
  function NextPowerOfTwoFrom(n: nat, p: nat): (q: nat)
    requires IsPowerOfTwo(p) && (p == 1 || p / 2 < n)
    ensures IsPowerOfTwo(q) && n <= q && (q == 1 || q / 2 < n)
    decreases n - p
  {
    if n <= p then p else NextPowerOfTwoFrom(n, 2 * p)
  }

  /** `next_power_of_two`: the least power of two that is at least `n`
      (1 for 0). */
  function NextPowerOfTwo(n: nat): (p: nat)
    ensures IsPowerOfTwo(p) && n <= p
    ensures p == 1 || p / 2 < n
  {
    NextPowerOfTwoFrom(n, 1)
  }

  /** `trailing_zeros` of an unsigned integer `bits` wide; zero has `bits`
      trailing zeros. */
  function TrailingZeros(n: nat, bits: nat): (z: nat)
    decreases n
  {
    if n == 0 then bits
    else if n % 2 == 1 then 0
    else 1 + TrailingZeros(n / 2, bits)
  }

  /** A power of two has its exponent as trailing zeros. */
  lemma {:induction false} TrailingZerosOfPow2(h: nat, bits: nat)
    ensures TrailingZeros(Pow2(h), bits) == h
  {
    if h > 0 {
      TrailingZerosOfPow2(h - 1, bits);
      assert Pow2(h) / 2 == Pow2(h - 1);
    }
  }

  function MaxDim(shape: (nat, nat, nat)): (m: nat)
    ensures shape.0 <= m && shape.1 <= m && shape.2 <= m
    ensures m == shape.0 || m == shape.1 || m == shape.2
  {
    var xy := if shape.0 < shape.1 then shape.1 else shape.0;
    if xy < shape.2 then shape.2 else xy
  }

  /** `VoxelTreeHeight::from_shape`: the trailing zeros of the next power of
      two of the largest extent, so the least height whose grid covers the
      shape. The unwrap panics when no power of two fits in `usize`. */
  function HeightFromShape(shape: (nat, nat, nat)): (h: nat)
    requires MaxDim(shape) <= Pow2(USIZE_BITS - 1)
    ensures MaxDim(shape) <= Pow2(h)
    ensures h == 0 || Pow2(h - 1) < MaxDim(shape)
  {
    var p := NextPowerOfTwo(MaxDim(shape));
    NextPowerOfTwoExponent(MaxDim(shape));
    TrailingZeros(p, USIZE_BITS)
  }

  /** The next power of two of `n` is `2^e` for the least `e` with
      `n <= 2^e`, and its trailing zeros in `usize` are `e`. */
  lemma NextPowerOfTwoExponent(n: nat)
    requires n <= Pow2(USIZE_BITS - 1)
    ensures var e := Log2(NextPowerOfTwo(n));
            && TrailingZeros(NextPowerOfTwo(n), USIZE_BITS) == e
            && n <= Pow2(e) && (e == 0 || Pow2(e - 1) < n)
  {
    var p := NextPowerOfTwo(n);
    var e := Log2(p);
    if e > 0 {
      assert Pow2(e) == 2 * Pow2(e - 1);
    }
    TrailingZerosOfPow2(e, USIZE_BITS);
  }

  /** The shapes used as examples by the older tree's tests. */
  lemma HeightFromShapeExamples()
    ensures HeightFromShape((1, 1, 1)) == 0
    ensures HeightFromShape((3, 1, 1)) == 2
    ensures HeightFromShape((2, 2, 3)) == 2
  {
    HeightIsLeastCover(HeightFromShape((3, 1, 1)), 3, 2);
    HeightIsLeastCover(HeightFromShape((2, 2, 3)), 3, 2);
  }

  /** Only one height `h` has `2^(h-1) < n <= 2^h`. */
  lemma HeightIsLeastCover(h: nat, n: nat, e: nat)
    requires e >= 1 && Pow2(e - 1) < n <= Pow2(e)
    requires n <= Pow2(h) && (h == 0 || Pow2(h - 1) < n)
    ensures h == e
  {
    if h < e {
      if h < e - 1 {
        Pow2Strict(h, e - 1);
      }
    } else if h > e {
      if e < h - 1 {
        Pow2Strict(e, h - 1);
      }
    }
  }

  /** `height_to_depth` (and `depth_to_height`, the same subtraction): the
      checked subtraction panics for a height above the tree's. */
  function HeightToDepth(treeHeight: nat, height: nat): (depth: nat)
    requires height <= treeHeight
    ensures depth <= treeHeight && depth + height == treeHeight
  {
    treeHeight - height
  }

  /** `grid_size_at_depth`: `1 << depth` on `usize`, which panics for a
      shift of 64 or more. */
  function GridSizeAtDepth(depth: nat): (size: nat)
    requires depth < USIZE_BITS
    ensures IsPowerOfTwo(size) && Log2(size) == depth
  {
    Pow2IsPowerOfTwo(depth);
    Log2Unique(Pow2(depth), depth);
    Pow2(depth)
  }

  lemma {:induction false} Log2Unique(p: nat, h: nat)
    requires IsPowerOfTwo(p) && Pow2(h) == p
    ensures Log2(p) == h
  {
    var e := Log2(p);
    if e < h {
      Pow2Strict(e, h);
    } else if h < e {
      Pow2Strict(h, e);
    }
  }

  /** `voxel_scale_at_depth`: `1 << (tree height - depth)` on `u32`. */
  function VoxelScaleAtDepth(treeHeight: nat, depth: nat): (scale: nat)
    requires depth <= treeHeight && treeHeight - depth < U32_BITS
    ensures IsPowerOfTwo(scale) && Log2(scale) == HeightToDepth(treeHeight, depth)
  {
    var height := HeightToDepth(treeHeight, depth);
    Pow2IsPowerOfTwo(height);
    Log2Unique(Pow2(height), height);
    Pow2(height)
  }

  /** A voxel at depth `d` spans `scale` voxels of the bottom grid along
      each axis, and the grid at depth `d` has `2^d` of them, so together
      they span the bottom grid, whose size is `2^height`. */
  lemma ScaleTimesGridSizeIsBottomGridSize(treeHeight: nat, depth: nat)
    requires depth <= treeHeight < U32_BITS
    ensures VoxelScaleAtDepth(treeHeight, depth) * GridSizeAtDepth(depth) == GridSizeAtDepth(treeHeight)
  {
    Pow2Add(treeHeight - depth, depth);
  }

  // ---------------------------------------------------------------------
  // Node indices and children
  // ---------------------------------------------------------------------

  /** Indices in the voxel grid at the bottom of the tree. */
  datatype VoxelIndices = VoxelIndices(i: nat, j: nat, k: nat)

  /** `are_inside_grid`. */
  predicate InGrid(v: VoxelIndices, gridSize: nat)
  {
    v.i < gridSize && v.j < gridSize && v.k < gridSize
  }

  /** The position of a node: its depth and its indices in the grid at
      that depth. `VoxelTreeIndices::new` asserts `depth <= treeHeight`. */
  datatype VoxelTreeIndices = VoxelTreeIndices(treeHeight: nat, depth: nat, i: nat, j: nat, k: nat)
  {
    predicate Valid()
    {
      depth <= treeHeight
    }
  }

  /** `VoxelTreeIndices::at_root`. */
  function AtRoot(treeHeight: nat): (r: VoxelTreeIndices)
    ensures r.Valid() && r.depth == 0
  {
    VoxelTreeIndices(treeHeight, 0, 0, 0, 0)
  }

  /** The position, among a node's eight children, of the child whose
      indices are `c`: bit 2 from `i`, bit 1 from `j`, bit 0 from `k`. */
  function ChildSlot(c: VoxelTreeIndices): (o: nat)
    ensures o < 8
  {
    4 * (c.i % 2) + 2 * (c.j % 2) + c.k % 2
  }

  /** `for_next_depth`: asserts that the next depth exists and returns the
      eight children `(2i + a, 2j + b, 2k + c)`, `k` varying fastest. */
  function ForNextDepth(n: VoxelTreeIndices): (r: seq<VoxelTreeIndices>)
    requires n.depth + 1 <= n.treeHeight
    ensures |r| == 8
    ensures forall o | 0 <= o < 8 ::
      r[o] == VoxelTreeIndices(n.treeHeight, n.depth + 1, 2 * n.i + o / 4, 2 * n.j + (o / 2) % 2, 2 * n.k + o % 2)
  {
    var next := n.depth + 1;
    var i0, j0, k0 := 2 * n.i, 2 * n.j, 2 * n.k;
    [ VoxelTreeIndices(n.treeHeight, next, i0, j0, k0),
      VoxelTreeIndices(n.treeHeight, next, i0, j0, k0 + 1),
      VoxelTreeIndices(n.treeHeight, next, i0, j0 + 1, k0),
      VoxelTreeIndices(n.treeHeight, next, i0, j0 + 1, k0 + 1),
      VoxelTreeIndices(n.treeHeight, next, i0 + 1, j0, k0),
      VoxelTreeIndices(n.treeHeight, next, i0 + 1, j0, k0 + 1),
      VoxelTreeIndices(n.treeHeight, next, i0 + 1, j0 + 1, k0),
      VoxelTreeIndices(n.treeHeight, next, i0 + 1, j0 + 1, k0 + 1) ]
  }

  /** Every child is valid, has the node as parent (halving its indices),
      and sits at the slot its low bits name, so the eight are distinct. */
  lemma ChildrenOfNode(n: VoxelTreeIndices, o: nat)
    requires n.depth + 1 <= n.treeHeight && o < 8
    ensures ForNextDepth(n)[o].Valid()
    ensures ForNextDepth(n)[o].i / 2 == n.i && ForNextDepth(n)[o].j / 2 == n.j && ForNextDepth(n)[o].k / 2 == n.k
    ensures ChildSlot(ForNextDepth(n)[o]) == o
  {
    var c := ForNextDepth(n)[o];
    SlotBits(o);
    DivModUnique(c.i, 2, n.i, o / 4);
    DivModUnique(c.j, 2, n.j, (o / 2) % 2);
    DivModUnique(c.k, 2, n.k, o % 2);
  }

  /** A slot below 8 is its three bits. */
  lemma SlotBits(o: nat)
    requires o < 8
    ensures o / 4 < 2 && o == 4 * (o / 4) + 2 * ((o / 2) % 2) + o % 2
  {
  }

  /** `voxel_scale_and_indices`: the scale of the node's voxel and the
      bottom-grid indices of its lower corner. */
  function VoxelScaleAndIndices(n: VoxelTreeIndices): (r: (nat, VoxelIndices))
    requires n.Valid() && n.treeHeight - n.depth < U32_BITS
    ensures r.0 == Pow2(n.treeHeight - n.depth)
    ensures r.1 == VoxelIndices(n.i * r.0, n.j * r.0, n.k * r.0)
  {
    var scale := VoxelScaleAtDepth(n.treeHeight, n.depth);
    (scale, VoxelIndices(n.i * scale, n.j * scale, n.k * scale))
  }

  /** A child's voxel is half the size of its parent's and its lower corner
      is the parent's corner moved by one child scale along each axis
      whose child bit is set, so the eight child regions tile the parent's
      region. */
  lemma ChildRegionWithinParent(n: VoxelTreeIndices, o: nat)
    requires n.depth + 1 <= n.treeHeight < U32_BITS && o < 8
    ensures var parent := VoxelScaleAndIndices(n);
            var child := VoxelScaleAndIndices(ForNextDepth(n)[o]);
            && parent.0 == 2 * child.0
            && child.1.i == parent.1.i + (o / 4) * child.0
            && child.1.j == parent.1.j + ((o / 2) % 2) * child.0
            && child.1.k == parent.1.k + (o % 2) * child.0
  {
    var c := ForNextDepth(n)[o];
    var cs := Pow2(n.treeHeight - c.depth);
    var ps := Pow2(n.treeHeight - n.depth);
    assert ps == 2 * cs;
    AxisCorner(n.i, c.i, o / 4, ps, cs);
    AxisCorner(n.j, c.j, (o / 2) % 2, ps, cs);
    AxisCorner(n.k, c.k, o % 2, ps, cs);
  }

  lemma AxisCorner(x: nat, y: nat, b: nat, ps: nat, cs: nat)
    requires y == 2 * x + b && ps == 2 * cs
    ensures y * cs == x * ps + b * cs
  {
    assert (2 * x + b) * cs == x * (2 * cs) + b * cs;
  }

  // ---------------------------------------------------------------------
  // Octants
  // ---------------------------------------------------------------------

  /** The octants of a node, numbered as its children are ordered. */
  datatype Octant =
    | BackBottomLeft | FrontBottomLeft | BackTopLeft | FrontTopLeft
    | BackBottomRight | FrontBottomRight | BackTopRight | FrontTopRight

  /** `Octant::idx`. */
  function OctantIdx(o: Octant): (idx: nat)
    ensures idx < 8
  {
    match o
    case BackBottomLeft => 0
    case FrontBottomLeft => 1
    case BackTopLeft => 2
    case FrontTopLeft => 3
    case BackBottomRight => 4
    case FrontBottomRight => 5
    case BackTopRight => 6
    case FrontTopRight => 7
  }

  function BitOf(b: bool): nat
  {
    if b then 1 else 0
  }

  /** The octant chosen from the three side tests of the iterator: the
      lower half along `i`, `j` and `k` is left, bottom and back. Its index
      has the upper-half bits of `i`, `j` and `k` as bits 2, 1 and 0. */
  function OctantFromSides(toLeft: bool, atBottom: bool, inBack: bool): (o: Octant)
    ensures OctantIdx(o) == 4 * BitOf(!toLeft) + 2 * BitOf(!atBottom) + BitOf(!inBack)
  {
    match (toLeft, atBottom, inBack)
    case (true, true, true) => BackBottomLeft
    case (true, true, false) => FrontBottomLeft
    case (true, false, true) => BackTopLeft
    case (true, false, false) => FrontTopLeft
    case (false, true, true) => BackBottomRight
    case (false, true, false) => FrontBottomRight
    case (false, false, true) => BackTopRight
    case (false, false, false) => FrontTopRight
  }

  /** The index of a bottom-grid coordinate at `n` levels above the bottom. */
  function Prefix(x: nat, n: nat): nat
  {
    if n == 0 then x else Prefix(x, n - 1) / 2
  }

  /** `x` lies in the block of size `2^n` numbered by its prefix. */
  lemma {:induction false} PrefixBounds(x: nat, n: nat)
    ensures Prefix(x, n) * Pow2(n) <= x < Prefix(x, n) * Pow2(n) + Pow2(n)
  {
    if n > 0 {
      PrefixBounds(x, n - 1);
      var q, p := Prefix(x, n - 1), Pow2(n - 1);
      var a, b := q / 2, q % 2;
      assert Pow2(n) == 2 * p;
      Distrib(a, b, p);
      BitTimes(b, p);
    }
  }

  /** Inside a grid of size `2^n` every coordinate has prefix 0. */
  lemma PrefixInGrid(x: nat, n: nat)
    requires x < Pow2(n)
    ensures Prefix(x, n) == 0
  {
    PrefixBounds(x, n);
    if Prefix(x, n) >= 1 {
      MulMono(1, Prefix(x, n), Pow2(n));
    }
  }

  /** Bit `n` of `x`. */
  function Bit(x: nat, n: nat): nat
  {
    Prefix(x, n) % 2
  }

  /** The middle of the block of size `2^m` that holds `x`: the dividing
      coordinate of the iterator with `m` levels still to go. */
  function Midpoint(x: nat, m: nat): nat
    requires m >= 1
  {
    Prefix(x, m) * Pow2(m) + Pow2(m - 1)
  }

  lemma Distrib(a: int, b: int, p: int)
    ensures (2 * a + b) * p == a * (2 * p) + b * p
  {
  }

  lemma BitTimes(b: nat, p: nat)
    requires b < 2
    ensures b * p == (if b == 0 then 0 else p)
  {
  }

  /** One level down: the prefix gains the next bit, `x` is below the
      midpoint exactly when that bit is 0, and the midpoint of the half
      holding `x` is a quarter block away. */
  lemma HalveBlock(x: nat, m: nat)
    requires m >= 1
    ensures Prefix(x, m - 1) == 2 * Prefix(x, m) + Bit(x, m - 1)
    ensures Midpoint(x, m) >= Pow2(m - 1)
    ensures x < Midpoint(x, m) <==> Bit(x, m - 1) == 0
    ensures m >= 2 && Bit(x, m - 1) == 0 ==> Midpoint(x, m - 1) == Midpoint(x, m) - Pow2(m - 2)
    ensures m >= 2 && Bit(x, m - 1) == 1 ==> Midpoint(x, m - 1) == Midpoint(x, m) + Pow2(m - 2)
  {
    var p := Pow2(m - 1);
    assert Pow2(m) == 2 * p;
    PrefixBounds(x, m - 1);
    Distrib(Prefix(x, m), Bit(x, m - 1), p);
    var a := Prefix(x, m);
    var b := Bit(x, m - 1);
    MulMono(0, a, 2 * p);
    BitTimes(b, p);
    if m >= 2 {
      assert p == 2 * Pow2(m - 2);
    }
  }

  /** One axis of one step of the iterator: whether `x` lies below the
      dividing coordinate, and the dividing coordinate moved by `half`
      towards `x`. */
  function DivideAxis(x: nat, dividing: nat, half: nat): (bool, nat)
    requires half <= dividing
  {
    if x < dividing then (true, dividing - half) else (false, dividing + half)
  }

  /** The octant size of the iterator with `m` levels to go. */
  function OctantSize(m: nat): nat
  {
    if m == 0 then 0 else Pow2(m - 1)
  }

  /** The dividing coordinate of the iterator with `m` levels to go is the
      midpoint of the block holding `x`. */
  ghost predicate Divides(x: nat, dividing: nat, m: nat)
  {
    m >= 1 ==> dividing == Midpoint(x, m)
  }

  /** With `m` levels to go, the side test reads the next bit of `x`, and
      moving by half the octant size gives the midpoint one level down. */
  lemma AxisStep(x: nat, m: nat, dividing: nat, size: nat)
    requires m >= 1 && Divides(x, dividing, m) && size == OctantSize(m)
    ensures size / 2 == OctantSize(m - 1) && size / 2 <= dividing
    ensures DivideAxis(x, dividing, size / 2).0 <==> Bit(x, m - 1) == 0
    ensures Divides(x, DivideAxis(x, dividing, size / 2).1, m - 1)
  {
    HalveBlock(x, m);
    if m >= 2 {
      assert Pow2(m - 1) == 2 * Pow2(m - 2);
    }
  }

  /** The octant of the child on the path to `v` at depth `t`. */
  function OctantAt(v: VoxelIndices, h: nat, t: nat): Octant
    requires t < h
  {
    OctantFromSides(Bit(v.i, h - 1 - t) == 0, Bit(v.j, h - 1 - t) == 0, Bit(v.k, h - 1 - t) == 0)
  }

  /** The octants to follow from the root of a tree of height `h` to reach
      the bottom voxel `v`, most significant bit first. */
  function Octants(v: VoxelIndices, h: nat): (r: seq<Octant>)
    ensures |r| == h
  {
    seq(h, t requires 0 <= t < h => OctantAt(v, h, t))
  }

  lemma OctantsUnroll(v: VoxelIndices, h: nat, t: nat)
    requires t < h
    ensures Octants(v, h)[t..] == [OctantAt(v, h, t)] + Octants(v, h)[t + 1..]
  {
  }

  /** Following octants from a node through `for_next_depth`. */
  function Descend(path: seq<Octant>, n: VoxelTreeIndices): (r: VoxelTreeIndices)
    requires n.depth + |path| <= n.treeHeight
    ensures r.treeHeight == n.treeHeight && r.depth == n.depth + |path|
    decreases |path|
  {
    if path == [] then n else Descend(path[1..], ForNextDepth(n)[OctantIdx(path[0])])
  }

  /** The node at depth `t` on the path to the bottom voxel `v`. */
  function PathNode(v: VoxelIndices, h: nat, t: nat): (n: VoxelTreeIndices)
    requires t <= h
    ensures n.Valid() && n.depth == t
  {
    VoxelTreeIndices(h, t, Prefix(v.i, h - t), Prefix(v.j, h - t), Prefix(v.k, h - t))
  }

  lemma SlotOfBits(a: nat, b: nat, c: nat)
    requires a < 2 && b < 2 && c < 2
    ensures (4 * a + 2 * b + c) / 4 == a && ((4 * a + 2 * b + c) / 2) % 2 == b && (4 * a + 2 * b + c) % 2 == c
  {
  }

  /** The child in the octant the path names is the next node of the
      path. */
  lemma ChildOnPath(v: VoxelIndices, h: nat, t: nat)
    requires t < h
    ensures ForNextDepth(PathNode(v, h, t))[OctantIdx(OctantAt(v, h, t))] == PathNode(v, h, t + 1)
  {
    var m := h - t;
    HalveBlock(v.i, m);
    HalveBlock(v.j, m);
    HalveBlock(v.k, m);
    SlotOfBits(Bit(v.i, m - 1), Bit(v.j, m - 1), Bit(v.k, m - 1));
  }

  lemma {:induction false} DescendFrom(v: VoxelIndices, h: nat, t: nat)
    requires t <= h
    ensures Descend(Octants(v, h)[t..], PathNode(v, h, t)) == PathNode(v, h, h)
    decreases h - t
  {
    var path := Octants(v, h)[t..];
    if t < h {
      assert path[0] == OctantAt(v, h, t);
      assert path[1..] == Octants(v, h)[t + 1..];
      ChildOnPath(v, h, t);
      DescendFrom(v, h, t + 1);
    } else {
      assert path == [];
    }
  }

  /** The octant path of an in-grid voxel, followed from the root through
      `for_next_depth`, arrives at that voxel at the bottom of the tree. */
  lemma OctantPathReachesVoxel(v: VoxelIndices, h: nat)
    requires InGrid(v, Pow2(h))
    ensures Descend(Octants(v, h), AtRoot(h)) == VoxelTreeIndices(h, h, v.i, v.j, v.k)
  {
    PrefixInGrid(v.i, h);
    PrefixInGrid(v.j, h);
    PrefixInGrid(v.k, h);
    assert PathNode(v, h, 0) == AtRoot(h);
    assert Octants(v, h)[0..] == Octants(v, h);
    DescendFrom(v, h, 0);
    assert PathNode(v, h, h) == VoxelTreeIndices(h, h, v.i, v.j, v.k);
  }

  /** Distinct voxels of the grid have distinct octant paths. */
  lemma OctantPathsIdentifyVoxels(v: VoxelIndices, w: VoxelIndices, h: nat)
    requires InGrid(v, Pow2(h)) && InGrid(w, Pow2(h))
    ensures Octants(v, h) == Octants(w, h) ==> v == w
  {
    OctantPathReachesVoxel(v, h);
    OctantPathReachesVoxel(w, h);
  }

  /** The single octant of each voxel of a tree of height 1, as the tests
      of the newer tree list them. */
  lemma HeightOneOctants()
    ensures Octants(VoxelIndices(0, 0, 0), 1) == [BackBottomLeft]
    ensures Octants(VoxelIndices(0, 0, 1), 1) == [FrontBottomLeft]
    ensures Octants(VoxelIndices(0, 1, 0), 1) == [BackTopLeft]
    ensures Octants(VoxelIndices(1, 1, 1), 1) == [FrontTopRight]
  {
    assert Pow2(0) == 1;
  }

  /** The fields of an octant iterator for a tree of height `h` that has
      returned `t` octants on the way to `v`. */
  ghost predicate IteratorState(v: VoxelIndices, h: nat, t: nat, size: nat, di: nat, dj: nat, dk: nat)
  {
    && InGrid(v, Pow2(h))
    && t <= h
    && size == OctantSize(h - t)
    && Divides(v.i, di, h - t)
    && Divides(v.j, dj, h - t)
    && Divides(v.k, dk, h - t)
  }

  /** One call of `next` that does not stop: the side tests give the octant
      at depth `t`, and the updated fields describe depth `t + 1`. */
  lemma IteratorStep(v: VoxelIndices, h: nat, t: nat, size: nat, di: nat, dj: nat, dk: nat)
    requires IteratorState(v, h, t, size, di, dj, dk) && size >= 1
    ensures t < h && size / 2 <= di && size / 2 <= dj && size / 2 <= dk
    ensures var (toLeft, di') := DivideAxis(v.i, di, size / 2);
            var (atBottom, dj') := DivideAxis(v.j, dj, size / 2);
            var (inBack, dk') := DivideAxis(v.k, dk, size / 2);
            && IteratorState(v, h, t + 1, size / 2, di', dj', dk')
            && OctantFromSides(toLeft, atBottom, inBack) == OctantAt(v, h, t)
  {
    var m := h - t;
    AxisStep(v.i, m, di, size);
    AxisStep(v.j, m, dj, size);
    AxisStep(v.k, m, dk, size);
  }

  /** `OctantIterator`: walks from the root towards `indices`, halving the
      octant size and moving the dividing coordinates at every step. */
  class OctantIterator {
    const indices: VoxelIndices
    var octantSize: nat
    var dividingI: nat
    var dividingJ: nat
    var dividingK: nat
    /** The height of the tree the iterator was made for. */
    ghost const height: nat
    /** The number of octants returned so far. */
    ghost var yielded: nat

    ghost predicate Valid()
      reads this
    {
      IteratorState(indices, height, yielded, octantSize, dividingI, dividingJ, dividingK)
    }

    /** The octants still to come. */
    ghost function Remaining(): seq<Octant>
      reads this
      requires Valid()
    {
      Octants(indices, height)[yielded..]
    }

    constructor Start(treeHeight: nat, indices: VoxelIndices, octantSize: nat)
      requires InGrid(indices, Pow2(treeHeight)) && octantSize == Pow2(treeHeight) / 2
      ensures Valid() && this.indices == indices && height == treeHeight && yielded == 0
    {
      this.indices := indices;
      this.octantSize := octantSize;
      dividingI := octantSize;
      dividingJ := octantSize;
      dividingK := octantSize;
      height := treeHeight;
      yielded := 0;
      new;
      if treeHeight > 0 {
        assert Pow2(treeHeight) == 2 * Pow2(treeHeight - 1);
        assert Midpoint(indices.i, treeHeight) == Prefix(indices.i, treeHeight) * Pow2(treeHeight) + octantSize;
        PrefixInGrid(indices.i, treeHeight);
        PrefixInGrid(indices.j, treeHeight);
        PrefixInGrid(indices.k, treeHeight);
      }
    }

    /** `OctantIterator::new`: `None` when the indices lie outside the grid
        of a tree of height `treeHeight`, whose size `1 << treeHeight` must
        fit in `usize`. */
    static method New(treeHeight: nat, indices: VoxelIndices) returns (r: Option<OctantIterator>)
      requires treeHeight < USIZE_BITS
      ensures r.Some? <==> InGrid(indices, Pow2(treeHeight))
      ensures r.Some? ==> fresh(r.value) && r.value.Valid() && r.value.indices == indices
      ensures r.Some? ==> r.value.height == treeHeight && r.value.yielded == 0
    {
      var gridSize := GridSizeAtDepth(treeHeight);
      if InGrid(indices, gridSize) {
        var it := new OctantIterator.Start(treeHeight, indices, gridSize / 2);
        r := Some(it);
      } else {
        r := None;
      }
    }

    /** `next`: the octant at the current depth, or `None` once the bottom
        is reached. */
    method Next() returns (r: Option<Octant>)
      requires Valid()
      modifies this
      ensures Valid()
      ensures r.None? <==> old(yielded) == height
      ensures yielded == old(yielded) + (if r.Some? then 1 else 0)
      ensures old(Remaining()) == (if r.Some? then [r.value] else []) + Remaining()
    {
      if octantSize < 1 {
        return None;
      }
      IteratorStep(indices, height, yielded, octantSize, dividingI, dividingJ, dividingK);
      OctantsUnroll(indices, height, yielded);
      octantSize := octantSize / 2;
      var (toLeft, newI) := DivideAxis(indices.i, dividingI, octantSize);
      var (atBottom, newJ) := DivideAxis(indices.j, dividingJ, octantSize);
      var (inBack, newK) := DivideAxis(indices.k, dividingK, octantSize);
      dividingI, dividingJ, dividingK := newI, newJ, newK;
      r := Some(OctantFromSides(toLeft, atBottom, inBack));
      yielded := yielded + 1;
    }

    /** `collect`: drains the iterator. */
    method Collect() returns (octants: seq<Octant>)
      requires Valid()
      modifies this
      ensures Valid() && yielded == height
      ensures octants == old(Remaining())
    {
      ghost var rem := Remaining();
      octants := [];
      var next := Next();
      while next.Some?
        invariant Valid() && yielded <= height
        invariant next.Some? ==> rem == octants + [next.value] + Remaining()
        invariant next.None? ==> yielded == height && rem == octants
        decreases height - yielded, next.Some?
      {
        octants := octants + [next.value];
        ghost var before := octants + Remaining();
        next := Next();
        assert next.Some? ==> before == octants + [next.value] + Remaining();
      }
    }
  }

  /** `indices.octants(tree_height)` collected: `None` outside the grid,
      otherwise the `tree_height` octants from the root to the voxel. */
  method OctantPath(indices: VoxelIndices, treeHeight: nat) returns (r: Option<seq<Octant>>)
    requires treeHeight < USIZE_BITS
    ensures r.Some? <==> InGrid(indices, Pow2(treeHeight))
    ensures r.Some? ==> |r.value| == treeHeight && r.value == Octants(indices, treeHeight)
  {
    var it := OctantIterator.New(treeHeight, indices);
    if it.None? {
      return None;
    }
    var octants := it.value.Collect();
    r := Some(octants);
  }
}
