/** The mip chain of a type: how many levels it has and how many cells all of them have together,
    computed by the runtime from the high bits of the dimensions and by the client library by halving. */
module MipChain {

  import opened Common

  /** `rsFindHighBit`: the highest bit that is set, and 0 for no bits. */
  method FindHighBit(val: nat) returns (bit: nat)
    ensures val >= 1 ==> Pow2(bit) <= val < Pow2(bit + 1)
    ensures val == 0 ==> bit == 0
    ensures bit == HighBit(val)
  {
    HighBitBounds(val);
    bit := 0;
    var v := val;
    while v > 1
      invariant bit + HighBit(v) == HighBit(val)
    {
      bit := bit + 1;
      v := v / 2;
    }
  }

  function Max(a: nat, b: nat): nat {
    if a < b then b else a
  }

  /** One level down. */
  function Halve(d: nat): nat {
    if d > 1 then d / 2 else d
  }

  datatype Dims = Dims(x: nat, y: nat, z: nat)

  function Down(d: Dims): Dims {
    Dims(Halve(d.x), Halve(d.y), Halve(d.z))
  }

  /** Every dimension is at most 1. */
  predicate Smallest(d: Dims) {
    d.x <= 1 && d.y <= 1 && d.z <= 1
  }

  function Volume(x: nat, y: nat, z: nat): nat {
    Times(z, Times(y, x))
  }

  lemma VolumeIs(x: nat, y: nat, z: nat)
    ensures Volume(x, y, z) == x * y * z
  {
    TimesIs(y, x);
    TimesIs(z, y * x);
    assert z * (y * x) == x * y * z;
  }

  method Multiply(x: nat, y: nat, z: nat) returns (r: nat)
    ensures r == Volume(x, y, z)
  {
    VolumeIs(x, y, z);
    r := x * y * z;
  }

  function Cells(d: Dims): nat {
    Volume(Max(d.x, 1), Max(d.y, 1), Max(d.z, 1))
  }

  /** `lodCount` with mipmaps. */
  function LodCount(d: Dims): nat {
    Max(Max(HighBit(d.x) + 1, HighBit(d.y) + 1), HighBit(d.z) + 1)
  }

  /** The dimensions of level `n`. */
  function Level(d: Dims, n: nat): Dims {
    if n == 0 then d else Down(Level(d, n - 1))
  }

  /** Level `n` has each dimension divided by 2 to the `n`, but at least 1 unless it was 0. */
  lemma {:induction false} LevelIs(d: Dims, n: nat)
    ensures Level(d, n) == Dims(Shrunk(d.x, n), Shrunk(d.y, n), Shrunk(d.z, n))
  {
    if n > 0 {
      LevelIs(d, n - 1);
      HalfShrunk(d.x, n);
      HalfShrunk(d.y, n);
      HalfShrunk(d.z, n);
    }
  }

  function Shrunk(v: nat, n: nat): nat {
    if v == 0 then 0 else Max(1, v / Pow2(n))
  }

  lemma HalfShrunk(v: nat, n: nat)
    requires n > 0
    ensures Halve(Shrunk(v, n - 1)) == Shrunk(v, n)
  {
    DivDiv(v, Pow2(n - 1), 2);
  }

  predicate IsLevel(e: Dims, d: Dims, n: nat) {
    e == Level(d, n)
  }

  /** The cells of the first `n` levels. */
  function Total(d: Dims, n: nat): nat {
    if n == 0 then 0 else Total(d, n - 1) + Cells(Level(d, n - 1))
  }

  /** There is one level less from the next level on. */
  lemma LodCountDown(d: Dims)
    ensures LodCount(d) >= 1 && (LodCount(d) == 1 <==> Smallest(d))
    ensures !Smallest(d) ==> LodCount(Down(d)) == LodCount(d) - 1
  {
    HighBitDown(d.x);
    HighBitDown(d.y);
    HighBitDown(d.z);
  }

  lemma HighBitDown(v: nat)
    ensures v > 1 ==> HighBit(v) == HighBit(v / 2) + 1
    ensures v <= 1 ==> HighBit(v) == 0
  {
  }

  /** The chain ends at the first level at which every dimension is at most 1. */
  lemma {:induction false} ChainEnds(d: Dims, n: nat)
    requires n < LodCount(d)
    ensures LodCount(Level(d, n)) == LodCount(d) - n
    ensures Smallest(Level(d, n)) <==> n == LodCount(d) - 1
  {
    if n > 0 {
      ChainEnds(d, n - 1);
      LodCountDown(Level(d, n - 1));
    }
    LodCountDown(Level(d, n));
  }

  // ---------------------------------------------------------------------------------------------
  // Less than twice the base

  lemma HalfFactor(a: nat, a': nat, b: nat, b': nat, c: nat, c': nat)
    requires 2 * a' <= a && b' <= b && c' <= c
    ensures 2 * (a' * b' * c') <= a * b * c
  {
    Product(a', a', b', b);
    Product(2 * a', a, b, b);
    var p', p := a' * b', a * b;
    assert 2 * p' <= p;
    Product(2 * p', p, c', c);
    assert 2 * p' * c' == 2 * (p' * c');
  }

  lemma Product(a: nat, a': nat, b: nat, b': nat)
    requires a <= a' && b <= b'
    ensures a * b <= a' * b'
  {
    assert a * b <= a * b' <= a' * b';
  }

  /** Each level has at most half the cells of the one before. */
  lemma CellsHalve(d: Dims)
    requires !Smallest(d)
    ensures 2 * Cells(Down(d)) <= Cells(d)
  {
    var x, y, z := Max(d.x, 1), Max(d.y, 1), Max(d.z, 1);
    var e := Down(d);
    var x', y', z' := Max(e.x, 1), Max(e.y, 1), Max(e.z, 1);
    VolumeIs(x, y, z);
    VolumeIs(x', y', z');
    if d.x > 1 {
      HalfFactor(x, x', y, y', z, z');
    } else if d.y > 1 {
      HalfFactor(y, y', x, x', z, z');
      Swap(x, y, z);
      Swap(x', y', z');
    } else {
      HalfFactor(z, z', y, y', x, x');
      Turn(x, y, z);
      Turn(x', y', z');
    }
  }

  lemma Swap(a: nat, b: nat, c: nat)
    ensures a * b * c == b * a * c
  {
  }

  lemma Turn(a: nat, b: nat, c: nat)
    ensures a * b * c == c * b * a
  {
    var p := a * b;
    assert p * c == c * p && b * a == p;
    assert c * b * a == c * (b * a);
  }

  lemma CellsPositive(d: Dims)
    ensures Cells(d) >= 1
  {
    VolumeIs(Max(d.x, 1), Max(d.y, 1), Max(d.z, 1));
    Product(1, Max(d.x, 1), 1, Max(d.y, 1));
    Product(1, Max(d.x, 1) * Max(d.y, 1), 1, Max(d.z, 1));
  }

  /** What is not yet counted is less than the last level counted. */
  lemma {:induction false} TotalBelow(d: Dims, n: nat)
    requires 0 < n <= LodCount(d)
    ensures Total(d, n) + Cells(Level(d, n - 1)) <= 2 * Cells(d)
  {
    if n > 1 {
      TotalBelow(d, n - 1);
      ChainEnds(d, n - 2);
      CellsHalve(Level(d, n - 2));
    } else {
      assert Level(d, 0) == d && Total(d, 1) == Total(d, 0) + Cells(d);
    }
  }

  /** All levels together have less than twice the cells of the base. */
  lemma LessThanTwice(d: Dims)
    ensures Total(d, LodCount(d)) < 2 * Cells(d)
  {
    LodCountDown(d);
    TotalBelow(d, LodCount(d));
    CellsPositive(Level(d, LodCount(d) - 1));
  }

  // ---------------------------------------------------------------------------------------------
  // The two computations

  /** The levels that are stored and the cells counted. */
  function Levels(d: Dims, mipmaps: bool): nat {
    if mipmaps then LodCount(d) else 1
  }

  /** Six times as many for the faces of a cube map. */
  function WithFaces(faces: bool, n: nat): nat {
    if faces then 6 * n else n
  }

  /** `lodCount`, from the high bits of the dimensions. */
  method CountLods(d: Dims, mipmaps: bool) returns (lodCount: nat)
    ensures lodCount == Levels(d, mipmaps)
  {
    if !mipmaps { return 1; }
    var l2x := FindHighBit(d.x);
    var l2y := FindHighBit(d.y);
    var l2z := FindHighBit(d.z);
    lodCount := Max(Max(l2x + 1, l2y + 1), l2z + 1);
  }

  /** The cells of the first `n` levels for the runtime, which does not count an x of 0 as 1. */
  function Counted(d: Dims, n: nat): nat {
    if d.x == 0 then 0 else Total(d, n)
  }

  /** `Type::compute` of the runtime: the dimensions of every level, and all cells. */
  method Compute(d: Dims, mipmaps: bool, faces: bool) returns (lods: seq<Dims>, cellCount: nat)
    ensures |lods| == Levels(d, mipmaps) && forall i :: 0 <= i < |lods| ==> IsLevel(lods[i], d, i)
    ensures cellCount == WithFaces(faces, Counted(d, Levels(d, mipmaps)))
  {
    var lodCount := CountLods(d, mipmaps);
    var t := d;
    lods, cellCount := [], 0;
    while |lods| < lodCount
      invariant |lods| <= lodCount && (t.x == 0 <==> d.x == 0)
      invariant t == Level(d, |lods|) && cellCount == Counted(d, |lods|)
      invariant forall i :: 0 <= i < |lods| ==> IsLevel(lods[i], d, i)
    {
      var cells := Multiply(t.x, Max(t.y, 1), Max(t.z, 1));
      CountedStep(d, |lods|, t, cells);
      cellCount := cellCount + cells;
      lods := lods + [t];
      var x, y, z := NextLevel(t.x, t.y, t.z);
      t := Dims(x, y, z);
    }
    if faces { cellCount := cellCount * 6; }
  }

  lemma CountedStep(d: Dims, n: nat, t: Dims, cells: nat)
    requires t == Level(d, n) && (t.x == 0 <==> d.x == 0) && cells == Volume(t.x, Max(t.y, 1), Max(t.z, 1))
    ensures Counted(d, n + 1) == Counted(d, n) + cells
  {
    VolumeIs(t.x, Max(t.y, 1), Max(t.z, 1));
  }

  lemma {:induction false} TotalPositive(d: Dims, n: nat)
    requires n > 0
    ensures Total(d, n) > 0
  {
    var t := AtLeastOne(Level(d, n - 1));
    VolumeIs(t.x, t.y, t.z);
  }

  lemma TotalStep(d: Dims, n: nat, cells: nat)
    requires cells == Cells(Level(d, n))
    ensures Total(d, n + 1) == Total(d, n) + cells
  {
  }

  /** The dimensions above 1 are halved. */
  method NextLevel(x: nat, y: nat, z: nat) returns (x': nat, y': nat, z': nat)
    ensures Dims(x', y', z') == Down(Dims(x, y, z))
    ensures (x >= 1 <==> x' >= 1) && (y >= 1 <==> y' >= 1) && (z >= 1 <==> z' >= 1)
  {
    x', y', z' := x, y, z;
    if x' > 1 { x' := x' / 2; }
    if y' > 1 { y' := y' / 2; }
    if z' > 1 { z' := z' / 2; }
  }

  /** The cells of a level, on every face. */
  method AddCells(count: nat, cells: nat, hasFaces: bool, ghost total: nat) returns (r: nat)
    requires count == WithFaces(hasFaces, total)
    ensures r == WithFaces(hasFaces, total + cells)
  {
    var faces := if hasFaces then 6 else 1;
    r := count + cells * faces;
  }

  /** Dimensions of 0 count as 1 in the client library. */
  function AtLeastOne(d: Dims): Dims {
    Dims(Max(d.x, 1), Max(d.y, 1), Max(d.z, 1))
  }

  lemma {:induction false} SameLevel(d: Dims, n: nat)
    ensures AtLeastOne(Level(d, n)) == Level(AtLeastOne(d), n)
  {
    if n > 0 { SameLevel(d, n - 1); }
  }

  lemma {:induction false} SameTotal(d: Dims, n: nat)
    ensures Total(AtLeastOne(d), n) == Total(d, n)
  {
    if n > 0 {
      SameTotal(d, n - 1);
      SameLevel(d, n - 1);
    }
  }

  /** The first `n` levels are counted, and the dimensions are those of the last of them. */
  predicate CountedUpTo(e: Dims, n: nat, t: Dims, count: nat, hasFaces: bool) {
    n >= 1 && t == Level(e, n - 1) && count == WithFaces(hasFaces, Total(e, n)) && t == AtLeastOne(t)
  }

  /** One turn of the loop of the client library. */
  method CountLevel(t: Dims, count: nat, hasFaces: bool, ghost e: Dims, ghost n: nat) returns (t': Dims, count': nat)
    requires CountedUpTo(e, n, t, count, hasFaces)
    ensures CountedUpTo(e, n + 1, t', count', hasFaces)
    ensures !Smallest(t) ==> t'.x + t'.y + t'.z < t.x + t.y + t.z
  {
    var x, y, z := NextLevel(t.x, t.y, t.z);
    t' := Dims(x, y, z);
    var cells := Multiply(x, y, z);
    TotalStep(e, n, cells);
    count' := AddCells(count, cells, hasFaces, Total(e, n));
  }

  /** The base level. */
  method CountBase(e: Dims, hasFaces: bool) returns (count: nat)
    requires e == AtLeastOne(e)
    ensures CountedUpTo(e, 1, e, count, hasFaces)
  {
    var cells := Multiply(e.x, e.y, e.z);
    TotalStep(e, 0, cells);
    count := AddCells(0, cells, hasFaces, 0);
  }

  /** `Type::calcElementCount` of the client library, by halving until nothing is left to halve. */
  method CalcElementCount(d: Dims, mipmaps: bool, hasFaces: bool) returns (count: nat)
    ensures count == WithFaces(hasFaces, Total(AtLeastOne(d), Levels(AtLeastOne(d), mipmaps)))
  {
    var t := Dims(if d.x == 0 then 1 else d.x, if d.y == 0 then 1 else d.y, if d.z == 0 then 1 else d.z);
    ghost var e, n := t, 1;
    assert e == AtLeastOne(d) == AtLeastOne(e);
    count := CountBase(t, hasFaces);
    if !mipmaps { return; }
    LodCountDown(e);
    ghost var all := LodCount(e);
    while t.x > 1 || t.y > 1 || t.z > 1
      invariant CountedUpTo(e, n, t, count, hasFaces) && n <= all
      decreases t.x + t.y + t.z
    {
      t, count := CountLevel(t, count, hasFaces, e, n);
      More(e, n, all);
      n := n + 1;
    }
    Last(e, n, all);
  }

  lemma More(e: Dims, n: nat, all: nat)
    requires all == LodCount(e) && 1 <= n <= all && !Smallest(Level(e, n - 1))
    ensures n + 1 <= all
  {
    ChainEnds(e, n - 1);
  }

  lemma Last(e: Dims, n: nat, all: nat)
    requires all == LodCount(e) && 1 <= n <= all && Smallest(Level(e, n - 1))
    ensures n == all
  {
    ChainEnds(e, n - 1);
  }

  lemma SameLevels(d: Dims)
    ensures LodCount(AtLeastOne(d)) == LodCount(d)
  {
  }

  /** Both give the same count, exactly if there is an x dimension. */
  method BothCounts(d: Dims, mipmaps: bool, faces: bool) returns (server: nat, client: nat)
    ensures server == client <==> d.x >= 1
    ensures mipmaps ==> server < 2 * WithFaces(faces, Cells(d))
  {
    var lods;
    lods, server := Compute(d, mipmaps, faces);
    client := CalcElementCount(d, mipmaps, faces);
    SameLevels(d);
    SameTotal(d, Levels(d, mipmaps));
    TotalPositive(d, Levels(d, mipmaps));
    if d.x >= 1 { LessThanTwice(d); }
  }
}
