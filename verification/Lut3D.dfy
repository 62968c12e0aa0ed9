/** The 3D lookup table intrinsic: fixed-point coordinates and trilinear interpolation between the eight
    entries around them, with 15-bit weights. */
module Lut3D {

  import opened Common

  /** One in the weights. */
  const ONE := 0x8000

  // ---------------------------------------------------------------------------------------------
  // Coordinates

  /** For any multiplier: both entries are in the table for all inputs, exactly if the largest input stays
      below the last entry. */
  lemma TapsInIffBelow(mul: nat, dim: nat)
    requires dim >= 1
    ensures (forall c :: 0 <= c <= 255 ==> Reaches(c, mul, dim)) <==> 255 * mul < ONE * (dim - 1)
  {
    if 255 * mul < ONE * (dim - 1) {
      forall c | 0 <= c <= 255 ensures Reaches(c, mul, dim) { Mono(c, 255, mul); }
    } else {
      assert !Reaches(255, mul, dim);
    }
  }

  /** Input `c`, multiplied, and its right neighbour are below `dim`. */
  predicate Reaches(c: int, mul: nat, dim: nat) {
    c * mul / ONE + 1 < dim
  }

  /** 1/255 in single precision, times 2^31. */
  const RECIPROCAL := 8421505

  /** The distance of the single-precision numbers around `n`: they have 24 significant bits. */
  function Ulp(n: nat): (u: nat)
    ensures u > 0
  {
    if n < 0x100_0000 then 1 else 2 * Ulp(n / 2)
  }

  /** `n` rounded to single precision, to the nearest and to even in the middle. */
  function Rounded(n: nat): nat {
    var u := Ulp(n);
    if 2 * (n % u) > u || (2 * (n % u) == u && n / u % 2 == 1) then n - n % u + u else n - n % u
  }

  lemma RoundedNear(n: nat)
    ensures 2 * n - Ulp(n) <= 2 * Rounded(n) <= 2 * n + Ulp(n)
  {
  }

  lemma {:induction false} UlpBound(n: nat, k: nat)
    requires n < 0x100_0000 * Pow2(k)
    ensures Ulp(n) <= Pow2(k)
  {
    if n >= 0x100_0000 { UlpBound(n / 2, k - 1); }
  }

  /** `coordMul` for a dimension: the product of the rounded reciprocal, rounded, scaled and cut.  The
      dimension itself is a single-precision number. */
  function CoordMul(dim: nat): nat
    requires 1 <= dim <= 0x100_0000
  {
    Rounded(RECIPROCAL * (dim - 1)) / 0x1_0000
  }

  /** `baseCoord`, its integer part and its fraction. */
  function Base(c: nat, dim: nat): nat
    requires 1 <= dim <= 0x100_0000
  {
    c * CoordMul(dim)
  }

  function Coord(c: nat, dim: nat): nat
    requires 1 <= dim <= 0x100_0000
  {
    Base(c, dim) / ONE
  }

  function Weight(c: nat, dim: nat): (w: nat)
    requires 1 <= dim <= 0x100_0000
    ensures w < ONE
  {
    Base(c, dim) % ONE
  }

  /** Both entries in this dimension are in the table. */
  predicate TapsIn(c: nat, dim: nat)
    requires 1 <= dim <= 0x100_0000
  {
    Coord(c, dim) + 1 < dim
  }

  /** The guard on a dimension. */
  predicate DimOk(dim: nat) {
    1 <= dim <= 0x100_0000 && 255 * CoordMul(dim) < ONE * (dim - 1)
  }

  /** For all inputs the entries are in the table, exactly under the guard. */
  lemma TapsInIff(dim: nat)
    requires 1 <= dim <= 0x100_0000
    ensures (forall c: nat :: c <= 255 ==> TapsIn(c, dim)) <==> DimOk(dim)
  {
    var mul := CoordMul(dim);
    TapsInIffBelow(mul, dim);
    if DimOk(dim) {
      forall c: nat | c <= 255 ensures TapsIn(c, dim) { assert Reaches(c, mul, dim); }
    } else {
      assert Base(255, dim) == 255 * mul;
      assert !TapsIn(255, dim);
    }
  }

  /** How far the rounding reaches, for products below 2^(24 + k). */
  lemma MulBound(dim: nat, k: nat)
    requires 1 <= dim <= 0x100_0000 && RECIPROCAL * (dim - 1) < 0x100_0000 * Pow2(k)
    ensures 0x2_0000 * (255 * CoordMul(dim)) <= 2 * 255 * RECIPROCAL * (dim - 1) + 255 * Pow2(k)
  {
    var n := RECIPROCAL * (dim - 1);
    UlpBound(n, k);
    RoundedNear(n);
    assert 0x1_0000 * CoordMul(dim) <= Rounded(n);
  }

  lemma NotMultiple(mul: nat, k: nat)
    requires 0 < k < 255
    ensures 255 * mul != ONE * k
  {
  }

  /** Tables of up to 255 entries in a dimension pass. */
  lemma SmallDims(dim: nat)
    requires 2 <= dim <= 255
    ensures DimOk(dim)
  {
    var k := dim - 1;
    assert Pow2(7) == 128;
    MulBound(dim, 7);
    assert 255 * CoordMul(dim) <= ONE * k;
    NotMultiple(CoordMul(dim), k);
  }

  lemma {:induction false} UlpIs(n: nat, k: nat)
    requires 0x80_0000 * Pow2(k) <= n < 0x100_0000 * Pow2(k)
    ensures Ulp(n) == Pow2(k)
  {
    if k > 0 { UlpIs(n / 2, k - 1); }
  }

  /** 256 does not, because the last input meets the last entry, nor does 509, because of the rounding. */
  lemma FailingDims()
    ensures !DimOk(1) && !DimOk(256) && !DimOk(509)
  {
    assert Pow2(7) == 128 && Pow2(8) == 256;
    UlpIs(RECIPROCAL * 255, 8);
    UlpIs(RECIPROCAL * 508, 8);
  }

  /** No product leaves 31 bits, up to dimension 65536. */
  lemma BaseFits(c: nat, dim: nat)
    requires 1 <= dim <= 65536 && c <= 255
    ensures Base(c, dim) < 0x8000_0000
  {
    Pow2Of16();
    MulBound(dim, 16);
    Mono(c, 255, CoordMul(dim));
  }

  lemma Pow2Of16()
    ensures Pow2(16) == 0x1_0000
  {
    assert Pow2(4) == 16 && Pow2(8) == 256 && Pow2(12) == 4096;
  }

  // ---------------------------------------------------------------------------------------------
  // Interpolation

  function Lerp(a: nat, b: nat, w: nat): nat
    requires w <= ONE
  {
    Mono(0, a, ONE - w);
    Mono(0, b, w);
    a * (ONE - w) + b * w
  }

  lemma LerpBetween(a: nat, b: nat, w: nat, lo: nat, hi: nat)
    requires w <= ONE && lo <= a <= hi && lo <= b <= hi
    ensures lo * ONE <= Lerp(a, b, w) <= hi * ONE
  {
    var v := ONE - w;
    Mono(lo, a, v);
    Mono(a, hi, v);
    Mono(lo, b, w);
    Mono(b, hi, w);
    Whole(lo, v, w);
    Whole(hi, v, w);
  }

  lemma Mono(a: nat, b: nat, v: nat)
    requires a <= b
    ensures a * v <= b * v
  {
  }

  lemma Whole(a: nat, v: nat, w: nat)
    requires v + w == ONE
    ensures a * v + a * w == a * ONE
  {
    assert a * v + a * w == a * (v + w);
  }

  /** Rounding errors of the ends stay within the same bound. */
  lemma LerpError(a: nat, b: nat, a': nat, b': nat, w: nat, k: nat, e: nat)
    requires w <= ONE && k * a' <= a < k * a' + e && k * b' <= b < k * b' + e
    ensures k * Lerp(a', b', w) <= Lerp(a, b, w) < k * Lerp(a', b', w) + e * ONE
  {
    var v := ONE - w;
    var da, db := a - k * a', b - k * b';
    Spread(a, k * a', da, v);
    Spread(b, k * b', db, w);
    assert k * Lerp(a', b', w) == k * a' * v + k * b' * w by { Distribute(k, a', v, b', w); }
    Below(da, db, v, w, e);
  }

  lemma Spread(a: nat, x: nat, d: nat, v: nat)
    requires a == x + d
    ensures a * v == x * v + d * v
  {
  }

  lemma Distribute(k: nat, a: nat, v: nat, b: nat, w: nat)
    ensures k * (a * v + b * w) == k * a * v + k * b * w
  {
  }

  lemma Below(da: nat, db: nat, v: nat, w: nat, e: nat)
    requires da < e && db < e && v + w == ONE
    ensures 0 <= da * v + db * w < e * ONE
  {
    Mono(da, e - 1, v);
    Mono(db, e - 1, w);
    Whole(e - 1, v, w);
  }

  /** The eight entries of one channel. */
  datatype Taps = Taps(v000: nat, v100: nat, v010: nat, v110: nat, v001: nat, v101: nat, v011: nat, v111: nat)

  datatype Weights = Weights(x: nat, y: nat, z: nat)

  predicate WeightsOk(w: Weights) {
    w.x < ONE && w.y < ONE && w.z < ONE
  }

  predicate Within(t: Taps, lo: nat, hi: nat) {
    && lo <= t.v000 <= hi && lo <= t.v100 <= hi && lo <= t.v010 <= hi && lo <= t.v110 <= hi
    && lo <= t.v001 <= hi && lo <= t.v101 <= hi && lo <= t.v011 <= hi && lo <= t.v111 <= hi
  }

  /** One channel of the kernel, with the steps it goes through. */
  datatype Steps = Steps(yz00: nat, yz10: nat, yz01: nat, yz11: nat, z0: nat, z1: nat, v: nat, v2: nat)

  function Interpolate(t: Taps, w: Weights): Steps
    requires WeightsOk(w)
  {
    var yz00 := Lerp(t.v000, t.v100, w.x) / 128;
    var yz10 := Lerp(t.v010, t.v110, w.x) / 128;
    var yz01 := Lerp(t.v001, t.v101, w.x) / 128;
    var yz11 := Lerp(t.v011, t.v111, w.x) / 128;
    var z0 := Lerp(yz00, yz10, w.y) / ONE;
    var z1 := Lerp(yz01, yz11, w.y) / ONE;
    var v := Lerp(z0, z1, w.z) / ONE;
    Steps(yz00, yz10, yz01, yz11, z0, z1, v, (v + 0x7f) / 256)
  }

  /** Exact trilinear interpolation, times `ONE` three times over. */
  function Exact(t: Taps, w: Weights): nat
    requires WeightsOk(w)
  {
    var y0 := Lerp(Lerp(t.v000, t.v100, w.x), Lerp(t.v010, t.v110, w.x), w.y);
    var y1 := Lerp(Lerp(t.v001, t.v101, w.x), Lerp(t.v011, t.v111, w.x), w.y);
    Lerp(y0, y1, w.z)
  }

  lemma FirstStep(a: nat, b: nat, w: nat, lo: nat, hi: nat)
    requires w < ONE && lo <= a <= hi && lo <= b <= hi
    ensures lo * 256 <= Lerp(a, b, w) / 128 <= hi * 256
  {
    LerpBetween(a, b, w, lo, hi);
  }

  lemma NextStep(a: nat, b: nat, w: nat, lo: nat, hi: nat)
    requires w < ONE && lo <= a <= hi && lo <= b <= hi
    ensures lo <= Lerp(a, b, w) / ONE <= hi
  {
    LerpBetween(a, b, w, lo, hi);
  }

  /** The result is between the smallest and the largest entry. */
  lemma ResultBetween(t: Taps, w: Weights, lo: nat, hi: nat)
    requires WeightsOk(w) && Within(t, lo, hi)
    ensures lo <= Interpolate(t, w).v2 <= hi
  {
    var s := Interpolate(t, w);
    FirstStep(t.v000, t.v100, w.x, lo, hi);
    FirstStep(t.v010, t.v110, w.x, lo, hi);
    FirstStep(t.v001, t.v101, w.x, lo, hi);
    FirstStep(t.v011, t.v111, w.x, lo, hi);
    NextStep(s.yz00, s.yz10, w.y, lo * 256, hi * 256);
    NextStep(s.yz01, s.yz11, w.y, lo * 256, hi * 256);
    NextStep(s.z0, s.z1, w.z, lo * 256, hi * 256);
  }

  /** Every product and sum of the kernel is below 2^31, so that 32-bit arithmetic is exact. */
  lemma NoOverflow(t: Taps, w: Weights)
    requires WeightsOk(w) && Within(t, 0, 255)
    ensures var s := Interpolate(t, w);
      && Lerp(t.v000, t.v100, w.x) < 0x8000_0000 && Lerp(t.v010, t.v110, w.x) < 0x8000_0000
      && Lerp(t.v001, t.v101, w.x) < 0x8000_0000 && Lerp(t.v011, t.v111, w.x) < 0x8000_0000
      && Lerp(s.yz00, s.yz10, w.y) < 0x8000_0000 && Lerp(s.yz01, s.yz11, w.y) < 0x8000_0000
      && Lerp(s.z0, s.z1, w.z) < 0x8000_0000 && s.v2 <= 255
  {
    var s := Interpolate(t, w);
    LerpBetween(t.v000, t.v100, w.x, 0, 255);
    LerpBetween(t.v010, t.v110, w.x, 0, 255);
    LerpBetween(t.v001, t.v101, w.x, 0, 255);
    LerpBetween(t.v011, t.v111, w.x, 0, 255);
    LerpBetween(s.yz00, s.yz10, w.y, 0, 255 * 256);
    LerpBetween(s.yz01, s.yz11, w.y, 0, 255 * 256);
    LerpBetween(s.z0, s.z1, w.z, 0, 255 * 256);
  }

  /** After two directions the rounding is less than two of 256. */
  lemma PlaneError(a: nat, b: nat, c: nat, d: nat, x: nat, y: nat)
    requires x < ONE && y < ONE
    ensures var z := Lerp(Lerp(a, b, x) / 128, Lerp(c, d, x) / 128, y) / ONE;
      0x40_0000 * z <= Lerp(Lerp(a, b, x), Lerp(c, d, x), y) < 0x40_0000 * (z + 2)
  {
    var p, q := Lerp(a, b, x), Lerp(c, d, x);
    LerpError(p, q, p / 128, q / 128, y, 128, 128);
  }

  /** The result differs from exact interpolation by less than 131/256; 2^45 stands for one. */
  lemma ResultError(t: Taps, w: Weights)
    requires WeightsOk(w)
    ensures -131 * 0x20_0000_0000 < 0x2000_0000_0000 * Interpolate(t, w).v2 - Exact(t, w) <= 127 * 0x20_0000_0000
  {
    var s := Interpolate(t, w);
    PlaneError(t.v000, t.v100, t.v010, t.v110, w.x, w.y);
    PlaneError(t.v001, t.v101, t.v011, t.v111, w.x, w.y);
    var y0 := Lerp(Lerp(t.v000, t.v100, w.x), Lerp(t.v010, t.v110, w.x), w.y);
    var y1 := Lerp(Lerp(t.v001, t.v101, w.x), Lerp(t.v011, t.v111, w.x), w.y);
    LerpError(y0, y1, s.z0, s.z1, w.z, 0x40_0000, 0x80_0000);
    assert ONE * s.v <= Lerp(s.z0, s.z1, w.z) < ONE * s.v + ONE;
  }

  // ---------------------------------------------------------------------------------------------
  // The table and the kernel

  /** The table: four bytes for an entry, rows `stride` bytes apart. */
  datatype Table = Table(dimX: nat, dimY: nat, dimZ: nat, stride: nat, bytes: seq<nat>)

  ghost predicate TableOk(t: Table) {
    && 1 <= t.dimX <= 65536 && 1 <= t.dimY <= 65536 && 1 <= t.dimZ <= 65536 && 4 * t.dimX <= t.stride
    && |t.bytes| == t.dimZ * t.dimY * t.stride && forall i :: 0 <= i < |t.bytes| ==> t.bytes[i] <= 255
  }

  predicate DimsOk(t: Table) {
    DimOk(t.dimX) && DimOk(t.dimY) && DimOk(t.dimZ)
  }

  function Address(t: Table, x: nat, y: nat, z: nat, ch: nat): nat {
    4 * x + y * t.stride + z * (t.stride * t.dimY) + ch
  }

  /** An entry of the table is inside its memory. */
  lemma AddressIn(t: Table, x: nat, y: nat, z: nat, ch: nat)
    requires TableOk(t) && x < t.dimX && y < t.dimY && z < t.dimZ && ch < 4
    ensures Address(t, x, y, z, ch) < |t.bytes|
  {
    var plane := t.stride * t.dimY;
    Row(y, t.dimY, t.stride);
    Row(z, t.dimZ, plane);
    Regroup(t.dimZ, t.dimY, t.stride);
  }

  lemma Row(i: nat, n: nat, size: nat)
    requires i < n
    ensures i * size + size <= n * size
  {
    Mono(i + 1, n, size);
  }

  lemma Regroup(a: nat, b: nat, c: nat)
    ensures a * (c * b) == a * b * c && c * b == b * c
  {
  }

  datatype Pixel = Pixel(r: nat, g: nat, b: nat, a: nat)

  predicate PixelOk(p: Pixel) {
    p.r <= 255 && p.g <= 255 && p.b <= 255 && p.a <= 255
  }

  ghost predicate TableReady(t: Table) {
    TableOk(t) && DimsOk(t)
  }

  lemma CoordsIn(t: Table, p: Pixel)
    requires TableReady(t) && PixelOk(p)
    ensures Coord(p.r, t.dimX) + 1 < t.dimX && Coord(p.g, t.dimY) + 1 < t.dimY && Coord(p.b, t.dimZ) + 1 < t.dimZ
  {
    TapsInIff(t.dimX);
    TapsInIff(t.dimY);
    TapsInIff(t.dimZ);
    assert TapsIn(p.r, t.dimX) && TapsIn(p.g, t.dimY) && TapsIn(p.b, t.dimZ);
  }

  ghost function Entry(t: Table, x: nat, y: nat, z: nat, ch: nat): (v: nat)
    requires TableOk(t) && x < t.dimX && y < t.dimY && z < t.dimZ && ch < 4
    ensures v <= 255
  {
    AddressIn(t, x, y, z, ch);
    t.bytes[Address(t, x, y, z, ch)]
  }

  ghost function TapsOf(t: Table, p: Pixel, ch: nat): (r: Taps)
    requires TableReady(t) && PixelOk(p) && ch < 4
    ensures Within(r, 0, 255)
  {
    CoordsIn(t, p);
    var x, y, z := Coord(p.r, t.dimX), Coord(p.g, t.dimY), Coord(p.b, t.dimZ);
    Taps(Entry(t, x, y, z, ch), Entry(t, x + 1, y, z, ch), Entry(t, x, y + 1, z, ch), Entry(t, x + 1, y + 1, z, ch),
         Entry(t, x, y, z + 1, ch), Entry(t, x + 1, y, z + 1, ch), Entry(t, x, y + 1, z + 1, ch),
             Entry(t, x + 1, y + 1, z + 1, ch))
  }

  function WeightsOf(t: Table, p: Pixel): (w: Weights)
    requires DimsOk(t)
    ensures WeightsOk(w)
  {
    Weights(Weight(p.r, t.dimX), Weight(p.g, t.dimY), Weight(p.b, t.dimZ))
  }

  /** What a pixel maps to; alpha is kept. */
  ghost predicate Maps(t: Table, p: Pixel, q: Pixel)
    requires TableReady(t) && PixelOk(p)
  {
    && q.r == Interpolate(TapsOf(t, p, 0), WeightsOf(t, p)).v2
    && q.g == Interpolate(TapsOf(t, p, 1), WeightsOf(t, p)).v2
    && q.b == Interpolate(TapsOf(t, p, 2), WeightsOf(t, p)).v2
    && q.a == p.a && PixelOk(q)
  }

  // ---------------------------------------------------------------------------------------------
  // Tables that are affine in the three coordinates

  /** Channel `ch` of the entries is `a`, and `sx`, `sy` and `sz` more for each step along an axis. */
  ghost predicate Affine(t: Table, ch: nat, a: int, sx: int, sy: int, sz: int)
    requires TableOk(t) && ch < 4
  {
    forall x: nat, y: nat, z: nat :: x < t.dimX && y < t.dimY && z < t.dimZ ==>
      Entry(t, x, y, z, ch) == a + sx * x + sy * y + sz * z
  }

  function Abs(v: int): nat {
    if v < 0 then -v else v
  }

  /** 255 times what such a table is at the place of a pixel, where an input of 255 is the last entry. */
  function Place(t: Table, p: Pixel, a: int, sx: int, sy: int, sz: int): int
    requires t.dimX >= 1 && t.dimY >= 1 && t.dimZ >= 1
  {
    255 * a + sx * (p.r * (t.dimX - 1)) + sy * (p.g * (t.dimY - 1)) + sz * (p.b * (t.dimZ - 1))
  }

  /** `v` is that, up to 131/256 for the interpolation and 383/(255 * 2^15) of a step for each unit of input. */
  predicate Near(t: Table, p: Pixel, v: int, a: int, sx: int, sy: int, sz: int)
    requires t.dimX >= 1 && t.dimY >= 1 && t.dimZ >= 1
  {
    var d, s := ONE * (255 * v - Place(t, p, a, sx, sy, sz)), Abs(sx) * p.r + Abs(sy) * p.g + Abs(sz) * p.b;
    -(255 * 131 * 128 + 383 * s) <= d <= 255 * 127 * 128 + 383 * s
  }

  lemma LerpStep(u: nat, v: nat, d: int, w: nat)
    requires w <= ONE && v == u + d
    ensures Lerp(u, v, w) == ONE * u + d * w
  {
    assert v * w == u * w + d * w;
    assert u * (ONE - w) == u * ONE - u * w;
  }

  /** Exact interpolation follows the steps, each with its own weight. */
  lemma ExactAffine(t: Taps, w: Weights, dx: int, dy: int, dz: int)
    requires WeightsOk(w)
    requires t.v100 == t.v000 + dx && t.v010 == t.v000 + dy && t.v110 == t.v000 + dx + dy && t.v001 == t.v000 + dz
    requires t.v101 == t.v000 + dx + dz && t.v011 == t.v000 + dy + dz && t.v111 == t.v000 + dx + dy + dz
    ensures Exact(t, w) == ONE * ONE * (ONE * t.v000 + dx * w.x + dy * w.y + dz * w.z)
  {
    LerpStep(t.v000, t.v100, dx, w.x);
    LerpStep(t.v010, t.v110, dx, w.x);
    LerpStep(t.v001, t.v101, dx, w.x);
    LerpStep(t.v011, t.v111, dx, w.x);
    var p := ONE * t.v000 + dx * w.x;
    LerpStep(p, p + ONE * dy, ONE * dy, w.y);
    LerpStep(p + ONE * dz, p + ONE * dz + ONE * dy, ONE * dy, w.y);
    var y0 := ONE * p + ONE * dy * w.y;
    LerpStep(y0, y0 + ONE * ONE * dz, ONE * ONE * dz, w.z);
    assert ONE * dy * w.y == ONE * (dy * w.y) && ONE * ONE * dz * w.z == ONE * ONE * (dz * w.z);
  }

  /** The multiplier is below its exact value by less than two units. */
  lemma MulNear(dim: nat)
    requires DimOk(dim) && dim <= 65536
    ensures ONE * (dim - 1) - 383 <= 255 * CoordMul(dim) < ONE * (dim - 1)
  {
    var n := RECIPROCAL * (dim - 1);
    Pow2Of16();
    UlpBound(n, 16);
    RoundedNear(n);
    assert 255 * RECIPROCAL == 0x8000_0000 + 127;
    assert 255 * n == (0x8000_0000 + 127) * (dim - 1);
    assert Rounded(n) - 0xffff <= 0x1_0000 * CoordMul(dim);
  }

  /** So is the place of an input along an axis. */
  lemma AxisNear(c: nat, dim: nat, b: int)
    requires DimOk(dim) && dim <= 65536 && c <= 255
    ensures -383 * (Abs(b) * c) <= 255 * (b * Base(c, dim)) - ONE * (b * (c * (dim - 1))) <= 383 * (Abs(b) * c)
  {
    var mul, gap := CoordMul(dim), ONE * (dim - 1) - 255 * CoordMul(dim);
    MulNear(dim);
    assert 255 * (b * (c * mul)) - ONE * (b * (c * (dim - 1))) == -(b * c) * gap by { Gap(b, c, mul, dim - 1, gap); }
    Scaled(b * c, gap);
    assert Abs(b * c) == Abs(b) * c;
  }

  lemma Gap(b: int, c: int, mul: int, k: int, gap: int)
    requires gap == ONE * k - 255 * mul
    ensures 255 * (b * (c * mul)) - ONE * (b * (c * k)) == -(b * c) * gap
  {
    var bc := b * c;
    assert b * (c * mul) == bc * mul && b * (c * k) == bc * k;
    assert bc * gap == ONE * (bc * k) - 255 * (bc * mul);
  }

  lemma Scaled(v: int, gap: int)
    requires 0 <= gap <= 383
    ensures -383 * Abs(v) <= -v * gap <= 383 * Abs(v)
  {
    var n := Abs(v);
    assert 0 <= n * gap <= n * 383 by { Mono(gap, 383, n); }
  }

  /** The integer part and the fraction together are the whole coordinate. */
  lemma CoordParts(c: nat, dim: nat, b: int)
    requires 1 <= dim <= 0x100_0000
    ensures ONE * (b * Coord(c, dim)) + b * Weight(c, dim) == b * Base(c, dim)
  {
    var q, w := Coord(c, dim), Weight(c, dim);
    assert Base(c, dim) == ONE * q + w;
    assert b * (ONE * q + w) == ONE * (b * q) + b * w;
  }

  /** The eight entries around a pixel follow the steps. */
  lemma TapsAffine(t: Table, p: Pixel, ch: nat, a: int, sx: int, sy: int, sz: int)
    requires TableReady(t) && PixelOk(p) && ch < 4 && Affine(t, ch, a, sx, sy, sz)
    ensures Exact(TapsOf(t, p, ch), WeightsOf(t, p)) ==
      ONE * ONE * (ONE * a + sx * Base(p.r, t.dimX) + sy * Base(p.g, t.dimY) + sz * Base(p.b, t.dimZ))
  {
    CoordsIn(t, p);
    var x, y, z := Coord(p.r, t.dimX), Coord(p.g, t.dimY), Coord(p.b, t.dimZ);
    var k, w := TapsOf(t, p, ch), Weights(Weight(p.r, t.dimX), Weight(p.g, t.dimY), Weight(p.b, t.dimZ));
    StepsAlong(t, ch, a, sx, sy, sz, x, y, z);
    ExactAffine(k, w, sx, sy, sz);
    CoordParts(p.r, t.dimX, sx);
    CoordParts(p.g, t.dimY, sy);
    CoordParts(p.b, t.dimZ, sz);
  }

  lemma StepsAlong(t: Table, ch: nat, a: int, sx: int, sy: int, sz: int, x: nat, y: nat, z: nat)
    requires TableOk(t) && ch < 4 && Affine(t, ch, a, sx, sy, sz) && x + 1 < t.dimX && y + 1 < t.dimY && z + 1 < t.dimZ
    ensures Entry(t, x, y, z, ch) == a + sx * x + sy * y + sz * z
    ensures Entry(t, x + 1, y, z, ch) == Entry(t, x, y, z, ch) + sx
    ensures Entry(t, x, y + 1, z, ch) == Entry(t, x, y, z, ch) + sy
    ensures Entry(t, x + 1, y + 1, z, ch) == Entry(t, x, y, z, ch) + sx + sy
    ensures Entry(t, x, y, z + 1, ch) == Entry(t, x, y, z, ch) + sz
    ensures Entry(t, x + 1, y, z + 1, ch) == Entry(t, x, y, z, ch) + sx + sz
    ensures Entry(t, x, y + 1, z + 1, ch) == Entry(t, x, y, z, ch) + sy + sz
    ensures Entry(t, x + 1, y + 1, z + 1, ch) == Entry(t, x, y, z, ch) + sx + sy + sz
  {
    assert sx * (x + 1) == sx * x + sx && sy * (y + 1) == sy * y + sy && sz * (z + 1) == sz * z + sz;
  }

  function ChannelOf(p: Pixel, ch: nat): nat {
    if ch == 0 then p.r else if ch == 1 then p.g else p.b
  }

  /** A table that is affine in a channel maps every pixel near the value at its place. */
  ghost predicate Follows(t: Table, p: Pixel, q: Pixel)
    requires TableOk(t)
  {
    forall ch: nat, a, sx, sy, sz :: ch < 3 && Affine(t, ch, a, sx, sy, sz) ==>
      Near(t, p, ChannelOf(q, ch), a, sx, sy, sz)
  }

  lemma MapsFollow(t: Table, p: Pixel, q: Pixel)
    requires TableReady(t) && PixelOk(p) && Maps(t, p, q)
    ensures Follows(t, p, q)
  {
    forall ch: nat, a, sx, sy, sz | ch < 3 && Affine(t, ch, a, sx, sy, sz)
      ensures Near(t, p, ChannelOf(q, ch), a, sx, sy, sz)
    {
      var v := Interpolate(TapsOf(t, p, ch), WeightsOf(t, p)).v2;
      AffineNear(t, p, ch, a, sx, sy, sz, v);
    }
  }

  lemma AffineNear(t: Table, p: Pixel, ch: nat, a: int, sx: int, sy: int, sz: int, v: nat)
    requires TableReady(t) && PixelOk(p) && ch < 3 && Affine(t, ch, a, sx, sy, sz)
    requires v == Interpolate(TapsOf(t, p, ch), WeightsOf(t, p)).v2
    ensures Near(t, p, v, a, sx, sy, sz)
  {
    TapsAffine(t, p, ch, a, sx, sy, sz);
    ResultError(TapsOf(t, p, ch), WeightsOf(t, p));
    AxisNear(p.r, t.dimX, sx);
    AxisNear(p.g, t.dimY, sy);
    AxisNear(p.b, t.dimZ, sz);
  }

  /** One channel, read from memory as the kernel does: the base, moved, and the eight offsets. */
  method Channel(t: Table, p: Pixel, ch: nat) returns (v: nat)
    requires TableReady(t) && PixelOk(p) && ch < 4
    ensures v == Interpolate(TapsOf(t, p, ch), WeightsOf(t, p)).v2 <= 255
  {
    CoordsIn(t, p);
    var x, y, z := Coord(p.r, t.dimX), Coord(p.g, t.dimY), Coord(p.b, t.dimZ);
    var bp := 4 * x + y * t.stride + z * (t.stride * t.dimY) + ch;
    var sy, sz := t.stride, t.stride * t.dimY;
    Offsets(t, x, y, z, ch);
    var taps := Taps(t.bytes[bp], t.bytes[bp + 4], t.bytes[bp + sy], t.bytes[bp + sy + 4],
                     t.bytes[bp + sz], t.bytes[bp + sz + 4], t.bytes[bp + sy + sz], t.bytes[bp + sy + sz + 4]);
    assert taps == TapsOf(t, p, ch);
    NoOverflow(taps, WeightsOf(t, p));
    v := Interpolate(taps, WeightsOf(t, p)).v2;
  }

  lemma Offsets(t: Table, x: nat, y: nat, z: nat, ch: nat)
    requires TableOk(t) && x + 1 < t.dimX && y + 1 < t.dimY && z + 1 < t.dimZ && ch < 4
    ensures var bp, sy, sz := Address(t, x, y, z, ch), t.stride, t.stride * t.dimY;
      && bp + 4 == Address(t, x + 1, y, z, ch) < |t.bytes| && bp < |t.bytes|
      && bp + sy == Address(t, x, y + 1, z, ch) < |t.bytes| &&
          bp + sy + 4 == Address(t, x + 1, y + 1, z, ch) < |t.bytes|
      && bp + sz == Address(t, x, y, z + 1, ch) < |t.bytes| &&
          bp + sz + 4 == Address(t, x + 1, y, z + 1, ch) < |t.bytes|
      && bp + sy + sz == Address(t, x, y + 1, z + 1, ch) < |t.bytes| &&
          bp + sy + sz + 4 == Address(t, x + 1, y + 1, z + 1, ch) < |t.bytes|
  {
    assert (y + 1) * t.stride == y * t.stride + t.stride;
    var sz := t.stride * t.dimY;
    assert (z + 1) * sz == z * sz + sz;
    AddressIn(t, x, y, z, ch);
    AddressIn(t, x + 1, y, z, ch);
    AddressIn(t, x, y + 1, z, ch);
    AddressIn(t, x + 1, y + 1, z, ch);
    AddressIn(t, x, y, z + 1, ch);
    AddressIn(t, x + 1, y, z + 1, ch);
    AddressIn(t, x, y + 1, z + 1, ch);
    AddressIn(t, x + 1, y + 1, z + 1, ch);
  }

  method MapPixel(t: Table, p: Pixel) returns (q: Pixel)
    requires TableReady(t) && PixelOk(p)
    ensures Maps(t, p, q)
  {
    var r := Channel(t, p, 0);
    var g := Channel(t, p, 1);
    var b := Channel(t, p, 2);
    q := Pixel(r, g, b, p.a);
  }

  /** The scalar loop of `kernel` over a row of pixels.  The input may be the output. */
  method Kernel(t: Table, input: array<Pixel>, output: array<Pixel>)
    requires TableReady(t) && input.Length == output.Length
    requires forall i :: 0 <= i < input.Length ==> PixelOk(input[i])
    modifies output
    ensures forall i :: 0 <= i < input.Length ==> PixelOk(old(input[i])) && Maps(t, old(input[i]), output[i])
    ensures forall i :: 0 <= i < input.Length ==> Follows(t, old(input[i]), output[i])
  {
    var x1 := 0;
    while x1 < input.Length
      invariant 0 <= x1 <= input.Length
      invariant forall i :: x1 <= i < input.Length ==> input[i] == old(input[i])
      invariant forall i :: 0 <= i < x1 ==> Maps(t, old(input[i]), output[i])
    {
      var q := MapPixel(t, input[x1]);
      output[x1] := q;
      x1 := x1 + 1;
    }
    forall i | 0 <= i < input.Length ensures Follows(t, old(input[i]), output[i]) {
      MapsFollow(t, old(input[i]), output[i]);
    }
  }
}
