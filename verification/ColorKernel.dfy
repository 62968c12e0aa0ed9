/** The whole integer kernel of the color-matrix intrinsic: the precompiled chunks that load, unpack, pack
    and store around the generated arithmetic, and the loop over groups of four pixels. */
module ColorKernel {
  import opened Simd
  import opened ColorMatrix

  /** Channels of a pixel, and rows of the matrix. */
  const CHANNELS: nat := 4

  // ---------------------------------------------------------------------------------------------
  // Pixels in registers

  ghost predicate ChannelOk(p: seq<int>) {
    |p| == 4 && forall e :: 0 <= e < 4 ==> 0 <= p[e] <= 255
  }

  /** A doubleword with a byte of each pixel in its low half. */
  function Quad(p: seq<int>): seq<int>
    requires |p| == 4
  {
    [p[0] + 256 * p[1], p[2] + 256 * p[3], 0, 0]
  }

  /** D`j` has channel `p`. */
  ghost predicate Holds(r: Regs, j: nat, p: seq<int>)
    requires |r| == 32 && j < 4 && |p| == 4
  {
    r[j] == Quad(p)
  }

  /** The first `n` channels; the others are zero. */
  function Present(px: Pixels, n: nat): Pixels
    requires |px| == 4
  {
    seq(4, i requires 0 <= i < 4 => if i < n then px[i] else CLEAR)
  }

  lemma PresentOk(px: Pixels, n: nat)
    requires ValidPixels(px)
    ensures ValidPixels(Present(px, n))
  {
  }

  /** Nothing but the low half of D0 to D3 is ever loaded. */
  ghost predicate UpperClear(r: Regs) {
    ValidRegs(r) && forall d :: 0 <= d < 4 ==> r[d][2] == 0 && r[d][3] == 0
  }

  // ---------------------------------------------------------------------------------------------
  // Chunks

  /** `prefix_i`: the matrix in D4 to D7, the offsets in all lanes of Q4 to Q7, and Q0, Q1 and Q9 to Q11
      cleared.  Q8 is not. */
  function Prefix(r: Regs, c: Coeffs): (r': Regs)
    requires ValidRegs(r) && c.Valid()
    ensures ValidRegs(r')
  {
    seq(32, d requires 0 <= d < 32 => PrefixD(r, c, d))
  }

  function PrefixD(r: Regs, c: Coeffs, d: nat): (x: seq<int>)
    requires ValidRegs(r) && c.Valid() && d < 32
    ensures |x| == 4 && forall e :: 0 <= e < 4 ==> 0 <= x[e] < 0x1_0000
  {
    if d < 4 || 18 <= d < 24 then CLEAR
    else if d < 8 then
      var b := 4 * (d - 4);
      [U16(c.ip[b]), U16(c.ip[b + 1]), U16(c.ip[b + 2]), U16(c.ip[b + 3])]
    else if d < 16 then Split(c.ipa[(d - 8) / 2], c.ipa[(d - 8) / 2])
    else r[d]
  }

  /** The lane loads of `load_u8_*`: a byte of each of four pixels into the low half of D0 to D`n - 1`. */
  function LoadLanes(r: Regs, px: Pixels, n: nat): (r': Regs)
    requires ValidRegs(r) && ValidPixels(px) && n <= 4
    ensures ValidRegs(r')
  {
    if n == 0 then r else
      var r := LoadLanes(r, px, n - 1);
      r[n - 1 := [px[n - 1][0] + 256 * px[n - 1][1], px[n - 1][2] + 256 * px[n - 1][3], r[n - 1][2], r[n - 1][3]]]
  }

  /** The clearing of D`n` to D3 behind the loads. */
  function ClearFrom(r: Regs, n: nat, m: nat): (r': Regs)
    requires ValidRegs(r) && m <= 4
    ensures ValidRegs(r')
  {
    if m <= n then r else VeorD(ClearFrom(r, n, m - 1), m - 1)
  }

  /** `load_u8_4`, `load_u8_3`, `load_u8_2` and `load_u8_1`.  Three channels are stored in four bytes. */
  function Load(r: Regs, px: Pixels, inVec: nat): (r': Regs)
    requires ValidRegs(r) && ValidPixels(px) && inVec <= 4
    ensures ValidRegs(r')
  {
    ClearFrom(LoadLanes(r, px, if inVec == 3 then CHANNELS else inVec), inVec, CHANNELS)
  }

  /** `unpack_u8_4` to `unpack_u8_1`, up to channel `m`: channels are widened, absent ones cleared. */
  function Unpack(r: Regs, n: nat, m: nat): (r': Regs)
    requires ValidRegs(r) && m <= 4
    ensures ValidRegs(r')
  {
    if m == 0 then r
    else if m - 1 < n then Vmovl(Unpack(r, n, m - 1), 12 + (m - 1), m - 1)
    else Veor(Unpack(r, n, m - 1), 12 + (m - 1))
  }

  /** `pack_u8_4` to `pack_u8_1`, first half: the accumulators, shifted, over the widened channels. */
  function Shrink(r: Regs, n: nat): (r': Regs)
    requires ValidRegs(r) && n <= 4
    ensures ValidRegs(r')
  {
    if n == 0 then r else Vrshrn(Shrink(r, n - 1), 24 + 2 * (n - 1), 8 + (n - 1))
  }

  /** Second half: clamped to bytes. */
  function Narrow(r: Regs, n: nat): (r': Regs)
    requires ValidRegs(r) && n <= 4
    ensures ValidRegs(r')
  {
    if n == 0 then r else Vqmovun(Narrow(r, n - 1), n - 1, 12 + (n - 1))
  }

  /** `dot`: red is stored for green and blue. */
  function Dot(r: Regs): (r': Regs)
    requires ValidRegs(r)
    ensures ValidRegs(r')
  {
    VmovD(VmovD(r, 1, 0), 2, 0)
  }

  /** How many channels are widened. */
  function UnpackCount(key: Key): nat {
    if key.inVec == 4 && key.copyAlpha then 3 else key.inVec
  }

  /** How many are packed. */
  function PackCount(key: Key): nat {
    if key.dot then 1 else if key.outVec == 4 && key.copyAlpha then 3 else key.outVec
  }

  // ---------------------------------------------------------------------------------------------
  // One turn of the loop

  predicate KeyOk(key: Key) {
    1 <= key.inVec <= 4 && 1 <= key.outVec <= 4
  }

  /** The registers when the generated arithmetic starts. */
  function Unpacked(r: Regs, key: Key, px: Pixels): (r': Regs)
    requires ValidRegs(r) && ValidPixels(px) && KeyOk(key)
    ensures ValidRegs(r')
  {
    Unpack(Load(r, px, key.inVec), UnpackCount(key), CHANNELS)
  }

  /** And when it ends. */
  function Summed(r: Regs, key: Key, px: Pixels): (r': Regs)
    requires ValidRegs(r) && ValidPixels(px) && KeyOk(key)
    ensures ValidRegs(r')
  {
    Run(Unpacked(r, key, px), DecodeAll(Kernel(key)))
  }

  /** The registers at the store. */
  function Packed(r: Regs, key: Key, px: Pixels): (r': Regs)
    requires ValidRegs(r) && ValidPixels(px) && KeyOk(key)
    ensures ValidRegs(r')
  {
    Pack(Summed(r, key, px), key)
  }

  // ---------------------------------------------------------------------------------------------
  // What each chunk leaves

  /** `r'` differs from `r` at most in D`a` to D`b - 1`. */
  ghost predicate Within(r: Regs, r': Regs, a: nat, b: nat) {
    |r| == |r'| == 32 && forall d :: 0 <= d < 32 && !(a <= d < b) ==> r'[d] == r[d]
  }

  lemma {:induction false} LanesLoaded(r: Regs, px: Pixels, n: nat)
    requires UpperClear(r) && ValidPixels(px) && n <= 4
    ensures var r' := LoadLanes(r, px, n);
      UpperClear(r') && Within(r, r', 0, n) && forall i :: 0 <= i < n ==> r'[i] == Quad(px[i])
  {
    if n > 0 { LanesLoaded(r, px, n - 1); }
  }

  lemma {:induction false} Cleared(r: Regs, n: nat, m: nat)
    requires ValidRegs(r) && m <= 4
    ensures var r' := ClearFrom(r, n, m); Within(r, r', n, m) && forall i :: n <= i < m ==> r'[i] == CLEAR
  {
    if n < m { Cleared(r, n, m - 1); }
  }

  lemma LoadLeaves(r: Regs, px: Pixels, inVec: nat) returns (r': Regs)
    requires UpperClear(r) && ValidPixels(px) && 1 <= inVec <= 4
    ensures ValidRegs(r') && r' == Load(r, px, inVec) && Within(r, r', 0, 4)
    ensures forall i: nat :: i < 4 ==> Holds(r', i, Present(px, inVec)[i])
  {
    r' := Load(r, px, inVec);
    var n := if inVec == 3 then CHANNELS else inVec;
    LanesLoaded(r, px, n);
    Cleared(LoadLanes(r, px, n), inVec, CHANNELS);
  }

  lemma QuadBytes(r: Regs, d: nat, p: seq<int>, k: nat)
    requires ValidRegs(r) && d < 32 && ChannelOk(p) && r[d] == Quad(p) && k < 8
    ensures Byte(r, d, k) == if k < 4 then p[k] else 0
  {
  }

  lemma Widens(r: Regs, q: nat, d: nat, p: seq<int>)
    requires ValidRegs(r) && 12 <= q < 16 && d < 4 && ChannelOk(p) && r[d] == Quad(p)
    ensures Vmovl(r, q, d)[2 * q] == p && Vmovl(r, q, d)[2 * q + 1] == CLEAR
  {
    forall k: nat | k < 8 ensures Byte(r, d, k) == if k < 4 then p[k] else 0 { QuadBytes(r, d, p, k); }
  }

  /** Channel `i` is widened in Q`12 + i`. */
  ghost predicate Wide(r: Regs, i: nat, p: seq<int>)
    requires |r| == 32 && i < 4
  {
    r[24 + 2 * i] == p && r[25 + 2 * i] == CLEAR
  }

  /** One channel. */
  lemma UnpackOne(r: Regs, px: Pixels, n: nat, i: nat) returns (r': Regs)
    requires ValidRegs(r) && ValidPixels(px) && i < 4 && Holds(r, i, px[i])
    ensures ValidRegs(r') && r' == if i < n then Vmovl(r, 12 + i, i) else Veor(r, 12 + i)
    ensures Within(r, r', 24 + 2 * i, 26 + 2 * i) && Wide(r', i, Present(px, n)[i])
  {
    if i < n {
      r' := Vmovl(r, 12 + i, i);
      Widens(r, 12 + i, i, px[i]);
    } else {
      r' := Veor(r, 12 + i);
    }
  }

  lemma {:induction false} UnpackLeaves(r: Regs, px: Pixels, n: nat, m: nat) returns (r': Regs)
    requires ValidRegs(r) && ValidPixels(px) && m <= 4 && forall i: nat :: i < 4 ==> Holds(r, i, px[i])
    ensures ValidRegs(r') && r' == Unpack(r, n, m)
    ensures Within(r, r', 24, 32) && forall i: nat :: i < m ==> Wide(r', i, Present(px, n)[i])
  {
    r' := r;
    if m > 0 {
      var r1 := UnpackLeaves(r, px, n, m - 1);
      assert Holds(r, m - 1, px[m - 1]);
      r' := UnpackOne(r1, px, n, m - 1);
      forall i: nat | i < m ensures Wide(r', i, Present(px, n)[i]) {
        if i < m - 1 { assert Wide(r1, i, Present(px, n)[i]); }
      }
    }
  }

  /** What the arithmetic sees of a group of pixels. */
  function Seen(key: Key, px: Pixels): Pixels
    requires |px| == 4
  {
    Present(px, UnpackCount(key))
  }

  lemma UnpackedLeaves(r: Regs, key: Key, px: Pixels) returns (u: Regs)
    requires UpperClear(r) && ValidPixels(px) && KeyOk(key)
    ensures ValidRegs(u) && u == Unpacked(r, key, px)
    ensures forall d :: 4 <= d < 24 ==> u[d] == r[d]
    ensures forall i: nat :: i < 4 ==> Holds(u, i, Present(px, key.inVec)[i]) && Wide(u, i, Seen(key, px)[i])
  {
    var loaded := Present(px, key.inVec);
    var r1 := LoadLeaves(r, px, key.inVec);
    PresentOk(px, key.inVec);
    u := UnpackLeaves(r1, loaded, UnpackCount(key), CHANNELS);
    forall i: nat | i < 4 ensures Holds(u, i, loaded[i]) && Wide(u, i, Seen(key, px)[i]) {
      assert Holds(r1, i, loaded[i]) && Wide(u, i, Present(loaded, UnpackCount(key))[i]);
    }
  }

  predicate WritesAcc(i: Instr) {
    !i.Unknown? && 8 <= i.q < 12
  }

  predicate AccOnly(code: seq<Instr>) {
    forall k :: 0 <= k < |code| ==> WritesAcc(code[k])
  }

  /** Code that writes accumulators writes nothing else. */
  lemma {:induction false} AccFrame(r: Regs, code: seq<Instr>)
    requires ValidRegs(r) && AccOnly(code)
    ensures Within(r, Run(r, code), 16, 24)
  {
    if |code| > 0 {
      var n := |code| - 1;
      AccFrame(r, code[..n]);
      assert WritesAcc(code[n]);
    }
  }

  lemma {:induction false} RowAccOnly(key: Key, i: nat, n: nat)
    requires n <= 4
    ensures AccOnly(RowInstrs(key, i, n))
  {
    if n > 0 { RowAccOnly(key, i, n - 1); }
  }

  lemma {:induction false} MulsAccOnly(key: Key, n: nat)
    ensures AccOnly(MulInstrs(key, n))
  {
    if n > 0 {
      MulsAccOnly(key, n - 1);
      RowAccOnly(key, n - 1, 4);
    }
  }

  lemma {:induction false} AddsAccOnly(key: Key, n: nat)
    requires n <= 4
    ensures AccOnly(AddInstrs(key, n))
  {
    if n > 0 { AddsAccOnly(key, n - 1); }
  }

  lemma ArithmeticFrame(r: Regs, key: Key) returns (s: Regs)
    requires ValidRegs(r)
    ensures ValidRegs(s) && s == Run(r, DecodeAll(Kernel(key))) && Within(r, s, 16, 24)
  {
    s := Run(r, DecodeAll(Kernel(key)));
    DecodesKernel(key);
    MulsAccOnly(key, 4);
    AddsAccOnly(key, 4);
    AccFrame(r, MulInstrs(key, 4) + AddInstrs(key, 4));
  }

  // ---------------------------------------------------------------------------------------------
  // The state of the loop

  /** No word of the kernel writes accumulator `j`. */
  predicate Untouched(key: Key, j: nat) {
    !Started(key, CHANNELS, j) && j !in key.addMask
  }

  /** What an accumulator that is not written holds: nothing cleared Q8. */
  function Rest(r0: Regs, j: nat, e: nat): int
    requires ValidRegs(r0) && j < 4 && e < 4
  {
    if j == 0 then Acc(r0, 0, e) else 0
  }

  /** At the start of each turn, in a call that was entered with registers `r0`. */
  ghost predicate Ready(r: Regs, r0: Regs, key: Key, c: Coeffs)
    requires c.Valid() && ValidRegs(r0)
  {
    && UpperClear(r)
    && (forall i: nat, j: nat :: i < 4 && j < 4 ==> MatrixReg(r, i, j) == U16(c.ip[4 * i + j]))
    && (forall j: nat, e: nat :: j < 4 && e < 4 ==> OffsetReg(r, j, e) == c.ipa[j])
    && (forall j: nat, e: nat :: j < 4 && e < 4 && Untouched(key, j) ==> Acc(r, j, e) == Rest(r0, j, e))
  }

  lemma PrefixReady(r0: Regs, key: Key, c: Coeffs)
    requires ValidRegs(r0) && c.Valid()
    ensures Ready(Prefix(r0, c), r0, key, c)
  {
    var r := Prefix(r0, c);
    forall i: nat, j: nat | i < 4 && j < 4 ensures MatrixReg(r, i, j) == U16(c.ip[4 * i + j]) {
      assert r[4 + i] == PrefixD(r0, c, 4 + i);
    }
    forall j: nat, e: nat | j < 4 && e < 4 ensures OffsetReg(r, j, e) == c.ipa[j] {
      assert r[2 * (4 + j) + e / 2] == Split(c.ipa[j], c.ipa[j]);
      SplitFits(c.ipa[j]);
    }
    forall j: nat, e: nat | j < 4 && e < 4 ensures Acc(r, j, e) == Rest(r0, j, e) {
      assert r[2 * (8 + j) + e / 2] == PrefixD(r0, c, 2 * (8 + j) + e / 2);
    }
  }

  lemma UnpackedLoaded(r: Regs, r0: Regs, key: Key, c: Coeffs, px: Pixels) returns (u: Regs)
    requires c.Valid() && ValidRegs(r0) && Ready(r, r0, key, c) && ValidPixels(px) && KeyOk(key)
    ensures ValidRegs(u) && u == Unpacked(r, key, px) && (forall d :: 4 <= d < 24 ==> u[d] == r[d])
    ensures forall i: nat :: i < 4 ==> Wide(u, i, Seen(key, px)[i])
    ensures ValidPixels(Seen(key, px)) && Loaded(u, c, Seen(key, px), key.inVec)
  {
    var seen := Seen(key, px);
    u := UnpackedLeaves(r, key, px);
    PresentOk(px, UnpackCount(key));
    forall i: nat, j: nat | i < 4 && j < 4 ensures MatrixReg(u, i, j) == U16(c.ip[4 * i + j]) {
      assert MatrixReg(r, i, j) == MatrixReg(u, i, j);
    }
    forall j: nat, e: nat | j < 4 && e < 4 ensures OffsetReg(u, j, e) == c.ipa[j] {
      assert OffsetReg(r, j, e) == OffsetReg(u, j, e);
    }
    forall i: nat, e: nat | i < key.inVec && e < 4
        ensures InputReg(u, i, e) == seen[i][e] { assert Wide(u, i, seen[i]); }
  }

  /** Two pixels of a channel, seen as one 32-bit lane; the upper lanes are empty. */
  function Pair(p: seq<int>, e: nat): int
    requires |p| == 4
  {
    if e == 0 then p[0] + 0x1_0000 * p[1] else if e == 1 then p[2] + 0x1_0000 * p[3] else 0
  }

  lemma WidePair(r: Regs, i: nat, p: seq<int>, e: nat)
    requires ValidRegs(r) && i < 4 && e < 4 && ChannelOk(p) && Wide(r, i, p)
    ensures Expanded(r, i, e) == Pair(p, e)
  {
  }

  /** Accumulator `j` of pixel `e` when the arithmetic ends, for a call entered with `r0`. */
  function Total(r0: Regs, key: Key, c: Coeffs, px: Pixels, j: nat, e: nat): int
    requires ValidRegs(r0) && c.Valid() && ValidPixels(px) && KeyOk(key) && j < 4 && e < 4
  {
    PresentOk(px, UnpackCount(key));
    var seen := Seen(key, px);
    Added(key, c, j, if Started(key, CHANNELS, j) then Sum(c, seen, key.inVec, j, e)
        else Rest(r0, j, e), Pair(seen[j], e))
  }

  lemma SummedIs(r: Regs, r0: Regs, key: Key, c: Coeffs, px: Pixels, vin: nat, vout: nat, j: nat, e: nat)
      returns (s: Regs)
    requires c.Valid() && ValidRegs(r0) && Ready(r, r0, key, c) && ValidPixels(px) && KeyFor(key, c, vin, vout) &&
        j < 4 && e < 4
    ensures ValidRegs(s) && s == Summed(r, key, px) && Acc(s, j, e) == Total(r0, key, c, px, j, e)
  {
    var seen := Seen(key, px);
    var u := UnpackedLoaded(r, r0, key, c, px);
    s := ProgramRun(u, key, c, seen, vin, vout, j, e);
    assert Wide(u, j, seen[j]);
    WidePair(u, j, seen[j], e);
    assert Acc(u, j, e) == Acc(r, j, e);
  }

  lemma ProgramRun(u: Regs, key: Key, c: Coeffs, px: Pixels, vin: nat, vout: nat, j: nat, e: nat) returns (s: Regs)
    requires c.Valid() && ValidPixels(px) && KeyFor(key, c, vin, vout) && Loaded(u, c, px, Vec(vin)) && j < 4 && e < 4
    ensures ValidRegs(s) && s == Run(u, DecodeAll(Kernel(key)))
    ensures Acc(s, j, e) == Added(key, c, j, if Started(key, CHANNELS, j) then Sum(c, px, Vec(vin), j, e)
        else Acc(u, j, e), Expanded(u, j, e))
  {
    DecodesKernel(key);
    s := ProgramRuns(u, key, c, px, vin, vout, j, e);
  }

  // ---------------------------------------------------------------------------------------------
  // Packing and storing

  /** What packing makes of an accumulator: shifted, cut to 16 bits, clamped to a byte. */
  function Cut(v: int): (b: int)
    ensures 0 <= b <= 255
  {
    Clamp8(S16(U16(Shift8(v))))
  }

  function Halves(v: seq<int>): seq<int>
    requires |v| == 4
  {
    [U16(Shift8(v[0])), U16(Shift8(v[1])), U16(Shift8(v[2])), U16(Shift8(v[3]))]
  }

  function Cuts(v: seq<int>): (p: seq<int>)
    requires |v| == 4
    ensures |p| == 4
  {
    [Cut(v[0]), Cut(v[1]), Cut(v[2]), Cut(v[3])]
  }

  /** The four lanes of accumulator `j`. */
  function Accs(r: Regs, j: nat): (v: seq<int>)
    requires ValidRegs(r) && j < 4
    ensures |v| == 4
  {
    [Acc(r, j, 0), Acc(r, j, 1), Acc(r, j, 2), Acc(r, j, 3)]
  }

  lemma AccsSame(r: Regs, r': Regs, j: nat)
    requires ValidRegs(r) && ValidRegs(r') && j < 4 && forall d :: 16 <= d < 24 ==> r'[d] == r[d]
    ensures Accs(r', j) == Accs(r, j)
  {
  }

  ghost predicate Shrunk(r: Regs, i: nat, v: seq<int>)
    requires |r| == 32 && i < 4 && |v| == 4
  {
    r[24 + 2 * i] == Halves(v)
  }

  /** One accumulator. */
  lemma ShrinkOne(r: Regs, i: nat) returns (r': Regs)
    requires ValidRegs(r) && i < 4
    ensures ValidRegs(r') && r' == Vrshrn(r, 24 + 2 * i, 8 + i)
    ensures Shrunk(r', i, Accs(r, i)) && Within(r, r', 24 + 2 * i, 25 + 2 * i)
  {
    r' := Vrshrn(r, 24 + 2 * i, 8 + i);
  }

  lemma {:induction false} ShrinkLeaves(r: Regs, n: nat) returns (r': Regs)
    requires ValidRegs(r) && n <= 4
    ensures ValidRegs(r') && r' == Shrink(r, n)
    ensures Within(r, r', 24, 32) && (forall i: nat :: i < n ==> Shrunk(r', i, Accs(r, i)))
    ensures forall i: nat :: i < 4 ==> r'[25 + 2 * i] == r[25 + 2 * i]
  {
    r' := r;
    if n > 0 {
      var r1 := ShrinkLeaves(r, n - 1);
      r' := ShrinkOne(r1, n - 1);
      AccsSame(r, r1, n - 1);
      forall i: nat | i < n ensures Shrunk(r', i, Accs(r, i)) {
        if i < n - 1 { assert Shrunk(r1, i, Accs(r, i)); }
      }
    }
  }

  lemma NarrowTwo(v: int, w: int)
    ensures Bytes2(U16(Shift8(v)), U16(Shift8(w))) == Cut(v) + 256 * Cut(w)
  {
  }

  lemma NarrowList(h: seq<int>, v: seq<int>)
    requires |v| == 4 && h == Halves(v)
    ensures [Bytes2(h[0], h[1]), Bytes2(h[2], h[3]), 0, 0] == Quad(Cuts(v))
  {
    NarrowTwo(v[0], v[1]);
    NarrowTwo(v[2], v[3]);
  }

  lemma NarrowOne(s: Regs, d: nat, v: seq<int>) returns (s': Regs)
    requires ValidRegs(s) && d < 4 && |v| == 4 && Shrunk(s, d, v) && s[25 + 2 * d] == CLEAR
    ensures ValidRegs(s') && s' == Vqmovun(s, d, 12 + d) && Holds(s', d, Cuts(v)) && Within(s, s', d, d + 1)
  {
    NarrowList(s[24 + 2 * d], v);
    s' := VqmovunIs(s, d, 12 + d);
  }

  lemma {:induction false} NarrowLeaves(r: Regs, s: Regs, n: nat) returns (s': Regs)
    requires ValidRegs(r) && ValidRegs(s) && n <= 4
    requires forall i: nat :: i < n ==> Shrunk(s, i, Accs(r, i)) && s[25 + 2 * i] == CLEAR
    ensures ValidRegs(s') && s' == Narrow(s, n)
    ensures Within(s, s', 0, n) && forall j: nat :: j < n ==> Holds(s', j, Cuts(Accs(r, j)))
  {
    s' := s;
    if n > 0 {
      var s1 := NarrowLeaves(r, s, n - 1);
      assert Shrunk(s, n - 1, Accs(r, n - 1));
      s' := NarrowOne(s1, n - 1, Accs(r, n - 1));
      forall j: nat | j < n ensures Holds(s', j, Cuts(Accs(r, j))) {
        if j < n - 1 { assert Holds(s1, j, Cuts(Accs(r, j))); }
      }
    }
  }

  /** Channel `j` as it is stored. */
  function Channel(r: Regs, key: Key, px: Pixels, j: nat): (p: seq<int>)
    requires ValidRegs(r) && ValidPixels(px) && j < 4
    ensures |p| == 4
  {
    if key.dot && 1 <= j <= 2 then Cuts(Accs(r, 0))
    else if j < PackCount(key) then Cuts(Accs(r, j))
    else PresentOk(px, key.inVec); Present(px, key.inVec)[j]
  }

  /** The arithmetic leaves the loaded channels, and what is left in the upper halves, alone. */
  lemma SummedLeaves(r: Regs, key: Key, px: Pixels) returns (s: Regs)
    requires UpperClear(r) && ValidPixels(px) && KeyOk(key)
    ensures ValidRegs(s) && s == Summed(r, key, px)
    ensures (forall d :: 4 <= d < 16 ==> s[d] == r[d]) && (forall i: nat :: i < 4 ==> s[25 + 2 * i] == CLEAR)
    ensures forall i: nat :: i < 4 ==> Holds(s, i, Present(px, key.inVec)[i])
  {
    var u := UnpackedLeaves(r, key, px);
    s := ArithmeticFrame(u, key);
    forall i: nat | i < 4 ensures s[25 + 2 * i] == CLEAR { assert Wide(u, i, Seen(key, px)[i]); }
  }

  /** `p` has the first `n` accumulators packed, and is otherwise as before. */
  ghost predicate PackedFrom(s: Regs, p: Regs, n: nat)
    requires ValidRegs(s) && ValidRegs(p) && n <= 4
  {
    (forall d :: n <= d < 24 ==> p[d] == s[d]) && (forall j: nat :: j < n ==> Holds(p, j, Cuts(Accs(s, j))))
  }

  lemma PackLeaves(s: Regs, n: nat) returns (p: Regs)
    requires ValidRegs(s) && n <= 4 && forall i: nat :: i < 4 ==> s[25 + 2 * i] == CLEAR
    ensures ValidRegs(p) && p == Narrow(Shrink(s, n), n)
    ensures PackedFrom(s, p, n)
  {
    var h := ShrinkLeaves(s, n);
    p := NarrowLeaves(s, h, n);
  }

  /** `pack_u8_*`, and `dot` if the key asks for it. */
  function Pack(s: Regs, key: Key): (p: Regs)
    requires ValidRegs(s) && KeyOk(key)
    ensures ValidRegs(p)
  {
    if key.dot then Dot(Narrow(Shrink(s, PackCount(key)), PackCount(key)))
        else Narrow(Shrink(s, PackCount(key)), PackCount(key))
  }

  lemma DotLeaves(p: Regs, v: seq<int>) returns (p': Regs)
    requires ValidRegs(p) && |v| == 4 && Holds(p, 0, v)
    ensures ValidRegs(p') && p' == Dot(p) && Within(p, p', 1, 3)
    ensures Holds(p', 0, v) && Holds(p', 1, v) && Holds(p', 2, v)
  {
    p' := Dot(p);
  }

  lemma PlainStore(s: Regs, p: Regs, key: Key, px: Pixels)
    requires ValidRegs(s) && ValidRegs(p) && ValidPixels(px) && KeyOk(key) && !key.dot &&
        PackedFrom(s, p, PackCount(key))
    requires forall i: nat :: i < 4 ==> Holds(s, i, Present(px, key.inVec)[i])
    ensures forall j: nat :: j < 4 ==> Holds(p, j, Channel(s, key, px, j))
  {
    forall j: nat | j < 4 ensures Holds(p, j, Channel(s, key, px, j)) { StoredChannel(s, p, key, px, j); }
  }

  lemma DotStore(s: Regs, q: Regs, key: Key, px: Pixels) returns (p: Regs)
    requires ValidRegs(s) && ValidRegs(q) && ValidPixels(px) && KeyOk(key) && key.dot &&
        PackedFrom(s, q, PackCount(key))
    requires forall i: nat :: i < 4 ==> Holds(s, i, Present(px, key.inVec)[i])
    ensures ValidRegs(p) && p == Dot(q) && forall d :: 4 <= d < 24 ==> p[d] == s[d]
    ensures forall j: nat :: j < 4 ==> Holds(p, j, Channel(s, key, px, j))
  {
    p := DotLeaves(q, Cuts(Accs(s, 0)));
    assert p[3] == s[3];
    forall j: nat | j < 4 ensures Holds(p, j, Channel(s, key, px, j)) { StoredChannel(s, p, key, px, j); }
  }

  lemma StoredChannel(s: Regs, p: Regs, key: Key, px: Pixels, j: nat)
    requires ValidRegs(s) && ValidRegs(p) && ValidPixels(px) && KeyOk(key) && j < 4
    requires Holds(s, j, Present(px, key.inVec)[j])
    requires j < PackCount(key) ==> Holds(p, j, Cuts(Accs(s, j)))
    requires key.dot && 1 <= j <= 2 ==> Holds(p, j, Cuts(Accs(s, 0)))
    requires j >= PackCount(key) && !(key.dot && j <= 2) ==> p[j] == s[j]
    ensures Holds(p, j, Channel(s, key, px, j))
  {
  }

  /** The registers behind the packing: the stored channels in D0 to D3, and nothing else of use changed. */
  lemma PackedLeaves(r: Regs, key: Key, px: Pixels) returns (s: Regs, p: Regs)
    requires UpperClear(r) && ValidPixels(px) && KeyOk(key)
    ensures ValidRegs(s) && ValidRegs(p) && s == Summed(r, key, px) && p == Packed(r, key, px)
    ensures (forall d :: 4 <= d < 24 ==> p[d] == s[d]) && (forall d :: 4 <= d < 16 ==> p[d] == r[d])
    ensures forall j: nat :: j < 4 ==> Holds(p, j, Channel(s, key, px, j))
  {
    s := SummedLeaves(r, key, px);
    p := PackLeaves(s, PackCount(key));
    if key.dot {
      p := DotStore(s, p, key, px);
    } else {
      PlainStore(s, p, key, px);
    }
  }

  /** Byte `e` of channel `j` that a turn of the loop stores, for a call entered with `r0`. */
  function Stored(r0: Regs, key: Key, c: Coeffs, px: Pixels, j: nat, e: nat): int
    requires ValidRegs(r0) && c.Valid() && ValidPixels(px) && KeyOk(key) && j < 4 && e < 4
  {
    if key.dot && 1 <= j <= 2 then Cut(Total(r0, key, c, px, 0, e))
    else if j < PackCount(key) then Cut(Total(r0, key, c, px, j, e))
    else if j < key.inVec then px[j][e]
    else 0
  }

  lemma ChannelIs(s: Regs, key: Key, px: Pixels, j: nat, e: nat)
    requires ValidRegs(s) && ValidPixels(px) && j < 4 && e < 4
    ensures ChannelOk(Channel(s, key, px, j))
    ensures Channel(s, key, px, j)[e] ==
      if key.dot && 1 <= j <= 2 then Cut(Acc(s, 0, e))
      else if j < PackCount(key) then Cut(Acc(s, j, e))
      else if j < key.inVec then px[j][e] else 0
  {
    PresentOk(px, key.inVec);
  }

  /** One turn of the loop stores those bytes, and leaves the registers ready for the next. */
  lemma TurnStores(r: Regs, r0: Regs, key: Key, c: Coeffs, px: Pixels, vin: nat, vout: nat, j: nat, e: nat)
      returns (p: Regs)
    requires c.Valid() && ValidRegs(r0) && Ready(r, r0, key, c) && ValidPixels(px) && KeyFor(key, c, vin, vout) &&
        j < 4 && e < 4
    ensures ValidRegs(p) && p == Packed(r, key, px) && Byte(p, j, e) == Stored(r0, key, c, px, j, e)
  {
    var s;
    s, p := PackedLeaves(r, key, px);
    assert Holds(p, j, Channel(s, key, px, j));
    var s0 := SummedIs(r, r0, key, c, px, vin, vout, 0, e);
    var sj := SummedIs(r, r0, key, c, px, vin, vout, j, e);
    ChannelIs(s, key, px, j, e);
    QuadBytes(p, j, Channel(s, key, px, j), e);
  }

  lemma TurnReady(r: Regs, r0: Regs, key: Key, c: Coeffs, px: Pixels, vin: nat, vout: nat) returns (p: Regs)
    requires c.Valid() && ValidRegs(r0) && Ready(r, r0, key, c) && ValidPixels(px) && KeyFor(key, c, vin, vout)
    ensures ValidRegs(p) && p == Packed(r, key, px) && Ready(p, r0, key, c)
  {
    var s;
    s, p := PackedLeaves(r, key, px);
    forall d: nat | d < 4 ensures p[d][2] == 0 && p[d][3] == 0 { assert Holds(p, d, Channel(s, key, px, d)); }
    forall i: nat, j: nat | i < 4 && j < 4 ensures MatrixReg(p, i, j) == U16(c.ip[4 * i + j]) {
      assert MatrixReg(p, i, j) == MatrixReg(r, i, j);
    }
    forall j: nat, e: nat | j < 4 && e < 4 ensures OffsetReg(p, j, e) == c.ipa[j] {
      assert OffsetReg(p, j, e) == OffsetReg(r, j, e);
    }
    forall j: nat, e: nat | j < 4 && e < 4 && Untouched(key, j) ensures Acc(p, j, e) == Rest(r0, j, e) {
      var s' := SummedIs(r, r0, key, c, px, vin, vout, j, e);
      assert Acc(p, j, e) == Acc(s, j, e);
    }
  }

  // ---------------------------------------------------------------------------------------------
  // A call over a row of groups

  /** `p` is what one turn of the loop over pixels `px` makes of registers `r`. */
  ghost predicate Turn(r: Regs, key: Key, px: Pixels, p: Regs) {
    ValidRegs(r) && ValidPixels(px) && KeyOk(key) && p == Packed(r, key, px)
  }

  /** A call entered with registers `r0`: the registers before and after each group of pixels. */
  ghost predicate Call(rs: seq<Regs>, r0: Regs, key: Key, c: Coeffs, groups: seq<Pixels>) {
    && c.Valid() && ValidRegs(r0) && |rs| == |groups| + 1 && rs[0] == Prefix(r0, c)
    && forall g :: 0 <= g < |groups| ==> Turn(rs[g], key, groups[g], rs[g + 1])
  }

  lemma NextReady(r: Regs, r0: Regs, key: Key, c: Coeffs, px: Pixels, p: Regs, vin: nat, vout: nat)
    requires c.Valid() && ValidRegs(r0) && Turn(r, key, px, p) && Ready(r, r0, key, c) && KeyFor(key, c, vin, vout)
    ensures Ready(p, r0, key, c)
  {
    var p' := TurnReady(r, r0, key, c, px, vin, vout);
  }

  lemma {:induction false} GroupsReady(rs: seq<Regs>, r0: Regs, key: Key, c: Coeffs, groups: seq<Pixels>, n: nat,
      vin: nat, vout: nat)
    requires Call(rs, r0, key, c, groups) && n <= |groups| && KeyFor(key, c, vin, vout)
    ensures Ready(rs[n], r0, key, c)
  {
    if n == 0 {
      PrefixReady(r0, key, c);
    } else {
      GroupsReady(rs, r0, key, c, groups, n - 1, vin, vout);
      NextReady(rs[n - 1], r0, key, c, groups[n - 1], rs[n - 1 + 1], vin, vout);
    }
  }

  /** In every group of every call the accumulators and the stored bytes depend on that group alone, and
      on what Q8 held at entry. */
  lemma GroupStores(rs: seq<Regs>, r0: Regs, key: Key, c: Coeffs, groups: seq<Pixels>, n: nat, vin: nat, vout: nat,
      j: nat, e: nat)
    requires Call(rs, r0, key, c, groups) && n < |groups| && KeyFor(key, c, vin, vout) && j < 4 && e < 4
    ensures Turn(rs[n], key, groups[n], rs[n + 1])
    ensures Acc(Summed(rs[n], key, groups[n]), j, e) == Total(r0, key, c, groups[n], j, e)
    ensures ValidRegs(rs[n + 1]) && Byte(rs[n + 1], j, e) == Stored(r0, key, c, groups[n], j, e)
  {
    GroupsReady(rs, r0, key, c, groups, n, vin, vout);
    assert Turn(rs[n], key, groups[n], rs[n + 1]);
    var s := SummedIs(rs[n], r0, key, c, groups[n], vin, vout, j, e);
    var p := TurnStores(rs[n], r0, key, c, groups[n], vin, vout, j, e);
  }
}
