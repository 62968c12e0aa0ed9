/** The part of the ARMv7 Advanced SIMD instruction set that the color-matrix code generator emits:
    encoding as the generator does it, decoding as section A7.4 of the ARM Architecture Reference
    Manual (ARMv7-A and ARMv7-R edition) lays the fields out, and execution on the register file. */
module Simd {

  // ---------------------------------------------------------------------------------------------
  // Encoding

  function EncodeRegs(vd: bv32, vn: bv32, vm: bv32): bv32 {
    ((vd & 0xf) << 12) | (((vd & 0x10) >> 4) << 22)
    | (vm & 0xf) | (((vm & 0x10) >> 4) << 5)
    | ((vn & 0xf) << 16) | (((vn & 0x10) >> 4) << 7)
  }

  /** vmlal.s16 Qd, Dn, Dm[lane] */
  function EncodeVmlal(q: bv32, d1: bv32, d2: bv32, lane: bv32): bv32 {
    0xf290_0240 | EncodeRegs(q << 1, d1, d2 | (lane << 3))
  }

  /** vmull.s16 Qd, Dn, Dm[lane] */
  function EncodeVmull(q: bv32, d1: bv32, d2: bv32, lane: bv32): bv32 {
    0xf290_0a40 | EncodeRegs(q << 1, d1, d2 | (lane << 3))
  }

  /** vqadd.s32 Qd, Qn, Qm */
  function EncodeVqadd(q: bv32, q1: bv32, q2: bv32): bv32 {
    0xf220_0050 | EncodeRegs(q << 1, q1 << 1, q2 << 1)
  }

  // ---------------------------------------------------------------------------------------------
  // Decoding

  datatype Instr =
    | Vmlal(q: nat, n: nat, m: nat, lane: nat)
    | Vmull(q: nat, n: nat, m: nat, lane: nat)
    | Vqadd(q: nat, qn: nat, qm: nat)
    | Unknown

  /** The instruction classes are told apart by all bits but the register fields. */
  const OPCODE_MASK: bv32 := 0xffb0_0f50

  function FieldD(w: bv32): bv32 { (((w >> 22) & 1) << 4) | ((w >> 12) & 0xf) }

  function FieldN(w: bv32): bv32 { (((w >> 7) & 1) << 4) | ((w >> 16) & 0xf) }

  function FieldM(w: bv32): bv32 { (((w >> 5) & 1) << 4) | (w & 0xf) }

  /** The scalar operand of 16-bit multiplies: register Vm<2:0>, lane M:Vm<3>. */
  function ScalarReg(w: bv32): bv32 { FieldM(w) & 7 }

  function ScalarLane(w: bv32): bv32 { FieldM(w) >> 3 }

  function Decode(w: bv32): Instr {
    if FieldD(w) & 1 != 0 then Unknown
    else if w & OPCODE_MASK == 0xf290_0240 then
      Vmlal((FieldD(w) >> 1) as nat, FieldN(w) as nat, ScalarReg(w) as nat, ScalarLane(w) as nat)
    else if w & OPCODE_MASK == 0xf290_0a40 then
      Vmull((FieldD(w) >> 1) as nat, FieldN(w) as nat, ScalarReg(w) as nat, ScalarLane(w) as nat)
    else if w & OPCODE_MASK == 0xf220_0050 && FieldN(w) & 1 == 0 && FieldM(w) & 1 == 0 then
      Vqadd((FieldD(w) >> 1) as nat, (FieldN(w) >> 1) as nat, (FieldM(w) >> 1) as nat)
    else Unknown
  }

  /** Decoding inverts encoding: the register fields come back, and so does the opcode. */
  lemma RegsRoundTrip(op: bv32, vd: bv32, vn: bv32, vm: bv32)
    requires op & !OPCODE_MASK == 0 && vd < 32 && vn < 32 && vm < 32
    ensures FieldD(op | EncodeRegs(vd, vn, vm)) == vd
    ensures FieldN(op | EncodeRegs(vd, vn, vm)) == vn
    ensures FieldM(op | EncodeRegs(vd, vn, vm)) == vm
    ensures (op | EncodeRegs(vd, vn, vm)) & OPCODE_MASK == op
  {
  }

  lemma QuadNumber(q: nat)
    requires q < 16
    ensures var v := (q as bv32) << 1; v < 32 && v & 1 == 0 && (v >> 1) as nat == q
  {
    if q < 8 {
      if q == 0 {} else if q == 1 {} else if q == 2 {} else if q == 3 {} else if q == 4 {} else if q == 5 {}
          else if q == 6 {} else {}
    } else {
      if q == 8 {} else if q == 9 {} else if q == 10 {} else if q == 11 {} else if q == 12 {} else if q == 13 {}
          else if q == 14 {} else {}
    }
  }

  lemma ScalarOperand(i: nat, j: nat)
    requires i < 4 && j < 4
    ensures var v := ((4 + i) as bv32) | ((j as bv32) << 3); v < 32 && (v & 7) as nat == 4 + i && (v >> 3) as nat == j
  {
    if i == 0 { if j == 0 {} else if j == 1 {} else if j == 2 {} else {} }
    else if i == 1 { if j == 0 {} else if j == 1 {} else if j == 2 {} else {} }
    else if i == 2 { if j == 0 {} else if j == 1 {} else if j == 2 {} else {} }
    else { if j == 0 {} else if j == 1 {} else if j == 2 {} else {} }
  }

  lemma DoubleNumber(i: nat)
    requires i < 4
    ensures var v := (24 + i * 2) as bv32; v < 32 && v as nat == 24 + i * 2
  {
    if i == 0 {} else if i == 1 {} else if i == 2 {} else {}
  }

  lemma DecodesVmull(i: nat, j: nat)
    requires i < 4 && j < 4
    ensures Decode(EncodeVmull((8 + j) as bv32, (24 + i * 2) as bv32, (4 + i) as bv32, j as bv32)) ==
        Vmull(8 + j, 24 + i * 2, 4 + i, j)
  {
    QuadNumber(8 + j);
    DoubleNumber(i);
    ScalarOperand(i, j);
    RegsRoundTrip(0xf290_0a40, ((8 + j) as bv32) << 1, (24 + i * 2) as bv32, ((4 + i) as bv32) | ((j as bv32) << 3));
  }

  lemma DecodesVmlal(i: nat, j: nat)
    requires i < 4 && j < 4
    ensures Decode(EncodeVmlal((8 + j) as bv32, (24 + i * 2) as bv32, (4 + i) as bv32, j as bv32)) ==
        Vmlal(8 + j, 24 + i * 2, 4 + i, j)
  {
    QuadNumber(8 + j);
    DoubleNumber(i);
    ScalarOperand(i, j);
    RegsRoundTrip(0xf290_0240, ((8 + j) as bv32) << 1, (24 + i * 2) as bv32, ((4 + i) as bv32) | ((j as bv32) << 3));
  }

  lemma DecodesVqadd(j: nat)
    requires j < 4
    ensures Decode(EncodeVqadd((8 + j) as bv32, (8 + j) as bv32, (4 + j) as bv32)) == Vqadd(8 + j, 8 + j, 4 + j)
  {
    if j == 0 {} else if j == 1 {} else if j == 2 {} else {}
  }

  lemma DecodesVqaddInput(j: nat)
    requires j < 4
    ensures Decode(EncodeVqadd((8 + j) as bv32, (12 + j) as bv32, (4 + j) as bv32)) == Vqadd(8 + j, 12 + j, 4 + j)
  {
    if j == 0 {} else if j == 1 {} else if j == 2 {} else {}
  }

  // ---------------------------------------------------------------------------------------------
  // Register file: 32 doubleword registers of four halfwords.  Qn is D2n and D2n+1.

  type Regs = seq<seq<int>>

  ghost predicate ValidRegs(r: Regs) {
    |r| == 32 && forall d :: 0 <= d < 32 ==> |r[d]| == 4 && forall e :: 0 <= e < 4 ==> 0 <= r[d][e] < 0x1_0000
  }

  function S16(h: int): int {
    if h < 0x8000 then h else h - 0x1_0000
  }

  function U16(v: int): (h: int)
    ensures 0 <= h < 0x1_0000
  {
    v % 0x1_0000
  }

  /** Signed 32-bit lane `e` of register Q`q`. */
  function Lane(r: Regs, q: nat, e: nat): int
    requires ValidRegs(r) && q < 16 && e < 4
  {
    var d := r[2 * q + e / 2];
    d[2 * (e % 2)] + 0x1_0000 * S16(d[2 * (e % 2) + 1])
  }

  function Split(a: int, b: int): seq<int> {
    [U16(a), U16(a / 0x1_0000), U16(b), U16(b / 0x1_0000)]
  }

  /** Writes four 32-bit lanes, keeping the low 32 bits of each. */
  function SetQ(r: Regs, q: nat, v: seq<int>): (r': Regs)
    requires ValidRegs(r) && q < 16 && |v| == 4
    ensures ValidRegs(r')
  {
    r[2 * q := Split(v[0], v[1])][2 * q + 1 := Split(v[2], v[3])]
  }

  const INT_MAX: int := 0x7fff_ffff
  const INT_MIN: int := -0x8000_0000

  predicate Fits(v: int) {
    INT_MIN <= v <= INT_MAX
  }

  function SatAdd(a: int, b: int): int {
    if a + b > INT_MAX then INT_MAX else if a + b < INT_MIN then INT_MIN else a + b
  }

  lemma SplitFits(v: int)
    requires Fits(v)
    ensures U16(v) + 0x1_0000 * S16(U16(v / 0x1_0000)) == v
  {
  }

  /** Reading back what was written: same lanes, and no other register changes. */
  lemma SetQLanes(r: Regs, q: nat, v: seq<int>, e: nat)
    requires ValidRegs(r) && q < 16 && |v| == 4 && e < 4 && Fits(v[e])
    ensures Lane(SetQ(r, q, v), q, e) == v[e]
  {
    SplitFits(v[e]);
  }

  function Scalars(r: Regs, q: nat, n: nat, m: nat, lane: nat, acc: bool): seq<int>
    requires ValidRegs(r) && q < 16 && n < 32 && m < 32 && lane < 4
  {
    seq(4, e requires 0 <= e < 4 => (if acc then Lane(r, q, e) else 0) + S16(r[n][e]) * S16(r[m][lane]))
  }

  function SatLanes(r: Regs, qn: nat, qm: nat): seq<int>
    requires ValidRegs(r) && qn < 16 && qm < 16
  {
    seq(4, e requires 0 <= e < 4 => SatAdd(Lane(r, qn, e), Lane(r, qm, e)))
  }

  /** Execution.  Registers outside the file and unknown words leave it unchanged. */
  function Exec(r: Regs, i: Instr): (r': Regs)
    requires ValidRegs(r)
    ensures ValidRegs(r')
  {
    match i
    case Vmlal(q, n, m, lane) =>
      if q < 16 && n < 32 && m < 32 && lane < 4 then SetQ(r, q, Scalars(r, q, n, m, lane, true)) else r
    case Vmull(q, n, m, lane) =>
      if q < 16 && n < 32 && m < 32 && lane < 4 then SetQ(r, q, Scalars(r, q, n, m, lane, false)) else r
    case Vqadd(q, qn, qm) =>
      if q < 16 && qn < 16 && qm < 16 then SetQ(r, q, SatLanes(r, qn, qm)) else r
    case Unknown => r
  }

  function Run(r: Regs, code: seq<Instr>): (r': Regs)
    requires ValidRegs(r)
    ensures ValidRegs(r')
  {
    if |code| == 0 then r else Exec(Run(r, code[..|code| - 1]), code[|code| - 1])
  }

  function DecodeAll(words: seq<bv32>): seq<Instr> {
    if |words| == 0 then [] else DecodeAll(words[..|words| - 1]) + [Decode(words[|words| - 1])]
  }

  lemma {:induction false} DecodeConcat(a: seq<bv32>, b: seq<bv32>)
    ensures DecodeAll(a + b) == DecodeAll(a) + DecodeAll(b)
    decreases |b|
  {
    if |b| == 0 {
      assert a + b == a;
    } else {
      var n := |b| - 1;
      assert (a + b)[..|a + b| - 1] == a + b[..n];
      DecodeConcat(a, b[..n]);
    }
  }

  lemma {:induction false} RunConcat(r: Regs, a: seq<Instr>, b: seq<Instr>)
    requires ValidRegs(r)
    ensures Run(r, a + b) == Run(Run(r, a), b)
    decreases |b|
  {
    if |b| == 0 {
      assert a + b == a;
    } else {
      var n := |b| - 1;
      assert (a + b)[..|a + b| - 1] == a + b[..n];
      RunConcat(r, a, b[..n]);
    }
  }

  // ---------------------------------------------------------------------------------------------
  // The other instructions of the precompiled chunks, on bytes and halfwords

  const CLEAR: seq<int> := [0, 0, 0, 0]

  function Clamp8(v: int): int {
    if v < 0 then 0 else if v > 255 then 255 else v
  }

  /** Byte `k` of register D`d`. */
  function Byte(r: Regs, d: nat, k: nat): (b: int)
    requires ValidRegs(r) && d < 32 && k < 8
    ensures 0 <= b <= 255
  {
    if k % 2 == 0 then r[d][k / 2] % 256 else r[d][k / 2] / 256
  }

  /** veor Qq, Qq */
  function Veor(r: Regs, q: nat): (r': Regs)
    requires ValidRegs(r) && q < 16
    ensures ValidRegs(r')
  {
    r[2 * q := CLEAR][2 * q + 1 := CLEAR]
  }

  /** veor Dd, Dd */
  function VeorD(r: Regs, d: nat): (r': Regs)
    requires ValidRegs(r) && d < 32
    ensures ValidRegs(r')
  {
    r[d := CLEAR]
  }

  /** vmov Dd, Dm */
  function VmovD(r: Regs, d: nat, m: nat): (r': Regs)
    requires ValidRegs(r) && d < 32 && m < 32
    ensures ValidRegs(r')
  {
    r[d := r[m]]
  }

  /** vmovl.u8 Qq, Dd */
  function Vmovl(r: Regs, q: nat, d: nat): (r': Regs)
    requires ValidRegs(r) && q < 16 && d < 32
    ensures ValidRegs(r')
  {
    r[2 * q := [Byte(r, d, 0), Byte(r, d, 1), Byte(r, d, 2), Byte(r, d, 3)]]
     [2 * q + 1 := [Byte(r, d, 4), Byte(r, d, 5), Byte(r, d, 6), Byte(r, d, 7)]]
  }

  /** The rounding shift by eight of a 32-bit lane. */
  function Shift8(v: int): int {
    (v + 128) / 256
  }

  /** vrshrn.i32 Dd, Qq, #8: the shifted lanes, cut to 16 bits. */
  function Vrshrn(r: Regs, d: nat, q: nat): (r': Regs)
    requires ValidRegs(r) && d < 32 && q < 16
    ensures ValidRegs(r')
  {
    r[d := [U16(Shift8(Lane(r, q, 0))), U16(Shift8(Lane(r, q, 1))), U16(Shift8(Lane(r, q, 2))),
        U16(Shift8(Lane(r, q, 3)))]]
  }

  /** Two signed halfwords, each clamped to a byte. */
  function Bytes2(a: int, b: int): (h: int)
    requires 0 <= a < 0x1_0000 && 0 <= b < 0x1_0000
    ensures 0 <= h < 0x1_0000
  {
    Clamp8(S16(a)) + 256 * Clamp8(S16(b))
  }

  /** vqmovun.s16 Dd, Qq */
  function Vqmovun(r: Regs, d: nat, q: nat): (r': Regs)
    requires ValidRegs(r) && d < 32 && q < 16
    ensures ValidRegs(r')
  {
    var a, b := r[2 * q], r[2 * q + 1];
    r[d := [Bytes2(a[0], a[1]), Bytes2(a[2], a[3]), Bytes2(b[0], b[1]), Bytes2(b[2], b[3])]]
  }

  /** With nothing in the upper half. */
  lemma VqmovunIs(r: Regs, d: nat, q: nat) returns (r': Regs)
    requires ValidRegs(r) && d < 32 && q < 16 && r[2 * q + 1] == CLEAR
    ensures ValidRegs(r') && r' == Vqmovun(r, d, q)
    ensures forall k :: 0 <= k < 32 && k != d ==> r'[k] == r[k]
    ensures r'[d] == [Bytes2(r[2 * q][0], r[2 * q][1]), Bytes2(r[2 * q][2], r[2 * q][3]), 0, 0]
  {
    r' := Vqmovun(r, d, q);
  }
}
