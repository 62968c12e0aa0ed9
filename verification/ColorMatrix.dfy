/** The color-matrix intrinsic for U8 input and output: the key that describes which coefficients
    are needed, the code generator that turns a key into SIMD words, and what those words compute from
    the registers they find. */
module ColorMatrix {
  import opened Simd

  // ---------------------------------------------------------------------------------------------
  // Coefficients, pixels and what the matrix means

  /** `ip` is the 4x4 matrix, column `j` of row `i` at `4 * i + j`; `ipa` the offsets. */
  datatype Coeffs = Coeffs(ip: seq<int>, ipa: seq<int>) {
    ghost predicate Valid() {
      && |ip| == 16 && (forall k :: 0 <= k < 16 ==> -0x8000 <= ip[k] < 0x8000)
      && |ipa| == 4 && (forall j :: 0 <= j < 4 ==> Fits(ipa[j]))
    }
  }

  /** Four pixels: `px[i][e]` is channel `i` of pixel `e`. */
  type Pixels = seq<seq<int>>

  ghost predicate ValidPixels(px: Pixels) {
    |px| == 4 && forall i :: 0 <= i < 4 ==> |px[i]| == 4 && forall e :: 0 <= e < 4 ==> 0 <= px[i][e] <= 255
  }

  /** Sum over the first `n` input channels of pixel `e` for output channel `j`. */
  function Sum(c: Coeffs, px: Pixels, n: nat, j: nat, e: nat): int
    requires c.Valid() && ValidPixels(px) && n <= 4 && j < 4 && e < 4
  {
    if n == 0 then 0 else Sum(c, px, n - 1, j, e) + px[n - 1][e] * c.ip[4 * (n - 1) + j]
  }

  /** What output channel `j` of pixel `e` must hold before packing. */
  function Full(c: Coeffs, px: Pixels, vin: nat, j: nat, e: nat): int
    requires c.Valid() && ValidPixels(px) && vin <= 4 && j < 4 && e < 4
  {
    SatAdd(Sum(c, px, vin, j, e), c.ipa[j])
  }

  // ---------------------------------------------------------------------------------------------
  // Key

  /** The bit masks of the key are the sets of their bits. */
  datatype Key = Key(inVec: nat, outVec: nat, dot: bool, copyAlpha: bool, coeffMask: set<nat>, addMask: set<nat>)

  /** Vector sizes other than 2, 3 and 4 count as 1. */
  function Vec(v: nat): nat {
    if 2 <= v <= 4 then v else 1
  }

  ghost predicate NeedsCoeff(c: Coeffs, vin: nat, vout: nat, k: nat)
    requires c.Valid()
  {
    k < 16 && c.ip[k] != 0 && k < 4 * Vec(vin) && k % 4 < Vec(vout)
  }

  /** The red, green and blue columns agree in row `i`. */
  predicate SameRgb(c: Coeffs, i: nat)
    requires c.Valid() && i < 4
  {
    c.ip[4 * i] == c.ip[4 * i + 1] == c.ip[4 * i + 2]
  }

  ghost predicate KeyFor(key: Key, c: Coeffs, vin: nat, vout: nat)
    requires c.Valid()
  {
    && key.inVec == Vec(vin) && key.outVec == Vec(vout)
    && (forall k: nat :: k in key.coeffMask <==> NeedsCoeff(c, vin, vout, k))
    && (forall j: nat :: j in key.addMask <==> j < Vec(vout) && c.ipa[j] != 0)
    && (key.dot <==> (forall i :: 0 <= i < 4 ==> SameRgb(c, i)) && (forall j :: 0 <= j < 4 ==> c.ipa[j] == 0))
    && (key.copyAlpha <==> c.ip[3] == c.ip[7] == c.ip[11] == 0 && c.ip[15] == 256 && c.ipa[3] == 0)
  }

  /** The bits of the coefficients and offsets that are not zero. */
  method Masks(c: Coeffs) returns (coeffMask: set<nat>, addMask: set<nat>)
    requires c.Valid()
    ensures forall k: nat :: k in coeffMask <==> k < 16 && c.ip[k] != 0
    ensures forall j: nat :: j in addMask <==> j < 4 && c.ipa[j] != 0
  {
    coeffMask, addMask := {}, {};
    var i: nat := 0;
    while i < 16
      invariant i <= 16
      invariant forall k: nat :: k in coeffMask <==> k < i && c.ip[k] != 0
    {
      if c.ip[i] != 0 { coeffMask := coeffMask + {i}; }
      i := i + 1;
    }
    if c.ipa[0] != 0 { addMask := addMask + {0}; }
    if c.ipa[1] != 0 { addMask := addMask + {1}; }
    if c.ipa[2] != 0 { addMask := addMask + {2}; }
    if c.ipa[3] != 0 { addMask := addMask + {3}; }
  }

  /** Drops the bits of channels that the vector sizes leave out. */
  method NarrowMasks(coeffs: set<nat>, adds: set<nat>, vin: nat, vout: nat)
      returns (coeffMask: set<nat>, addMask: set<nat>)
    requires forall k :: k in coeffs ==> k < 16
    requires forall j :: j in adds ==> j < 4
    ensures forall k: nat :: k in coeffMask <==> k in coeffs && k < 4 * Vec(vin) && k % 4 < Vec(vout)
    ensures forall j: nat :: j in addMask <==> j in adds && j < Vec(vout)
  {
    coeffMask, addMask := coeffs, adds;
    match vin {
      case 4 =>
      case 3 => coeffMask := set k | k in coeffMask && k < 12;
      case 2 => coeffMask := set k | k in coeffMask && k < 8;
      case _ => coeffMask := set k | k in coeffMask && k < 4;
    }
    match vout {
      case 4 =>
      case 3 => coeffMask := set k | k in coeffMask && k % 4 < 3; addMask := addMask - {3};
      case 2 => coeffMask := set k | k in coeffMask && k % 4 < 2; addMask := addMask - {2, 3};
      case _ => coeffMask := set k | k in coeffMask && k % 4 < 1; addMask := addMask - {1, 2, 3};
    }
  }

  /** `computeKey`, U8 to U8. */
  method ComputeKey(c: Coeffs, vin: nat, vout: nat) returns (key: Key)
    requires c.Valid()
    ensures KeyFor(key, c, vin, vout)
  {
    var coeffMask, addMask := Masks(c);
    var dot := SameRgb(c, 0) && SameRgb(c, 1) && SameRgb(c, 2) && SameRgb(c, 3) && addMask == {};
    var copyAlpha := 3 !in coeffMask && 7 !in coeffMask && 11 !in coeffMask && c.ip[15] == 256 && 3 !in addMask;
    coeffMask, addMask := NarrowMasks(coeffMask, addMask, vin, vout);
    key := Key(Vec(vin), Vec(vout), dot, copyAlpha, coeffMask, addMask);
  }

  // ---------------------------------------------------------------------------------------------
  // Code generation

  /** Coefficient `(i, j)` gets an instruction: its bit is set and no shortcut skips its column. */
  predicate Emitted(key: Key, i: nat, j: nat) {
    4 * i + j in key.coeffMask && Column(key, j)
  }

  /** No shortcut skips column `j`. */
  predicate Column(key: Key, j: nat) {
    j == 0 || (j < 3 && !key.dot) || (j == 3 && !key.copyAlpha)
  }

  /** Column `j` has an emitted coefficient in one of the first `n` rows. */
  predicate Started(key: Key, n: nat, j: nat) {
    n > 0 && (Started(key, n - 1, j) || Emitted(key, n - 1, j))
  }

  function VmlalWord(i: nat, j: nat): bv32
    requires i < 4 && j < 4
  {
    EncodeVmlal((8 + j) as bv32, (24 + i * 2) as bv32, (4 + i) as bv32, j as bv32)
  }

  function VmullWord(i: nat, j: nat): bv32
    requires i < 4 && j < 4
  {
    EncodeVmull((8 + j) as bv32, (24 + i * 2) as bv32, (4 + i) as bv32, j as bv32)
  }

  function VqaddWord(q: nat, qn: nat, qm: nat): bv32
    requires q < 16 && qn < 16 && qm < 16
  {
    EncodeVqadd(q as bv32, qn as bv32, qm as bv32)
  }

  function MulWord(key: Key, i: nat, j: nat): seq<bv32>
    requires i < 4 && j < 4
  {
    if !Emitted(key, i, j) then []
    else if Started(key, i, j) then [VmlalWord(i, j)]
    else [VmullWord(i, j)]
  }

  function RowWords(key: Key, i: nat, n: nat): seq<bv32>
    requires i < 4 && n <= 4
  {
    if n == 0 then [] else RowWords(key, i, n - 1) + MulWord(key, i, n - 1)
  }

  function MulWords(key: Key, n: nat): seq<bv32>
    requires n <= 4
  {
    if n == 0 then [] else MulWords(key, n - 1) + RowWords(key, n - 1, 4)
  }

  function AddWord(key: Key, j: nat): seq<bv32>
    requires j < 4
  {
    if j !in key.addMask then []
    else [VqaddWord(8 + j, if Started(key, 4, j) then 8 + j else 12 + j, 4 + j)]
  }

  function AddWords(key: Key, n: nat): seq<bv32>
    requires n <= 4
  {
    if n == 0 then [] else AddWords(key, n - 1) + AddWord(key, n - 1)
  }

  /** The operation `build` plans for coefficient `(i, j)`: 0 = unused, 2 = set, 3 = accumulate. */
  function Op(key: Key, i: nat, j: nat): int {
    if !Emitted(key, i, j) then 0 else if Started(key, i, j) then 3 else 2
  }

  predicate Planned(key: Key, ops: array2<int>, n: nat)
    requires ops.Length0 == ops.Length1 == 4 && n <= 4
    reads ops
  {
    forall i, j :: 0 <= i < n && 0 <= j < 4 ==> ops[i, j] == Op(key, i, j)
  }

  predicate InitTracks(key: Key, opInit: array<int>, n: nat)
    requires opInit.Length == 4
    reads opInit
  {
    forall j :: 0 <= j < 4 ==> opInit[j] == if Started(key, n, j) then 1 else 0
  }

  /** Plans coefficient `(i, j)` if its bit is set: the first one of a column starts the accumulator. */
  method PlanCell(key: Key, ops: array2<int>, opInit: array<int>, i: nat, j: nat)
    requires ops.Length0 == ops.Length1 == 4 && opInit.Length == 4 && i < 4 && j < 4
    requires opInit[j] == (if Started(key, i, j) then 1 else 0) && ops[i, j] == 0 && Column(key, j)
    modifies ops, opInit
    ensures opInit[j] == if Started(key, i + 1, j) then 1 else 0
    ensures forall k :: 0 <= k < 4 && k != j ==> opInit[k] == old(opInit[k])
    ensures ops[i, j] == Op(key, i, j)
    ensures forall i', k :: 0 <= i' < 4 && 0 <= k < 4 && !(i' == i && k == j) ==> ops[i', k] == old(ops[i', k])
  {
    if 4 * i + j in key.coeffMask {
      ops[i, j] := if opInit[j] == 1 then 3 else 2;
      opInit[j] := 1;
    }
  }

  /** One turn of the first loop of `build`. */
  method PlanRow(key: Key, ops: array2<int>, opInit: array<int>, i: nat)
    requires ops.Length0 == ops.Length1 == 4 && opInit.Length == 4 && i < 4
    requires InitTracks(key, opInit, i) && forall j :: 0 <= j < 4 ==> ops[i, j] == 0
    modifies ops, opInit
    ensures InitTracks(key, opInit, i + 1)
    ensures forall j :: 0 <= j < 4 ==> ops[i, j] == Op(key, i, j)
    ensures forall i', j :: 0 <= i' < 4 && 0 <= j < 4 && i' != i ==> ops[i', j] == old(ops[i', j])
  {
    PlanCell(key, ops, opInit, i, 0);
    if !key.dot {
      PlanCell(key, ops, opInit, i, 1);
      PlanCell(key, ops, opInit, i, 2);
    }
    if !key.copyAlpha {
      PlanCell(key, ops, opInit, i, 3);
    }
    NeverStarted(key, i);
  }

  lemma {:induction false} NeverStarted(key: Key, n: nat)
    ensures forall j :: 0 <= j < 4 && !Column(key, j) ==> !Started(key, n, j) && !Emitted(key, n, j)
  {
    if n > 0 { NeverStarted(key, n - 1); }
  }

  /** First loop of `build`: which coefficients start an accumulator and which add to it. */
  method PlanOps(key: Key, ops: array2<int>, opInit: array<int>)
    requires ops.Length0 == ops.Length1 == 4 && opInit.Length == 4
    modifies ops, opInit
    ensures InitTracks(key, opInit, 4) && Planned(key, ops, 4)
  {
    forall i, j | 0 <= i < 4 && 0 <= j < 4 { ops[i, j] := 0; }
    forall j | 0 <= j < 4 { opInit[j] := 0; }
    var i: nat := 0;
    while i < 4
      invariant i <= 4
      invariant InitTracks(key, opInit, i) && Planned(key, ops, i)
      invariant forall i', j :: i <= i' < 4 && 0 <= j < 4 ==> ops[i', j] == 0
    {
      PlanRow(key, ops, opInit, i);
      i := i + 1;
    }
  }

  /** The multiplies of one row. */
  method EmitRow(key: Key, ops: array2<int>, i: nat) returns (code: seq<bv32>)
    requires ops.Length0 == ops.Length1 == 4 && i < 4 && Planned(key, ops, 4)
    ensures code == RowWords(key, i, 4)
  {
    code := [];
    var j: nat := 0;
    while j < 4
      invariant j <= 4
      invariant code == RowWords(key, i, j)
    {
      assert ops[i, j] == Op(key, i, j);
      if ops[i, j] == 2 {
        code := code + [VmullWord(i, j)];
      } else if ops[i, j] == 3 {
        code := code + [VmlalWord(i, j)];
      }
      j := j + 1;
    }
  }

  method EmitAdds(key: Key, opInit: array<int>) returns (code: seq<bv32>)
    requires opInit.Length == 4 && InitTracks(key, opInit, 4)
    ensures code == AddWords(key, 4)
  {
    code := [];
    var j: nat := 0;
    while j < 4
      invariant j <= 4
      invariant code == AddWords(key, j)
    {
      if opInit[j] != 0 {
        if j in key.addMask { code := code + [VqaddWord(8 + j, 8 + j, 4 + j)]; }
      } else {
        if j in key.addMask { code := code + [VqaddWord(8 + j, 12 + j, 4 + j)]; }
      }
      j := j + 1;
    }
  }

  /** `build`, integer path: the arithmetic, between loading and packing. */
  method Build(key: Key) returns (code: seq<bv32>)
    ensures code == Kernel(key)
  {
    var ops := new int[4, 4];
    var opInit := new int[4];
    PlanOps(key, ops, opInit);
    code := [];
    var i: nat := 0;
    while i < 4
      invariant i <= 4
      invariant InitTracks(key, opInit, 4) && Planned(key, ops, 4)
      invariant code == MulWords(key, i)
    {
      var row := EmitRow(key, ops, i);
      code := code + row;
      i := i + 1;
    }
    var adds := EmitAdds(key, opInit);
    code := code + adds;
  }

  function Kernel(key: Key): seq<bv32> {
    MulWords(key, 4) + AddWords(key, 4)
  }

  // ---------------------------------------------------------------------------------------------
  // What the generated words compute

  /** The instructions the words of a kernel stand for. */
  function MulInstr(key: Key, i: nat, j: nat): seq<Instr> {
    if !Emitted(key, i, j) then []
    else if Started(key, i, j) then [Vmlal(8 + j, 24 + i * 2, 4 + i, j)]
    else [Vmull(8 + j, 24 + i * 2, 4 + i, j)]
  }

  function RowInstrs(key: Key, i: nat, n: nat): seq<Instr> {
    if n == 0 then [] else RowInstrs(key, i, n - 1) + MulInstr(key, i, n - 1)
  }

  function MulInstrs(key: Key, n: nat): seq<Instr> {
    if n == 0 then [] else MulInstrs(key, n - 1) + RowInstrs(key, n - 1, 4)
  }

  function AddInstr(key: Key, j: nat): seq<Instr> {
    if j !in key.addMask then [] else [Vqadd(8 + j, if Started(key, 4, j) then 8 + j else 12 + j, 4 + j)]
  }

  function AddInstrs(key: Key, n: nat): seq<Instr> {
    if n == 0 then [] else AddInstrs(key, n - 1) + AddInstr(key, n - 1)
  }

  lemma DecodeOne(w: bv32)
    ensures DecodeAll([w]) == [Decode(w)]
  {
    assert DecodeAll([w][..0]) == [];
  }

  lemma DecodesMul(key: Key, i: nat, j: nat)
    requires i < 4 && j < 4
    ensures DecodeAll(MulWord(key, i, j)) == MulInstr(key, i, j)
  {
    if Emitted(key, i, j) {
      DecodesVmull(i, j);
      DecodesVmlal(i, j);
      DecodeOne(if Started(key, i, j) then VmlalWord(i, j) else VmullWord(i, j));
    }
  }

  lemma DecodesAdd(key: Key, j: nat)
    requires j < 4
    ensures DecodeAll(AddWord(key, j)) == AddInstr(key, j)
  {
    if j in key.addMask {
      DecodesVqadd(j);
      DecodesVqaddInput(j);
      DecodeOne(VqaddWord(8 + j, if Started(key, 4, j) then 8 + j else 12 + j, 4 + j));
    }
  }

  lemma {:induction false} DecodesRow(key: Key, i: nat, n: nat)
    requires i < 4 && n <= 4
    ensures DecodeAll(RowWords(key, i, n)) == RowInstrs(key, i, n)
  {
    if n > 0 {
      DecodesRow(key, i, n - 1);
      DecodesMul(key, i, n - 1);
      DecodeConcat(RowWords(key, i, n - 1), MulWord(key, i, n - 1));
    }
  }

  lemma {:induction false} DecodesMuls(key: Key, n: nat)
    requires n <= 4
    ensures DecodeAll(MulWords(key, n)) == MulInstrs(key, n)
  {
    if n > 0 {
      DecodesMuls(key, n - 1);
      DecodesRow(key, n - 1, 4);
      DecodeConcat(MulWords(key, n - 1), RowWords(key, n - 1, 4));
    }
  }

  lemma {:induction false} DecodesAdds(key: Key, n: nat)
    requires n <= 4
    ensures DecodeAll(AddWords(key, n)) == AddInstrs(key, n)
  {
    if n > 0 {
      DecodesAdds(key, n - 1);
      DecodesAdd(key, n - 1);
      DecodeConcat(AddWords(key, n - 1), AddWord(key, n - 1));
    }
  }

  lemma DecodesKernel(key: Key)
    ensures DecodeAll(Kernel(key)) == MulInstrs(key, 4) + AddInstrs(key, 4)
  {
    DecodesMuls(key, 4);
    DecodesAdds(key, 4);
    DecodeConcat(MulWords(key, 4), AddWords(key, 4));
  }

  function MatrixReg(r: Regs, i: nat, j: nat): int
    requires ValidRegs(r) && i < 4 && j < 4
  {
    r[4 + i][j]
  }

  function OffsetReg(r: Regs, j: nat, e: nat): int
    requires ValidRegs(r) && j < 4 && e < 4
  {
    Lane(r, 4 + j, e)
  }

  function InputReg(r: Regs, i: nat, e: nat): int
    requires ValidRegs(r) && i < 4 && e < 4
  {
    r[24 + 2 * i][e]
  }

  /** Accumulator of output channel `j`, pixel `e`: Q8 to Q11. */
  function Acc(r: Regs, j: nat, e: nat): int
    requires ValidRegs(r) && j < 4 && e < 4
  {
    Lane(r, 8 + j, e)
  }

  /** The register map of the uint kernel when the generated arithmetic starts: matrix in D4-D7,
      offsets in Q4-Q7, channels expanded to 16 bits in D24, D26, D28 and D30.  Here `px` is what those
      registers hold, which is not always what was loaded. */
  ghost predicate Loaded(r: Regs, c: Coeffs, px: Pixels, vin: nat)
    requires c.Valid() && ValidPixels(px) && vin <= 4
  {
    && ValidRegs(r)
    && (forall i: nat, j: nat :: i < 4 && j < 4 ==> MatrixReg(r, i, j) == U16(c.ip[4 * i + j]))
    && (forall j: nat, e: nat :: j < 4 && e < 4 ==> OffsetReg(r, j, e) == c.ipa[j])
    && (forall i: nat, e: nat :: i < vin && e < 4 ==> InputReg(r, i, e) == px[i][e])
  }

  /** Writing an accumulator leaves everything else in place. */
  lemma WriteFrame(r: Regs, c: Coeffs, px: Pixels, vin: nat, j: nat, v: seq<int>)
    requires c.Valid() && ValidPixels(px) && vin <= 4 && Loaded(r, c, px, vin) && j < 4 && |v| == 4
    ensures Loaded(SetQ(r, 8 + j, v), c, px, vin)
    ensures forall k: nat, e: nat :: k < 4 && e < 4 && k != j ==> Acc(SetQ(r, 8 + j, v), k, e) == Acc(r, k, e)
    ensures forall k: nat, e: nat :: k < 4 && e < 4 ==> Expanded(SetQ(r, 8 + j, v), k, e) == Expanded(r, k, e)
  {
    var r' := SetQ(r, 8 + j, v);
    assert forall d :: 0 <= d < 32 && d != 16 + 2 * j && d != 17 + 2 * j ==> r'[d] == r[d];
    forall i: nat, k: nat | i < 4 && k < 4 ensures MatrixReg(r', i, k) == MatrixReg(r, i, k) {}
    forall k: nat, e: nat | k < 4 && e < 4 ensures OffsetReg(r', k, e) == OffsetReg(r, k, e) {}
    forall i: nat, e: nat | i < vin && e < 4 ensures InputReg(r', i, e) == InputReg(r, i, e) {}
  }

  /** The 32-bit view of the expanded input registers Q12 to Q15. */
  function Expanded(r: Regs, j: nat, e: nat): int
    requires ValidRegs(r) && j < 4 && e < 4
  {
    Lane(r, 12 + j, e)
  }

  lemma {:induction false} SumBound(c: Coeffs, px: Pixels, n: nat, j: nat, e: nat)
    requires c.Valid() && ValidPixels(px) && n <= 4 && j < 4 && e < 4
    ensures -(n * 255 * 0x8000) <= Sum(c, px, n, j, e) <= n * 255 * 0x8000
  {
    if n > 0 {
      SumBound(c, px, n - 1, j, e);
      TermBound(px[n - 1][e], c.ip[4 * (n - 1) + j]);
    }
  }

  lemma TermBound(p: int, m: int)
    requires 0 <= p <= 255 && -0x8000 <= m < 0x8000
    ensures -255 * 0x8000 <= p * m <= 255 * 0x8000
  {
    if m >= 0 {
      assert (255 - p) * m >= 0 && p * m >= 0;
    } else {
      assert (255 - p) * -m >= 0 && p * -m >= 0;
    }
  }

  function Rows(n: nat, vin: nat): nat {
    if n < vin then n else vin
  }

  /** Lane `e` of column `j` once the words of the first `n` rows have run, from registers `r0`. */
  ghost predicate ColumnOk(r: Regs, r0: Regs, key: Key, c: Coeffs, px: Pixels, vin: nat, n: nat, j: nat, e: nat)
    requires c.Valid() && ValidPixels(px) && vin <= 4 && ValidRegs(r) && ValidRegs(r0) && n <= 4 && j < 4 && e < 4
  {
    Acc(r, j, e) == if Started(key, n, j) then Sum(c, px, Rows(n, vin), j, e) else Acc(r0, j, e)
  }

  /** `r'` differs from `r` at most in accumulator `j`. */
  ghost predicate OnlyAcc(r: Regs, r': Regs, j: nat)
    requires ValidRegs(r) && ValidRegs(r')
  {
    && (forall k: nat, e: nat :: k < 4 && e < 4 && k != j ==> Acc(r', k, e) == Acc(r, k, e))
    && (forall k: nat, e: nat :: k < 4 && e < 4 ==> Expanded(r', k, e) == Expanded(r, k, e))
  }

  /** Before its first emitted coefficient a column that is computed sums to zero. */
  lemma {:induction false} SilentSum(key: Key, c: Coeffs, px: Pixels, vin: nat, vout: nat, n: nat, j: nat, e: nat)
    requires c.Valid() && ValidPixels(px) && KeyFor(key, c, vin, vout)
    requires n <= Vec(vin) && j < Vec(vout) && Column(key, j) && e < 4 && !Started(key, n, j)
    ensures Sum(c, px, n, j, e) == 0
  {
    if n > 0 {
      SilentSum(key, c, px, vin, vout, n - 1, j, e);
      assert 4 * (n - 1) + j !in key.coeffMask;
      assert !NeedsCoeff(c, vin, vout, 4 * (n - 1) + j);
    }
  }

  /** The four lanes an emitted multiply writes. */
  lemma CellLanes(r: Regs, c: Coeffs, px: Pixels, vin: nat, i: nat, j: nat, acc: bool, e: nat)
    requires c.Valid() && ValidPixels(px) && i < vin <= 4 && j < 4 && e < 4 && Loaded(r, c, px, vin)
    requires acc ==> Acc(r, j, e) == Sum(c, px, i, j, e)
    requires !acc ==> Sum(c, px, i, j, e) == 0
    ensures Acc(SetQ(r, 8 + j, Scalars(r, 8 + j, 24 + i * 2, 4 + i, j, acc)), j, e) == Sum(c, px, i + 1, j, e)
  {
    var v := Scalars(r, 8 + j, 24 + i * 2, 4 + i, j, acc);
    assert MatrixReg(r, i, j) == U16(c.ip[4 * i + j]);
    assert S16(U16(c.ip[4 * i + j])) == c.ip[4 * i + j];
    assert InputReg(r, i, e) == px[i][e];
    assert S16(px[i][e]) == px[i][e];
    assert v[e] == Sum(c, px, i + 1, j, e);
    SumBound(c, px, i + 1, j, e);
    SetQLanes(r, 8 + j, v, e);
  }

  /** One emitted coefficient. */
  lemma EmittedStep(r: Regs, key: Key, c: Coeffs, px: Pixels, vin: nat, i: nat, j: nat, e: nat)
    requires c.Valid() && ValidPixels(px) && i < vin <= 4 && j < 4 && e < 4 && Loaded(r, c, px, vin) &&
        Emitted(key, i, j)
    requires if Started(key, i, j) then Acc(r, j, e) == Sum(c, px, i, j, e) else Sum(c, px, i, j, e) == 0
    ensures Acc(Run(r, MulInstr(key, i, j)), j, e) == Sum(c, px, i + 1, j, e)
  {
    assert Run(r, MulInstr(key, i, j)[..0]) == r;
    CellLanes(r, c, px, vin, i, j, Started(key, i, j), e);
  }

  /** No multiply touches anything but its own accumulator. */
  lemma MulFrame(r: Regs, key: Key, c: Coeffs, px: Pixels, vin: nat, i: nat, j: nat)
    requires c.Valid() && ValidPixels(px) && vin <= 4 && i < 4 && j < 4 && Loaded(r, c, px, vin)
    ensures Loaded(Run(r, MulInstr(key, i, j)), c, px, vin) && OnlyAcc(r, Run(r, MulInstr(key, i, j)), j)
  {
    if Emitted(key, i, j) {
      assert Run(r, MulInstr(key, i, j)[..0]) == r;
      WriteFrame(r, c, px, vin, j, Scalars(r, 8 + j, 24 + i * 2, 4 + i, j, Started(key, i, j)));
    }
  }

  /** One coefficient: its column moves on by one row. */
  lemma CellStep(r: Regs, r0: Regs, key: Key, c: Coeffs, px: Pixels, vin: nat, vout: nat, i: nat, j: nat, e: nat)
    requires c.Valid() && ValidPixels(px) && KeyFor(key, c, vin, vout) && i < 4 && j < 4 && e < 4
    requires Loaded(r, c, px, Vec(vin)) && ValidRegs(r0) && ColumnOk(r, r0, key, c, px, Vec(vin), i, j, e)
    ensures ColumnOk(Run(r, MulInstr(key, i, j)), r0, key, c, px, Vec(vin), i + 1, j, e)
  {
    CellNeeded(key, c, vin, vout, i, j);
    if Emitted(key, i, j) {
      if !Started(key, i, j) { SilentSum(key, c, px, vin, vout, i, j, e); }
      EmittedStep(r, key, c, px, Vec(vin), i, j, e);
    } else if i < Vec(vin) && Started(key, i, j) {
      StartedColumn(key, c, vin, vout, i, j);
    }
  }

  lemma CellNeeded(key: Key, c: Coeffs, vin: nat, vout: nat, i: nat, j: nat)
    requires c.Valid() && KeyFor(key, c, vin, vout) && i < 4 && j < 4
    ensures Emitted(key, i, j) ==> i < Vec(vin) && j < Vec(vout) && Column(key, j)
    ensures !Emitted(key, i, j) && i < Vec(vin) && j < Vec(vout) && Column(key, j) ==> c.ip[4 * i + j] == 0
  {
    var k := 4 * i + j;
    assert k in key.coeffMask <==> NeedsCoeff(c, vin, vout, k);
    assert k % 4 == j;
  }

  lemma {:induction false} StartedColumn(key: Key, c: Coeffs, vin: nat, vout: nat, n: nat, j: nat)
    requires c.Valid() && KeyFor(key, c, vin, vout) && n <= 4 && j < 4 && Started(key, n, j)
    ensures Column(key, j) && j < Vec(vout)
  {
    if !Started(key, n - 1, j) {
      assert NeedsCoeff(c, vin, vout, 4 * (n - 1) + j);
    } else {
      StartedColumn(key, c, vin, vout, n - 1, j);
    }
  }

  lemma {:induction false} RowRuns(r: Regs, r0: Regs, key: Key, c: Coeffs, px: Pixels, vin: nat, vout: nat, i: nat,
      n: nat, j: nat, e: nat)
    returns (r': Regs)
    requires c.Valid() && ValidPixels(px) && KeyFor(key, c, vin, vout) && i < 4 && n <= 4 && j < 4 && e < 4
    requires Loaded(r, c, px, Vec(vin)) && ValidRegs(r0) && ColumnOk(r, r0, key, c, px, Vec(vin), i, j, e)
    ensures r' == Run(r, RowInstrs(key, i, n))
    ensures Loaded(r', c, px, Vec(vin)) && Expanded(r', j, e) == Expanded(r, j, e)
    ensures ColumnOk(r', r0, key, c, px, Vec(vin), if j < n then i + 1 else i, j, e)
  {
    r' := r;
    if n > 0 {
      var r1 := RowRuns(r, r0, key, c, px, vin, vout, i, n - 1, j, e);
      r' := Run(r1, MulInstr(key, i, n - 1));
      RunConcat(r, RowInstrs(key, i, n - 1), MulInstr(key, i, n - 1));
      MulFrame(r1, key, c, px, Vec(vin), i, n - 1);
      if j == n - 1 { CellStep(r1, r0, key, c, px, vin, vout, i, j, e); }
    }
  }

  lemma {:induction false} MulsRun(r0: Regs, key: Key, c: Coeffs, px: Pixels, vin: nat, vout: nat, n: nat, j: nat,
      e: nat)
    returns (r: Regs)
    requires c.Valid() && ValidPixels(px) && KeyFor(key, c, vin, vout) && n <= 4 && Loaded(r0, c, px, Vec(vin)) &&
        j < 4 && e < 4
    ensures r == Run(r0, MulInstrs(key, n))
    ensures Loaded(r, c, px, Vec(vin)) && Expanded(r, j, e) == Expanded(r0, j, e)
    ensures ColumnOk(r, r0, key, c, px, Vec(vin), n, j, e)
  {
    r := r0;
    if n > 0 {
      var r1 := MulsRun(r0, key, c, px, vin, vout, n - 1, j, e);
      RunConcat(r0, MulInstrs(key, n - 1), RowInstrs(key, n - 1, 4));
      r := RowRuns(r1, r0, key, c, px, vin, vout, n - 1, 4, j, e);
    }
  }

  /** What the adds make of accumulator `j` and the expanded input beside it. */
  function Added(key: Key, c: Coeffs, j: nat, acc: int, expanded: int): int
    requires c.Valid() && j < 4
  {
    if j !in key.addMask then acc else SatAdd(if Started(key, 4, j) then acc else expanded, c.ipa[j])
  }

  function AddSource(key: Key, j: nat): nat {
    if Started(key, 4, j) then 8 + j else 12 + j
  }

  lemma AddRuns(r: Regs, key: Key, j: nat)
    requires ValidRegs(r) && j < 4
    ensures Run(r, AddInstr(key, j)) ==
            if j in key.addMask then SetQ(r, 8 + j, SatLanes(r, AddSource(key, j), 4 + j)) else r
  {
    if j in key.addMask { assert Run(r, AddInstr(key, j)[..0]) == r; }
  }

  lemma AddFrame(r: Regs, key: Key, c: Coeffs, px: Pixels, vin: nat, j: nat)
    requires c.Valid() && ValidPixels(px) && vin <= 4 && Loaded(r, c, px, vin) && j < 4
    ensures Loaded(Run(r, AddInstr(key, j)), c, px, vin) && OnlyAcc(r, Run(r, AddInstr(key, j)), j)
  {
    AddRuns(r, key, j);
    if j in key.addMask { WriteFrame(r, c, px, vin, j, SatLanes(r, AddSource(key, j), 4 + j)); }
  }

  lemma AddStep(r: Regs, key: Key, c: Coeffs, px: Pixels, vin: nat, j: nat, e: nat)
    requires c.Valid() && ValidPixels(px) && vin <= 4 && Loaded(r, c, px, vin) && j < 4 && e < 4
    ensures Acc(Run(r, AddInstr(key, j)), j, e) == Added(key, c, j, Acc(r, j, e), Expanded(r, j, e))
  {
    AddRuns(r, key, j);
    if j in key.addMask {
      assert OffsetReg(r, j, e) == c.ipa[j];
      SetQLanes(r, 8 + j, SatLanes(r, AddSource(key, j), 4 + j), e);
    }
  }

  lemma AddAt(r: Regs, key: Key, c: Coeffs, px: Pixels, vin: nat, k: nat, j: nat, e: nat)
    requires c.Valid() && ValidPixels(px) && vin <= 4 && Loaded(r, c, px, vin) && k < 4 && j < 4 && e < 4
    ensures var r' := Run(r, AddInstr(key, k));
            && Loaded(r', c, px, vin) && Expanded(r', j, e) == Expanded(r, j, e)
            && Acc(r', j, e) == if j == k then Added(key, c, j, Acc(r, j, e), Expanded(r, j, e)) else Acc(r, j, e)
  {
    AddFrame(r, key, c, px, vin, k);
    if j == k { AddStep(r, key, c, px, vin, j, e); }
  }

  lemma AddsStep(r1: Regs, r2: Regs, key: Key, c: Coeffs, px: Pixels, vin: nat, k: nat, j: nat, e: nat)
    requires c.Valid() && ValidPixels(px) && vin <= 4 && ValidRegs(r1) && Loaded(r2, c, px, vin) && k < 4 && j < 4 &&
        e < 4
    requires Expanded(r2, j, e) == Expanded(r1, j, e)
    requires Acc(r2, j, e) == if j < k then Added(key, c, j, Acc(r1, j, e), Expanded(r1, j, e)) else Acc(r1, j, e)
    ensures var r := Run(r2, AddInstr(key, k));
            && Loaded(r, c, px, vin) && Expanded(r, j, e) == Expanded(r1, j, e)
            && Acc(r, j, e) == if j < k + 1 then Added(key, c, j, Acc(r1, j, e), Expanded(r1, j, e)) else Acc(r1, j, e)
  {
    AddAt(r2, key, c, px, vin, k, j, e);
  }

  lemma {:induction false} AddsRun(r1: Regs, key: Key, c: Coeffs, px: Pixels, vin: nat, n: nat, j: nat, e: nat)
    returns (r: Regs)
    requires c.Valid() && ValidPixels(px) && vin <= 4 && Loaded(r1, c, px, vin) && n <= 4 && j < 4 && e < 4
    ensures r == Run(r1, AddInstrs(key, n))
    ensures Loaded(r, c, px, vin) && Expanded(r, j, e) == Expanded(r1, j, e)
    ensures Acc(r, j, e) == if j < n then Added(key, c, j, Acc(r1, j, e), Expanded(r1, j, e)) else Acc(r1, j, e)
  {
    r := r1;
    if n > 0 {
      var r2 := AddsRun(r1, key, c, px, vin, n - 1, j, e);
      RunConcat(r1, AddInstrs(key, n - 1), AddInstr(key, n - 1));
      AddsStep(r1, r2, key, c, px, vin, n - 1, j, e);
      r := Run(r2, AddInstr(key, n - 1));
    }
  }

  /** A column is live when one of the coefficients for the loaded channels is not zero. */
  predicate Live(c: Coeffs, vin: nat, j: nat)
    requires c.Valid() && j < 4
  {
    LiveIn(c, Vec(vin), j)
  }

  predicate LiveIn(c: Coeffs, n: nat, j: nat)
    requires c.Valid() && n <= 4 && j < 4
  {
    n > 0 && (LiveIn(c, n - 1, j) || c.ip[4 * (n - 1) + j] != 0)
  }

  lemma {:induction false} LiveStarts(key: Key, c: Coeffs, vin: nat, vout: nat, n: nat, j: nat)
    requires c.Valid() && KeyFor(key, c, vin, vout) && j < Vec(vout) && Column(key, j) && n <= 4
    ensures Started(key, n, j) <==> LiveIn(c, Rows(n, Vec(vin)), j)
  {
    if n > 0 {
      LiveStarts(key, c, vin, vout, n - 1, j);
      CellNeeded(key, c, vin, vout, n - 1, j);
      if Emitted(key, n - 1, j) { EmittedNonzero(key, c, vin, vout, n - 1, j); }
    }
  }

  lemma EmittedNonzero(key: Key, c: Coeffs, vin: nat, vout: nat, i: nat, j: nat)
    requires c.Valid() && KeyFor(key, c, vin, vout) && i < 4 && j < 4 && Emitted(key, i, j)
    ensures c.ip[4 * i + j] != 0
  {
    assert NeedsCoeff(c, vin, vout, 4 * i + j);
  }

  /** The accumulators in terms of the registers before the kernel. */
  lemma ProgramRuns(r0: Regs, key: Key, c: Coeffs, px: Pixels, vin: nat, vout: nat, j: nat, e: nat) returns (r: Regs)
    requires c.Valid() && ValidPixels(px) && KeyFor(key, c, vin, vout) && Loaded(r0, c, px, Vec(vin)) && j < 4 && e < 4
    ensures ValidRegs(r) && r == Run(r0, MulInstrs(key, 4) + AddInstrs(key, 4))
    ensures Acc(r, j, e) ==
            Added(key, c, j, if Started(key, 4, j) then Sum(c, px, Vec(vin), j, e)
                else Acc(r0, j, e), Expanded(r0, j, e))
  {
    RunConcat(r0, MulInstrs(key, 4), AddInstrs(key, 4));
    var r1 := MulsRun(r0, key, c, px, vin, vout, 4, j, e);
    r := AddsRun(r1, key, c, px, Vec(vin), 4, j, e);
  }

  /** The accumulators after the whole kernel, decoded and executed. */
  lemma KernelRuns(r0: Regs, key: Key, c: Coeffs, px: Pixels, vin: nat, vout: nat, j: nat, e: nat)
    requires c.Valid() && ValidPixels(px) && KeyFor(key, c, vin, vout) && Loaded(r0, c, px, Vec(vin))
    requires j < Vec(vout) && Column(key, j) && e < 4
    ensures Acc(Run(r0, DecodeAll(Kernel(key))), j, e) ==
            if Live(c, vin, j) then Full(c, px, Vec(vin), j, e)
            else if c.ipa[j] != 0 then SatAdd(Expanded(r0, j, e), c.ipa[j])
            else Acc(r0, j, e)
  {
    DecodesKernel(key);
    var r := ProgramRuns(r0, key, c, px, vin, vout, j, e);
    KernelValue(key, c, px, vin, vout, j, e, Acc(r0, j, e), Expanded(r0, j, e));
  }

  lemma KernelValue(key: Key, c: Coeffs, px: Pixels, vin: nat, vout: nat, j: nat, e: nat, acc: int, expanded: int)
    requires c.Valid() && ValidPixels(px) && KeyFor(key, c, vin, vout) && j < Vec(vout) && Column(key, j) && e < 4
    ensures Added(key, c, j, if Started(key, 4, j) then Sum(c, px, Vec(vin), j, e) else acc, expanded) ==
            if Live(c, vin, j) then Full(c, px, Vec(vin), j, e)
            else if c.ipa[j] != 0 then SatAdd(expanded, c.ipa[j])
            else acc
  {
    LiveStarts(key, c, vin, vout, 4, j);
    SumBound(c, px, Vec(vin), j, e);
  }

  // ---------------------------------------------------------------------------------------------
  // Shortcuts

  /** `dot`: green and blue are not computed because they equal red. */
  lemma DotAgrees(key: Key, c: Coeffs, px: Pixels, vin: nat, vout: nat, j: nat, e: nat)
    requires c.Valid() && ValidPixels(px) && KeyFor(key, c, vin, vout) && key.dot && 1 <= j <= 2 && e < 4
    ensures Full(c, px, Vec(vin), j, e) == Full(c, px, Vec(vin), 0, e)
  {
    SameSums(c, px, Vec(vin), j, e);
  }

  lemma {:induction false} SameSums(c: Coeffs, px: Pixels, n: nat, j: nat, e: nat)
    requires c.Valid() && ValidPixels(px) && n <= 4 && 1 <= j <= 2 && e < 4
    requires forall i :: 0 <= i < 4 ==> SameRgb(c, i)
    ensures Sum(c, px, n, j, e) == Sum(c, px, n, 0, e)
  {
    if n > 0 {
      SameSums(c, px, n - 1, j, e);
      assert SameRgb(c, n - 1);
    }
  }

  lemma AlphaSum(c: Coeffs, px: Pixels, n: nat, e: nat)
    requires c.Valid() && ValidPixels(px) && n <= 4 && e < 4
    requires c.ip[3] == c.ip[7] == c.ip[11] == 0 && c.ip[15] == 256
    ensures Sum(c, px, n, 3, e) == if n == 4 then 256 * px[3][e] else 0
  {
    assert Sum(c, px, 0, 3, e) == 0;
    if n >= 1 { assert Sum(c, px, 1, 3, e) == 0; }
    if n >= 2 { assert Sum(c, px, 2, 3, e) == 0; }
    if n >= 3 { assert Sum(c, px, 3, 3, e) == 0; }
  }
}
