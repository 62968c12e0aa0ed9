/** When the color-matrix kernel is right: for each column that is computed, for the channels that are
    copied, and for the narrowing to bytes, the exact condition on the matrix. */
module ColorExact {
  import opened Simd
  import opened ColorMatrix
  import opened ColorKernel

  const WHITE: seq<int> := [255, 255, 255, 255]

  // ---------------------------------------------------------------------------------------------
  // The smallest and the largest sum of a column

  function Extreme(c: Coeffs, n: nat, j: nat, high: bool): int
    requires c.Valid() && n <= 4 && j < 4
  {
    if n == 0 then 0
    else Extreme(c, n - 1, j, high) + (if Counts(c, n - 1, j, high) then 255 * c.ip[4 * (n - 1) + j] else 0)
  }

  /** Row `i` raises the largest sum, or lowers the smallest. */
  predicate Counts(c: Coeffs, i: nat, j: nat, high: bool)
    requires c.Valid() && i < 4 && j < 4
  {
    if high then c.ip[4 * i + j] > 0 else c.ip[4 * i + j] < 0
  }

  lemma {:induction false} SumWithin(c: Coeffs, px: Pixels, n: nat, j: nat, e: nat)
    requires c.Valid() && ValidPixels(px) && n <= 4 && j < 4 && e < 4
    ensures Extreme(c, n, j, false) <= Sum(c, px, n, j, e) <= Extreme(c, n, j, true)
  {
    if n > 0 {
      SumWithin(c, px, n - 1, j, e);
      Term(px[n - 1][e], c.ip[4 * (n - 1) + j]);
    }
  }

  lemma Term(p: int, m: int)
    requires 0 <= p <= 255
    ensures (if m < 0 then 255 * m else 0) <= p * m <= (if m > 0 then 255 * m else 0)
  {
    if m >= 0 { Share(p, m); } else { Share(p, -m); }
  }

  lemma Share(p: nat, m: nat)
    requires p <= 255
    ensures 0 <= p * m <= 255 * m
  {
    assert (255 - p) * m == 255 * m - p * m;
  }

  lemma {:induction false} ExtremeBound(c: Coeffs, n: nat, j: nat)
    requires c.Valid() && n <= 4 && j < 4
    ensures -(n * 255 * 0x8000) <= Extreme(c, n, j, false) <= 0 <= Extreme(c, n, j, true) <= n * 255 * 0x8000
  {
    if n > 0 { ExtremeBound(c, n - 1, j); }
  }

  /** Pixels at which the first `n` rows reach it; the others are black. */
  function Corner(c: Coeffs, n: nat, j: nat, high: bool): Pixels
    requires c.Valid() && n <= 4 && j < 4
  {
    seq(4, i requires 0 <= i < 4 => if i < n && Counts(c, i, j, high) then WHITE else CLEAR)
  }

  lemma CornerOk(c: Coeffs, n: nat, j: nat, high: bool)
    requires c.Valid() && n <= 4 && j < 4
    ensures ValidPixels(Corner(c, n, j, high))
  {
  }

  lemma {:induction false} CornerSum(c: Coeffs, n: nat, j: nat, high: bool, m: nat, e: nat)
    requires c.Valid() && n <= 4 && j < 4 && m <= 4 && e < 4
    ensures ValidPixels(Corner(c, n, j, high))
    ensures Sum(c, Corner(c, n, j, high), m, j, e) == Extreme(c, if m < n then m else n, j, high)
  {
    CornerOk(c, n, j, high);
    if m > 0 {
      CornerSum(c, n, j, high, m - 1, e);
      CornerTerm(c, n, j, high, m - 1, e);
      SumStep(c, Corner(c, n, j, high), m, j, e, Corner(c, n, j, high)[m - 1][e] * c.ip[4 * (m - 1) + j]);
    }
  }

  lemma SumStep(c: Coeffs, px: Pixels, n: nat, j: nat, e: nat, term: int)
    requires c.Valid() && ValidPixels(px) && 0 < n <= 4 && j < 4 && e < 4 &&
        term == px[n - 1][e] * c.ip[4 * (n - 1) + j]
    ensures Sum(c, px, n, j, e) == Sum(c, px, n - 1, j, e) + term
  {
  }

  lemma CornerTerm(c: Coeffs, n: nat, j: nat, high: bool, i: nat, e: nat)
    requires c.Valid() && n <= 4 && j < 4 && i < 4 && e < 4
    ensures Corner(c, n, j, high)[i][e] * c.ip[4 * i + j] ==
        if i < n && Counts(c, i, j, high) then 255 * c.ip[4 * i + j] else 0
  {
    assert Corner(c, n, j, high)[i] == if i < n && Counts(c, i, j, high) then WHITE else CLEAR;
  }

  // ---------------------------------------------------------------------------------------------
  // Columns that are computed

  /** With copy-alpha and four channels, alpha is not widened: row 3 of the matrix multiplies zero. */
  predicate Masked(key: Key) {
    key.copyAlpha && key.inVec == 4
  }

  lemma {:induction false} SumSame(c: Coeffs, px: Pixels, qx: Pixels, n: nat, j: nat, e: nat)
    requires c.Valid() && ValidPixels(px) && ValidPixels(qx) && n <= 4 && j < 4 && e < 4
    requires forall i :: 0 <= i < n ==> px[i] == qx[i]
    ensures Sum(c, px, n, j, e) == Sum(c, qx, n, j, e)
  {
    if n > 0 { SumSame(c, px, qx, n - 1, j, e); }
  }

  lemma SeenSum(key: Key, c: Coeffs, px: Pixels, j: nat, e: nat)
    requires c.Valid() && ValidPixels(px) && KeyOk(key) && j < 4 && e < 4
    ensures ValidPixels(Seen(key, px))
    ensures Sum(c, Seen(key, px), key.inVec, j, e) == Sum(c, px, if Masked(key) then 3 else key.inVec, j, e)
  {
    PresentOk(px, UnpackCount(key));
    SumSame(c, Seen(key, px), px, UnpackCount(key), j, e);
  }

  /** What a computed column holds, in terms of the pixels that were loaded. */
  lemma TotalIs(r0: Regs, key: Key, c: Coeffs, px: Pixels, vin: nat, vout: nat, j: nat, e: nat)
    requires ValidRegs(r0) && c.Valid() && ValidPixels(px) && KeyFor(key, c, vin, vout) && j < Vec(vout) &&
        Column(key, j) && e < 4
    ensures Total(r0, key, c, px, j, e) ==
      if Live(c, vin, j) then SatAdd(Sum(c, px, if Masked(key) then 3 else Vec(vin), j, e), c.ipa[j])
      else if c.ipa[j] != 0 then SatAdd(Pair(Seen(key, px)[j], e), c.ipa[j])
      else Rest(r0, j, e)
  {
    SeenSum(key, c, px, j, e);
    KernelValue(key, c, Seen(key, px), vin, vout, j, e, Rest(r0, j, e), Pair(Seen(key, px)[j], e));
  }

  /** The offset saturates the column for all pixels. */
  predicate Pinned(c: Coeffs, j: nat)
    requires c.Valid() && j < 4
  {
    Extreme(c, CHANNELS, j, false) + c.ipa[j] >= INT_MAX || Extreme(c, CHANNELS, j, true) + c.ipa[j] <= INT_MIN
  }

  /** The condition under which column `j` is computed right. */
  predicate RightWhen(key: Key, c: Coeffs, vin: nat, j: nat)
    requires c.Valid() && j < 4
  {
    if Live(c, vin, j) then !Masked(key) || c.ip[12 + j] == 0 || Pinned(c, j)
    else if c.ipa[j] != 0 then j >= Vec(vin) || c.ipa[j] == INT_MAX
    else j != 0
  }

  /** A column without a coefficient in use sums to zero. */
  lemma {:induction false} DeadSum(c: Coeffs, px: Pixels, n: nat, j: nat, e: nat)
    requires c.Valid() && ValidPixels(px) && n <= 4 && j < 4 && e < 4 && !LiveIn(c, n, j)
    ensures Sum(c, px, n, j, e) == 0
  {
    if n > 0 { DeadSum(c, px, n - 1, j, e); }
  }

  lemma PinnedSame(c: Coeffs, px: Pixels, j: nat, e: nat)
    requires c.Valid() && ValidPixels(px) && j < 4 && e < 4 && Pinned(c, j)
    ensures SatAdd(Sum(c, px, 3, j, e), c.ipa[j]) == SatAdd(Sum(c, px, 4, j, e), c.ipa[j])
  {
    SumWithin(c, px, 3, j, e);
    SumWithin(c, px, 4, j, e);
    LastRow(c, j, false);
    LastRow(c, j, true);
  }

  lemma RightIfWhen(r0: Regs, key: Key, c: Coeffs, px: Pixels, vin: nat, vout: nat, j: nat, e: nat)
    requires ValidRegs(r0) && c.Valid() && ValidPixels(px) && KeyFor(key, c, vin, vout) && j < Vec(vout) &&
        Column(key, j) && e < 4
    requires RightWhen(key, c, vin, j)
    ensures Total(r0, key, c, px, j, e) == Full(c, px, Vec(vin), j, e)
  {
    TotalIs(r0, key, c, px, vin, vout, j, e);
    if Live(c, vin, j) {
      if Masked(key) {
        assert Sum(c, px, 4, j, e) == Sum(c, px, 3, j, e) + px[3][e] * c.ip[12 + j];
        if c.ip[12 + j] != 0 { PinnedSame(c, px, j, e); }
      }
    } else {
      DeadSum(c, px, Vec(vin), j, e);
      if c.ipa[j] != 0 && j >= Vec(vin) { assert Seen(key, px)[j] == CLEAR; }
    }
  }

  /** A corner of the first three rows, with alpha at its highest. */
  function WhiteAlpha(c: Coeffs, j: nat, high: bool): Pixels
    requires c.Valid() && j < 4
  {
    Corner(c, 3, j, high)[3 := WHITE]
  }

  lemma WhiteAlphaSums(c: Coeffs, j: nat, high: bool)
    requires c.Valid() && j < 4
    ensures ValidPixels(WhiteAlpha(c, j, high))
    ensures Sum(c, WhiteAlpha(c, j, high), 3, j, 0) == Extreme(c, 3, j, high)
    ensures Sum(c, WhiteAlpha(c, j, high), 4, j, 0) == Extreme(c, 3, j, high) + 255 * c.ip[12 + j]
  {
    var px, corner := WhiteAlpha(c, j, high), Corner(c, 3, j, high);
    CornerSum(c, 3, j, high, 3, 0);
    assert ValidPixels(px);
    SumSame(c, px, corner, 3, j, 0);
  }

  lemma LastRow(c: Coeffs, j: nat, high: bool)
    requires c.Valid() && j < 4
    ensures Extreme(c, CHANNELS, j, high) ==
        Extreme(c, 3, j, high) + (if Counts(c, 3, j, high) then 255 * c.ip[12 + j] else 0)
  {
  }

  /** Pixels that show that row 3 is lost. */
  lemma MaskedWrong(c: Coeffs, j: nat) returns (px: Pixels)
    requires c.Valid() && j < 4 && c.ip[12 + j] != 0 && !Pinned(c, j)
    ensures ValidPixels(px) && SatAdd(Sum(c, px, 3, j, 0), c.ipa[j]) != SatAdd(Sum(c, px, 4, j, 0), c.ipa[j])
  {
    var m := c.ip[12 + j];
    LastRow(c, j, false);
    LastRow(c, j, true);
    ExtremeBound(c, 3, j);
    var high := if m > 0 then Extreme(c, 3, j, false) + 255 * m + c.ipa[j] <= INT_MIN
                else Extreme(c, 3, j, true) + 255 * m + c.ipa[j] < INT_MAX;
    WhiteAlphaSums(c, j, high);
    px := WhiteAlpha(c, j, high);
  }

  /** Pixels and registers at which column `j` is wrong, when the condition does not hold. */
  lemma WrongUnless(key: Key, c: Coeffs, vin: nat, vout: nat, j: nat) returns (r0: Regs, px: Pixels)
    requires c.Valid() && KeyFor(key, c, vin, vout) && j < Vec(vout) && Column(key, j) && !RightWhen(key, c, vin, j)
    ensures ValidRegs(r0) && ValidPixels(px) && Total(r0, key, c, px, j, 0) != Full(c, px, Vec(vin), j, 0)
  {
    r0 := InQ8(1);
    if Live(c, vin, j) {
      px := MaskedWrong(c, j);
    } else {
      px := [[1, 1, 1, 1], [1, 1, 1, 1], [1, 1, 1, 1], [1, 1, 1, 1]];
      DeadSum(c, px, Vec(vin), j, 0);
    }
    TotalIs(r0, key, c, px, vin, vout, j, 0);
  }

  lemma InQ8(v: nat) returns (r0: Regs)
    requires v < 0x8000
    ensures ValidRegs(r0) && Acc(r0, 0, 0) == v
  {
    var zero := seq(32, d => CLEAR);
    assert ValidRegs(zero);
    r0 := SetQ(zero, 8, [v, v, v, v]);
    SetQLanes(zero, 8, [v, v, v, v], 0);
  }

  lemma OneGroup(r0: Regs, key: Key, c: Coeffs, px: Pixels) returns (rs: seq<Regs>)
    requires ValidRegs(r0) && c.Valid() && KeyOk(key) && ValidPixels(px)
    ensures Call(rs, r0, key, c, [px])
  {
    var r := Prefix(r0, c);
    rs := [r, Packed(r, key, px)];
    assert Turn(rs[0], key, [px][0], rs[0 + 1]);
  }

  /** In every group of every call, whatever the registers held at entry, the accumulators of column `j`
      are the products with the offset. */
  ghost predicate AlwaysRight(key: Key, c: Coeffs, vin: nat, j: nat)
    requires c.Valid() && j < 4
  {
    forall rs: seq<Regs>, r0: Regs, groups: seq<Pixels>, n: nat, e: nat ::
      Call(rs, r0, key, c, groups) && n < |groups| && e < 4 ==> GroupRight(rs, key, c, groups, n, vin, j, e)
  }

  ghost predicate GroupRight(rs: seq<Regs>, key: Key, c: Coeffs, groups: seq<Pixels>, n: nat, vin: nat, j: nat, e: nat)
    requires c.Valid() && n < |groups| < |rs| && j < 4 && e < 4
  {
    && Turn(rs[n], key, groups[n], rs[n + 1])
    && Acc(Summed(rs[n], key, groups[n]), j, e) == Full(c, groups[n], Vec(vin), j, e)
  }

  /** A column that no shortcut skips is always right exactly under the condition. */
  lemma RightIff(key: Key, c: Coeffs, vin: nat, vout: nat, j: nat)
    requires c.Valid() && KeyFor(key, c, vin, vout) && j < Vec(vout) && Column(key, j)
    ensures AlwaysRight(key, c, vin, j) <==> RightWhen(key, c, vin, j)
  {
    if RightWhen(key, c, vin, j) {
      forall rs: seq<Regs>, r0: Regs, groups: seq<Pixels>, n: nat, e: nat | Call(rs, r0, key, c, groups) &&
          n < |groups| && e < 4
        ensures GroupRight(rs, key, c, groups, n, vin, j, e)
      {
        GroupStores(rs, r0, key, c, groups, n, vin, vout, j, e);
        RightIfWhen(r0, key, c, groups[n], vin, vout, j, e);
      }
    } else {
      var r0, px := WrongUnless(key, c, vin, vout, j);
      var rs := OneGroup(r0, key, c, px);
      GroupStores(rs, r0, key, c, [px], 0, vin, vout, j, 0);
      assert !GroupRight(rs, key, c, [px], 0, vin, j, 0);
    }
  }

  // ---------------------------------------------------------------------------------------------
  // Packing.  The shifted sum is cut to 16 bits before it is clamped to a byte.

  /** The byte that an accumulator stands for. */
  function Want(v: int): int {
    Clamp8(Shift8(v))
  }

  /** Cutting `s` to 16 bits does not change what it is clamped to. */
  predicate Good(s: int) {
    Clamp8(S16(U16(s))) == Clamp8(s)
  }

  predicate Smooth(lo: int, hi: int) {
    forall s :: lo <= s <= hi ==> Good(s)
  }

  lemma GoodIff(s: int)
    ensures Good(s) <==>
      || -0x8000 <= s < 0x8000
      || (s >= 0x8000 && 255 <= s % 0x1_0000 < 0x8000)
      || (s < -0x8000 && (s % 0x1_0000 == 0 || s % 0x1_0000 >= 0x8000))
  {
  }

  /** Values that are not good come in long stretches: none fits between two good ones that are near. */
  lemma Gap(a: int, b: int, s: int)
    requires Good(a) && Good(b) && a <= s <= b <= a + 0x7f80
    ensures Good(s)
  {
    GoodIff(a);
    GoodIff(b);
    GoodIff(s);
    var qa, qb, qs := a / 0x1_0000, b / 0x1_0000, s / 0x1_0000;
    assert a == 0x1_0000 * qa + a % 0x1_0000 && b == 0x1_0000 * qb + b % 0x1_0000 && s == 0x1_0000 * qs + s % 0x1_0000;
    assert qa <= qs <= qb <= qa + 1;
  }

  /** The shifted sum of the first `n` rows at a corner. */
  function At(c: Coeffs, n: nat, j: nat, high: bool): int
    requires c.Valid() && n <= 4 && j < 4
  {
    Shift8(SatAdd(Extreme(c, n, j, high), c.ipa[j]))
  }

  lemma AtStep(c: Coeffs, n: nat, j: nat)
    requires c.Valid() && 0 < n <= 4 && j < 4
    ensures At(c, n, j, false) <= At(c, n - 1, j, false) <= At(c, n, j, false) + 0x7f80
    ensures At(c, n - 1, j, true) <= At(c, n, j, true) <= At(c, n - 1, j, true) + 0x7f80
  {
    ExtremeBound(c, n, j);
    ExtremeBound(c, n - 1, j);
  }

  /** For all pixels the byte of column `j` is the clamped product. */
  ghost predicate PackRight(c: Coeffs, n: nat, j: nat)
    requires c.Valid() && n <= 4 && j < 4
  {
    forall px: Pixels, e: nat :: ValidPixels(px) && e < 4 ==> Cut(Full(c, px, n, j, e)) == Want(Full(c, px, n, j, e))
  }

  lemma CornerGood(c: Coeffs, n: nat, m: nat, j: nat, high: bool)
    requires c.Valid() && m <= n <= 4 && j < 4 && PackRight(c, n, j)
    ensures Good(At(c, m, j, high))
  {
    var px := Corner(c, m, j, high);
    CornerSum(c, m, j, high, n, 0);
    assert Cut(Full(c, px, n, j, 0)) == Want(Full(c, px, n, j, 0));
  }

  lemma Join(a: int, b: int, c: int)
    requires a <= b <= c && b - a <= 0x7f80 && Good(a) && Good(b) && Smooth(b, c)
    ensures Smooth(a, c)
  {
    forall s | a <= s <= c ensures Good(s) {
      if s <= b { Gap(a, b, s); }
    }
  }

  lemma JoinUp(a: int, b: int, c: int)
    requires a <= b <= c && c - b <= 0x7f80 && Good(b) && Good(c) && Smooth(a, b)
    ensures Smooth(a, c)
  {
    forall s | a <= s <= c ensures Good(s) {
      if s >= b { Gap(b, c, s); }
    }
  }

  /** From the smallest sum over black to the largest, row by row. */
  lemma {:induction false} WalkSmooth(c: Coeffs, n: nat, m: nat, j: nat)
    requires c.Valid() && m <= n <= 4 && j < 4 && PackRight(c, n, j)
    ensures At(c, m, j, false) <= At(c, m, j, true) && Smooth(At(c, m, j, false), At(c, m, j, true))
  {
    CornerGood(c, n, m, j, false);
    CornerGood(c, n, m, j, true);
    if m > 0 {
      WalkSmooth(c, n, m - 1, j);
      CornerGood(c, n, m - 1, j, false);
      CornerGood(c, n, m - 1, j, true);
      AtStep(c, m, j);
      Join(At(c, m, j, false), At(c, m - 1, j, false), At(c, m - 1, j, true));
      JoinUp(At(c, m, j, false), At(c, m - 1, j, true), At(c, m, j, true));
    }
  }

  lemma FullBetween(c: Coeffs, px: Pixels, n: nat, j: nat, e: nat)
    requires c.Valid() && ValidPixels(px) && n <= 4 && j < 4 && e < 4
    ensures At(c, n, j, false) <= Shift8(Full(c, px, n, j, e)) <= At(c, n, j, true)
  {
    SumWithin(c, px, n, j, e);
  }

  /** Packing column `j` is right for all pixels exactly if no value between the smallest and the largest
      sum is spoilt by the cut to 16 bits. */
  lemma PackIff(c: Coeffs, n: nat, j: nat)
    requires c.Valid() && n <= 4 && j < 4
    ensures PackRight(c, n, j) <==> Smooth(At(c, n, j, false), At(c, n, j, true))
  {
    if PackRight(c, n, j) { WalkSmooth(c, n, n, j); }
    if Smooth(At(c, n, j, false), At(c, n, j, true)) {
      forall px: Pixels, e: nat | ValidPixels(px) && e < 4
          ensures Cut(Full(c, px, n, j, e)) == Want(Full(c, px, n, j, e)) {
        FullBetween(c, px, n, j, e);
        assert Good(Shift8(Full(c, px, n, j, e)));
      }
    }
  }

  /** It is while sums stay within 16 bits. */
  lemma SmallSums(c: Coeffs, n: nat, j: nat)
    requires c.Valid() && n <= 4 && j < 4 && -0x8000 <= At(c, n, j, false) && At(c, n, j, true) < 0x8000
    ensures PackRight(c, n, j)
  {
    forall s | At(c, n, j, false) <= s <= At(c, n, j, true) ensures Good(s) { GoodIff(s); }
    PackIff(c, n, j);
  }

  // ---------------------------------------------------------------------------------------------
  // Channels that are stored

  /** What channel `j` of pixel `e` should be. */
  function Target(c: Coeffs, px: Pixels, vin: nat, j: nat, e: nat): int
    requires c.Valid() && ValidPixels(px) && j < 4 && e < 4
  {
    Want(Full(c, px, Vec(vin), j, e))
  }

  /** The column that channel `j` is packed from. */
  function Source(key: Key, j: nat): nat {
    if key.dot && 1 <= j <= 2 then 0 else j
  }

  /** A channel that is packed is right for every group of every call if its column is and packing is. */
  lemma PackedChannelRight(r0: Regs, key: Key, c: Coeffs, px: Pixels, vin: nat, vout: nat, j: nat, e: nat)
    requires ValidRegs(r0) && c.Valid() && ValidPixels(px) && KeyFor(key, c, vin, vout) && j < Vec(vout) && e < 4
    requires Source(key, j) < PackCount(key) && RightWhen(key, c, vin, Source(key, j)) &&
        PackRight(c, Vec(vin), Source(key, j))
    ensures Stored(r0, key, c, px, j, e) == Target(c, px, vin, j, e)
  {
    RightIfWhen(r0, key, c, px, vin, vout, Source(key, j), e);
    if Source(key, j) != j { DotAgrees(key, c, px, vin, vout, j, e); }
  }

  /** Channel `j` is stored right for all pixels, whatever the registers held. */
  ghost predicate ChannelRight(key: Key, c: Coeffs, vin: nat, j: nat)
    requires c.Valid() && KeyOk(key) && j < 4
  {
    forall r0: Regs, px: Pixels, e: nat :: ValidRegs(r0) && ValidPixels(px) && e < 4 ==>
      Stored(r0, key, c, px, j, e) == Target(c, px, vin, j, e)
  }

  /** If its column is computed right, it is stored right exactly if packing is. */
  lemma PackedChannelIff(key: Key, c: Coeffs, vin: nat, vout: nat, j: nat)
    requires c.Valid() && KeyFor(key, c, vin, vout) && j < Vec(vout)
    requires Source(key, j) < PackCount(key) && RightWhen(key, c, vin, Source(key, j))
    ensures ChannelRight(key, c, vin, j) <==> PackRight(c, Vec(vin), Source(key, j))
  {
    if PackRight(c, Vec(vin), Source(key, j)) {
      forall r0: Regs, px: Pixels, e: nat | ValidRegs(r0) && ValidPixels(px) && e < 4
        ensures Stored(r0, key, c, px, j, e) == Target(c, px, vin, j, e)
      {
        PackedChannelRight(r0, key, c, px, vin, vout, j, e);
      }
    }
    if ChannelRight(key, c, vin, j) {
      var r0 := InQ8(1);
      forall px: Pixels, e: nat | ValidPixels(px) && e < 4
        ensures var v := Full(c, px, Vec(vin), Source(key, j), e); Cut(v) == Want(v)
      {
        assert Stored(r0, key, c, px, j, e) == Target(c, px, vin, j, e);
        RightIfWhen(r0, key, c, px, vin, vout, Source(key, j), e);
        if Source(key, j) != j { DotAgrees(key, c, px, vin, vout, j, e); }
      }
    }
  }

  // ---------------------------------------------------------------------------------------------
  // Bytes of columns that are computed wrong

  /** Column `j` of three bytes of color, with the offset. */
  function Color(c: Coeffs, j: nat, x: int, y: int, z: int): int
    requires c.Valid() && j < 4
  {
    x * c.ip[j] + y * c.ip[4 + j] + z * c.ip[8 + j] + c.ipa[j]
  }

  predicate Bytes3(x: int, y: int, z: int) {
    0 <= x <= 255 && 0 <= y <= 255 && 0 <= z <= 255
  }

  function Splat(x: int): seq<int> {
    [x, x, x, x]
  }

  /** The alpha row, which is lost, shows in no byte. */
  ghost predicate AlphaHidden(c: Coeffs, j: nat)
    requires c.Valid() && j < 4
  {
    forall px: Pixels, e: nat :: ValidPixels(px) && e < 4 ==> Want(Full(c, px, 3, j, e)) == Want(Full(c, px, 4, j, e))
  }

  lemma WantSat(v: int, a: int)
    ensures Want(SatAdd(v, a)) == Want(v + a)
  {
  }

  lemma WantRises(v: int, w: int)
    requires v <= w
    ensures Want(v) <= Want(w)
  {
  }

  lemma SumOf(c: Coeffs, px: Pixels, j: nat, e: nat)
    requires c.Valid() && ValidPixels(px) && j < 4 && e < 4
    ensures Sum(c, px, 3, j, e) + c.ipa[j] == Color(c, j, px[0][e], px[1][e], px[2][e])
    ensures Sum(c, px, 4, j, e) == Sum(c, px, 3, j, e) + px[3][e] * c.ip[12 + j]
  {
    SumStep(c, px, 1, j, e, px[0][e] * c.ip[j]);
    SumStep(c, px, 2, j, e, px[1][e] * c.ip[4 + j]);
    SumStep(c, px, 3, j, e, px[2][e] * c.ip[8 + j]);
    SumStep(c, px, 4, j, e, px[3][e] * c.ip[12 + j]);
  }

  /** The highest alpha shows in none. */
  ghost predicate HighestHidden(c: Coeffs, j: nat)
    requires c.Valid() && j < 4
  {
    forall x, y, z :: Bytes3(x, y, z) ==>
      Want(Color(c, j, x, y, z)) == Want(Color(c, j, x, y, z) + 255 * c.ip[12 + j])
  }

  /** It is enough to look at the highest alpha. */
  lemma HiddenIff(c: Coeffs, j: nat)
    requires c.Valid() && j < 4
    ensures AlphaHidden(c, j) <==> HighestHidden(c, j)
  {
    if AlphaHidden(c, j) {
      forall x, y, z | Bytes3(x, y, z)
        ensures Want(Color(c, j, x, y, z)) == Want(Color(c, j, x, y, z) + 255 * c.ip[12 + j])
      {
        var px: Pixels := [Splat(x), Splat(y), Splat(z), WHITE];
        HiddenAt(c, px, j, 0);
      }
    }
    if HighestHidden(c, j) {
      forall px: Pixels, e: nat | ValidPixels(px) && e < 4
        ensures Want(Full(c, px, 3, j, e)) == Want(Full(c, px, 4, j, e))
      {
        HiddenAt(c, px, j, e);
        assert Bytes3(px[0][e], px[1][e], px[2][e]);
        Squeezed(Color(c, j, px[0][e], px[1][e], px[2][e]), px[3][e], c.ip[12 + j]);
      }
    }
  }

  lemma HiddenAt(c: Coeffs, px: Pixels, j: nat, e: nat)
    requires c.Valid() && ValidPixels(px) && j < 4 && e < 4
    ensures Want(Full(c, px, 3, j, e)) == Want(Color(c, j, px[0][e], px[1][e], px[2][e]))
    ensures Want(Full(c, px, 4, j, e)) == Want(Color(c, j, px[0][e], px[1][e], px[2][e]) + px[3][e] * c.ip[12 + j])
  {
    SumOf(c, px, j, e);
    WantSat(Sum(c, px, 3, j, e), c.ipa[j]);
    WantSat(Sum(c, px, 4, j, e), c.ipa[j]);
  }

  lemma Squeezed(v: int, p: int, m: int)
    requires 0 <= p <= 255 && Want(v) == Want(v + 255 * m)
    ensures Want(v) == Want(v + p * m)
  {
    Term(p, m);
    if m >= 0 {
      WantRises(v, v + p * m);
      WantRises(v + p * m, v + 255 * m);
    } else {
      WantRises(v + 255 * m, v + p * m);
      WantRises(v + p * m, v);
    }
  }

  /** What the smallest and the largest product are packed to. */
  predicate OneByte(c: Coeffs, j: nat)
    requires c.Valid() && j < 4
  {
    Want(Extreme(c, CHANNELS, j, false) + c.ipa[j]) == Want(Extreme(c, CHANNELS, j, true) + c.ipa[j])
  }

  /** `v` and `v + 255 * m` are packed to the same byte, for `m` 1 or -1. */
  predicate Still(v: int, m: int) {
    if m > 0 then v <= -128 || v >= 65152 || (v + 128) % 256 == 0
    else v <= 127 || v >= 65407 || (v + 128) % 256 == 255
  }

  /** The condition on the matrix for that: a coefficient of 1 or -1 may stay below every step of the byte; with
      any other the byte has to be the same for all pixels. */
  ghost predicate HiddenWhen(c: Coeffs, j: nat)
    requires c.Valid() && j < 4
  {
    var m := c.ip[12 + j];
    if -1 <= m <= 1 then m == 0 || forall x, y, z :: Bytes3(x, y, z) ==> Still(Color(c, j, x, y, z), m)
    else OneByte(c, j)
  }

  lemma StillIff(v: int, m: int)
    requires m == 1 || m == -1
    ensures Still(v, m) <==> Want(v) == Want(v + 255 * m)
  {
  }

  /** A product that is not clamped shows a coefficient above 1. */
  lemma Shows(v: int, m: int)
    requires 128 <= v < 65152 && (m < -1 || m > 1)
    ensures Want(v) != Want(v + 255 * m)
  {
  }

  /** So all products are clamped at the same end: a step of one byte does not get across. */
  lemma {:induction false} SameEnd(c: Coeffs, j: nat, x: int, y: int, z: int)
    requires c.Valid() && j < 4 && Bytes3(x, y, z) && (c.ip[12 + j] < -1 || c.ip[12 + j] > 1)
    requires HighestHidden(c, j)
    ensures Color(c, j, x, y, z) < 128 || Color(c, j, x, y, z) >= 65152
    ensures Color(c, j, x, y, z) < 128 <==> Color(c, j, 0, 0, 0) < 128
    decreases x + y + z
  {
    var v, m := Color(c, j, x, y, z), c.ip[12 + j];
    assert Want(v) == Want(v + 255 * m);
    if 128 <= v < 65152 { Shows(v, m); }
    if x > 0 {
      SameEnd(c, j, x - 1, y, z);
      OneLess(x, c.ip[j]);
    } else if y > 0 {
      SameEnd(c, j, x, y - 1, z);
      OneLess(y, c.ip[4 + j]);
    } else if z > 0 {
      SameEnd(c, j, x, y, z - 1);
      OneLess(z, c.ip[8 + j]);
    }
  }

  lemma OneLess(x: int, m: int)
    ensures x * m == (x - 1) * m + m
  {
  }

  /** A corner of the first three rows, as bytes. */
  function Edge(c: Coeffs, i: nat, j: nat, high: bool): int
    requires c.Valid() && i < 4 && j < 4
  {
    if Counts(c, i, j, high) then 255 else 0
  }

  lemma EdgeSum(c: Coeffs, j: nat, high: bool)
    requires c.Valid() && j < 4
    ensures Color(c, j, Edge(c, 0, j, high), Edge(c, 1, j, high), Edge(c, 2, j, high)) ==
        Extreme(c, 3, j, high) + c.ipa[j]
  {
    assert Extreme(c, 1, j, high) == Edge(c, 0, j, high) * c.ip[j];
    assert Extreme(c, 2, j, high) == Extreme(c, 1, j, high) + Edge(c, 1, j, high) * c.ip[4 + j];
    assert Extreme(c, 3, j, high) == Extreme(c, 2, j, high) + Edge(c, 2, j, high) * c.ip[8 + j];
  }

  lemma CornerEnd(c: Coeffs, j: nat, high: bool, v: int)
    requires c.Valid() && j < 4 && (c.ip[12 + j] < -1 || c.ip[12 + j] > 1) && HighestHidden(c, j)
    requires v == Extreme(c, 3, j, high) + c.ipa[j]
    ensures (v < 128 || v >= 65152) && (v < 128 <==> Color(c, j, 0, 0, 0) < 128)
    ensures Want(v) == Want(v + 255 * c.ip[12 + j])
  {
    var x, y, z := Edge(c, 0, j, high), Edge(c, 1, j, high), Edge(c, 2, j, high);
    EdgeSum(c, j, high);
    SameEnd(c, j, x, y, z);
  }

  lemma HiddenFlat(c: Coeffs, j: nat)
    requires c.Valid() && j < 4 && (c.ip[12 + j] < -1 || c.ip[12 + j] > 1) && HighestHidden(c, j)
    ensures OneByte(c, j)
  {
    var lo, hi := Extreme(c, 3, j, false) + c.ipa[j], Extreme(c, 3, j, true) + c.ipa[j];
    CornerEnd(c, j, false, lo);
    CornerEnd(c, j, true, hi);
    assert Want(lo) == Want(hi);
    LastRow(c, j, false);
    LastRow(c, j, true);
  }

  lemma FlatHidden(c: Coeffs, j: nat, px: Pixels, e: nat)
    requires c.Valid() && j < 4 && OneByte(c, j) && ValidPixels(px) && e < 4
    ensures Want(Full(c, px, 3, j, e)) == Want(Full(c, px, 4, j, e))
  {
    var lo, hi := Extreme(c, 4, j, false) + c.ipa[j], Extreme(c, 4, j, true) + c.ipa[j];
    var v, w := Sum(c, px, 3, j, e), Sum(c, px, 4, j, e);
    SumWithin(c, px, 3, j, e);
    SumWithin(c, px, 4, j, e);
    LastRow(c, j, false);
    LastRow(c, j, true);
    WantSat(v, c.ipa[j]);
    WantSat(w, c.ipa[j]);
    WantRises(lo, v + c.ipa[j]);
    WantRises(v + c.ipa[j], hi);
    WantRises(lo, w + c.ipa[j]);
    WantRises(w + c.ipa[j], hi);
  }

  /** The alpha row shows in no byte exactly under the condition. */
  lemma HiddenIffWhen(c: Coeffs, j: nat)
    requires c.Valid() && j < 4
    ensures AlphaHidden(c, j) <==> HiddenWhen(c, j)
  {
    var m := c.ip[12 + j];
    HiddenIff(c, j);
    if -1 <= m <= 1 {
      forall x, y, z | Bytes3(x, y, z) && m != 0
        ensures Still(Color(c, j, x, y, z), m) <==> Want(Color(c, j, x, y, z)) == Want(Color(c, j, x, y, z) + 255 * m)
      {
        StillIff(Color(c, j, x, y, z), m);
      }
    } else {
      if AlphaHidden(c, j) { HiddenFlat(c, j); }
      if OneByte(c, j) {
        forall px: Pixels, e: nat | ValidPixels(px) && e < 4
          ensures Want(Full(c, px, 3, j, e)) == Want(Full(c, px, 4, j, e))
        {
          FlatHidden(c, j, px, e);
        }
      }
    }
  }

  /** The first column is stored wrong if nothing goes into it: what is left in the register is packed. */
  lemma LeftoverWrong(key: Key, c: Coeffs, vin: nat, vout: nat, j: nat)
    requires c.Valid() && KeyFor(key, c, vin, vout) && j < Vec(vout) && Source(key, j) == 0
    requires !Live(c, vin, 0) && c.ipa[0] == 0
    ensures !ChannelRight(key, c, vin, j)
  {
    var r0 := InQ8(256);
    var px: Pixels := [CLEAR, CLEAR, CLEAR, CLEAR];
    TotalIs(r0, key, c, px, vin, vout, 0, 0);
    DeadSum(c, px, Vec(vin), 0, 0);
    if j != 0 { DotAgrees(key, c, px, vin, vout, j, 0); }
    assert Stored(r0, key, c, px, j, 0) != Target(c, px, vin, j, 0);
  }

  /** With an offset alone, two pixels are added to it as one number: there are some that change the byte. */
  lemma PairWrong(a: int) returns (hi: int)
    requires INT_MIN <= a <= INT_MAX
    ensures 0 <= hi <= 255 && Cut(SatAdd(0x1_0000 * hi, a)) != Want(a)
  {
    if a + 0x1_0000 * 255 > INT_MAX {
      hi := 255;
    } else {
      var s := Shift8(a);
      var k := if Want(a) == 0 then 1 else 128;
      hi := (k - s / 256) % 256;
      PairByte(a, hi, s, k);
    }
  }

  lemma PairByte(a: int, hi: int, s: int, k: int)
    requires INT_MIN <= a && a + 0x1_0000 * 255 <= INT_MAX && s == Shift8(a) && (k == 1 || k == 128)
    requires hi == (k - s / 256) % 256
    ensures Cut(SatAdd(0x1_0000 * hi, a)) == if k == 1 then 255 else 0
  {
    var t := Shift8(a + 0x1_0000 * hi);
    assert t == s + 256 * hi;
    var q := (k - s / 256) / 256;
    assert hi == k - s / 256 - 256 * q;
    assert t == s % 256 + 256 * k - 0x1_0000 * q;
    Residue(s % 256 + 256 * k, q);
  }

  lemma Residue(r: int, q: int)
    requires 0 <= r < 0x1_0000
    ensures U16(r - 0x1_0000 * q) == r
  {
  }

  /** So a column with an offset alone is stored wrong. */
  lemma OffsetWrong(key: Key, c: Coeffs, vin: nat, vout: nat, j: nat)
    requires c.Valid() && KeyFor(key, c, vin, vout) && j < Vec(vout) && Source(key, j) < PackCount(key)
    requires !Live(c, vin, Source(key, j)) && c.ipa[Source(key, j)] != 0 && Source(key, j) < Vec(vin)
    ensures !ChannelRight(key, c, vin, j)
  {
    var hi := PairWrong(c.ipa[j]);
    var r0 := InQ8(1);
    var two := [0, hi, 0, 0];
    var px: Pixels := [two, two, two, two];
    TotalIs(r0, key, c, px, vin, vout, j, 0);
    DeadSum(c, px, Vec(vin), j, 0);
    assert Seen(key, px)[j] == two;
    assert Stored(r0, key, c, px, j, 0) != Target(c, px, vin, j, 0);
  }

  /** Where the alpha row is lost, the byte is what the others are packed to. */
  lemma MaskedStored(r0: Regs, key: Key, c: Coeffs, px: Pixels, vin: nat, vout: nat, j: nat, e: nat)
    requires ValidRegs(r0) && c.Valid() && ValidPixels(px) && KeyFor(key, c, vin, vout) && j < Vec(vout) && e < 4
    requires Source(key, j) < PackCount(key) && Live(c, vin, Source(key, j)) && Masked(key)
    ensures Stored(r0, key, c, px, j, e) == Cut(Full(c, px, 3, Source(key, j), e))
    ensures Target(c, px, vin, j, e) == Want(Full(c, px, 4, Source(key, j), e))
  {
    TotalIs(r0, key, c, px, vin, vout, Source(key, j), e);
    if Source(key, j) != j { DotAgrees(key, c, px, vin, vout, j, e); }
  }

  lemma MaskedRight(r0: Regs, key: Key, c: Coeffs, px: Pixels, vin: nat, vout: nat, j: nat, e: nat)
    requires ValidRegs(r0) && c.Valid() && ValidPixels(px) && KeyFor(key, c, vin, vout) && j < Vec(vout) && e < 4
    requires Source(key, j) < PackCount(key) && Live(c, vin, Source(key, j)) && Masked(key)
    requires ChannelRight(key, c, vin, j)
    ensures Cut(Full(c, px, 3, Source(key, j), e)) == Want(Full(c, px, 4, Source(key, j), e))
  {
    assert Stored(r0, key, c, px, j, e) == Target(c, px, vin, j, e);
    MaskedStored(r0, key, c, px, vin, vout, j, e);
  }

  /** Without alpha its row does not matter. */
  lemma DarkSame(c: Coeffs, px: Pixels, j: nat, e: nat)
    requires c.Valid() && ValidPixels(px) && j < 4 && e < 4
    ensures ValidPixels(px[3 := CLEAR])
    ensures Full(c, px[3 := CLEAR], 3, j, e) == Full(c, px, 3, j, e) == Full(c, px[3 := CLEAR], 4, j, e)
  {
    var dark := px[3 := CLEAR];
    SumSame(c, px, dark, 3, j, e);
    SumOf(c, dark, j, e);
  }

  /** It is right exactly if those are packed right and the alpha row shows in no byte. */
  lemma MaskedIff(key: Key, c: Coeffs, vin: nat, vout: nat, j: nat)
    requires c.Valid() && KeyFor(key, c, vin, vout) && j < Vec(vout)
    requires Source(key, j) < PackCount(key) && Live(c, vin, Source(key, j)) && Masked(key)
    ensures ChannelRight(key, c, vin, j) <==> PackRight(c, 3, Source(key, j)) && AlphaHidden(c, Source(key, j))
  {
    var k := Source(key, j);
    var r0 := InQ8(1);
    if ChannelRight(key, c, vin, j) {
      forall px: Pixels, e: nat | ValidPixels(px) && e < 4
        ensures Cut(Full(c, px, 3, k, e)) == Want(Full(c, px, 3, k, e)) == Want(Full(c, px, 4, k, e))
      {
        DarkSame(c, px, k, e);
        MaskedRight(r0, key, c, px, vin, vout, j, e);
        MaskedRight(r0, key, c, px[3 := CLEAR], vin, vout, j, e);
      }
    }
    if PackRight(c, 3, k) && AlphaHidden(c, k) {
      forall r: Regs, px: Pixels, e: nat | ValidRegs(r) && ValidPixels(px) && e < 4
        ensures Stored(r, key, c, px, j, e) == Target(c, px, vin, j, e)
      {
        MaskedStored(r, key, c, px, vin, vout, j, e);
      }
    }
  }

  /** The condition on the matrix under which a channel packed from column `j` is stored right. */
  ghost predicate StoredWhen(key: Key, c: Coeffs, vin: nat, j: nat)
    requires c.Valid() && j < 4
  {
    if RightWhen(key, c, vin, j) then Smooth(At(c, Vec(vin), j, false), At(c, Vec(vin), j, true))
    else Live(c, vin, j) && Smooth(At(c, 3, j, false), At(c, 3, j, true)) && HiddenWhen(c, j)
  }

  /** A channel that is packed is stored right for all pixels, whatever the registers held, exactly under the
      condition. */
  lemma StoredIff(key: Key, c: Coeffs, vin: nat, vout: nat, j: nat)
    requires c.Valid() && KeyFor(key, c, vin, vout) && j < Vec(vout) && Source(key, j) < PackCount(key)
    ensures ChannelRight(key, c, vin, j) <==> StoredWhen(key, c, vin, Source(key, j))
  {
    var k := Source(key, j);
    if RightWhen(key, c, vin, k) {
      PackedChannelIff(key, c, vin, vout, j);
      PackIff(c, Vec(vin), k);
    } else if Live(c, vin, k) {
      MaskedIff(key, c, vin, vout, j);
      PackIff(c, 3, k);
      HiddenIffWhen(c, k);
    } else if c.ipa[k] != 0 {
      OffsetWrong(key, c, vin, vout, j);
    } else {
      LeftoverWrong(key, c, vin, vout, j);
    }
  }

  /** Copied alpha is always right, with or without an alpha channel in the input. */
  lemma CopiedAlphaRight(r0: Regs, key: Key, c: Coeffs, px: Pixels, vin: nat, vout: nat, e: nat)
    requires ValidRegs(r0) && c.Valid() && ValidPixels(px) && KeyFor(key, c, vin, vout) && key.copyAlpha &&
        Vec(vout) == 4 && e < 4
    ensures Stored(r0, key, c, px, 3, e) == Target(c, px, vin, 3, e)
  {
    AlphaSum(c, px, Vec(vin), e);
  }

  /** With `dot` and without copy-alpha, alpha is computed but not packed: the loaded one is stored. */
  ghost predicate DotAlphaRight(key: Key, c: Coeffs, vin: nat)
    requires c.Valid() && KeyOk(key)
  {
    ChannelRight(key, c, vin, 3)
  }

  predicate NoRise(c: Coeffs, n: nat)
    requires c.Valid() && n <= 4
  {
    n == 0 || (NoRise(c, n - 1) && c.ip[4 * (n - 1) + 3] <= 0)
  }

  lemma {:induction false} NoRiseSum(c: Coeffs, px: Pixels, n: nat, e: nat)
    requires c.Valid() && ValidPixels(px) && n <= 4 && e < 4 && NoRise(c, n)
    ensures Sum(c, px, n, 3, e) <= 0
  {
    if n > 0 {
      NoRiseSum(c, px, n - 1, e);
      Term(px[n - 1][e], c.ip[4 * (n - 1) + 3]);
    }
  }

  function Flat(v: int): seq<int> {
    [v, v, v, v]
  }

  /** Pixels with `p` in channel `i`, `a` in alpha and nothing else. */
  function Spot(i: nat, p: int, a: int): Pixels
    requires i < 3
  {
    [CLEAR, CLEAR, CLEAR, Flat(a)][i := Flat(p)]
  }

  lemma {:induction false} SpotSum(c: Coeffs, i: nat, p: int, a: int, n: nat)
    requires c.Valid() && i < 3 && 0 <= p <= 255 && 0 <= a <= 255 && n <= 4
    ensures ValidPixels(Spot(i, p, a))
    ensures Sum(c, Spot(i, p, a), n, 3, 0) ==
        (if i < n then p * c.ip[4 * i + 3] else 0) + (if n == 4 then a * c.ip[15] else 0)
  {
    assert ValidPixels(Spot(i, p, a));
    if n > 0 { SpotSum(c, i, p, a, n - 1); }
  }

  lemma {:induction false} RisingRow(c: Coeffs, n: nat) returns (i: nat)
    requires c.Valid() && n <= 4 && !NoRise(c, n)
    ensures i < n && c.ip[4 * i + 3] > 0
  {
    if c.ip[4 * (n - 1) + 3] > 0 { i := n - 1; } else { i := RisingRow(c, n - 1); }
  }

  /** Pixels whose alpha is stored wrong. */
  lemma DotAlphaWrong(key: Key, c: Coeffs, vin: nat, vout: nat) returns (px: Pixels)
    requires c.Valid() && KeyFor(key, c, vin, vout) && key.dot && !key.copyAlpha && Vec(vout) == 4
    requires Vec(vin) == 4 || !NoRise(c, Vec(vin))
    ensures ValidPixels(px) && (if Vec(vin) == 4 then px[3][0] else 0) != Target(c, px, vin, 3, 0)
  {
    if Vec(vin) < 4 {
      var i := RisingRow(c, Vec(vin));
      px := Spot(i, 255, 0);
      SpotSum(c, i, 255, 0, Vec(vin));
    } else if c.ip[15] != 256 {
      px := Spot(0, 0, 254);
      SpotSum(c, 0, 0, 254, 4);
      assert Sum(c, px, 4, 3, 0) == 254 * c.ip[15];
    } else {
      var i: nat := if c.ip[3] != 0 then 0 else if c.ip[7] != 0 then 1 else 2;
      px := Spot(i, 255, 128);
      SpotSum(c, i, 255, 128, 4);
      assert Sum(c, px, 4, 3, 0) == 255 * c.ip[4 * i + 3] + 128 * 256;
    }
  }

  lemma DotAlphaIff(key: Key, c: Coeffs, vin: nat, vout: nat)
    requires c.Valid() && KeyFor(key, c, vin, vout) && key.dot && !key.copyAlpha && Vec(vout) == 4
    ensures DotAlphaRight(key, c, vin) <==> Vec(vin) < 4 && NoRise(c, Vec(vin))
  {
    if Vec(vin) < 4 && NoRise(c, Vec(vin)) {
      forall r0: Regs, px: Pixels, e: nat | ValidRegs(r0) && ValidPixels(px) && e < 4
        ensures Stored(r0, key, c, px, 3, e) == Target(c, px, vin, 3, e)
      {
        NoRiseSum(c, px, Vec(vin), e);
      }
    } else {
      var px := DotAlphaWrong(key, c, vin, vout);
      var r0 := InQ8(1);
      assert Stored(r0, key, c, px, 3, 0) != Target(c, px, vin, 3, 0);
    }
  }

  // ---------------------------------------------------------------------------------------------
  // Matrices that fail

  /** The identity, with alpha added to red. */
  const ALPHA_TO_RED := Coeffs([256, 0, 0, 0, 0, 256, 0, 0, 0, 0, 256, 0, 256, 0, 0, 256], [0, 0, 0, 0])

  /** Green and blue kept, red set to one half. */
  const RED_CONSTANT := Coeffs([0, 0, 0, 0, 0, 256, 0, 0, 0, 0, 256, 0, 0, 0, 0, 256], [32768, 0, 0, 0])

  /** Red dropped. */
  const NO_RED := Coeffs([0, 0, 0, 0, 0, 256, 0, 0, 0, 0, 256, 0, 0, 0, 0, 256], [0, 0, 0, 0])

  /** The mean of the colors in all of them, and alpha halved. */
  const GRAY := Coeffs([85, 85, 85, 0, 85, 85, 85, 0, 85, 85, 85, 0, 0, 0, 0, 128], [0, 0, 0, 0])

  /** Red amplified by 127 and more, from two channels. */
  const GLARE := Coeffs([32767, 0, 0, 0, 32767, 256, 0, 0, 0, 0, 256, 0, 0, 0, 0, 256], [0, 0, 0, 0])

  /** Copy-alpha loses the alpha that goes to red. */
  lemma AlphaToRedFails(key: Key)
    requires ALPHA_TO_RED.Valid() && KeyFor(key, ALPHA_TO_RED, 4, 4)
    ensures !AlwaysRight(key, ALPHA_TO_RED, 4, 0)
  {
    var c := ALPHA_TO_RED;
    assert LiveIn(c, 1, 0) && LiveIn(c, 2, 0) && LiveIn(c, 3, 0) && LiveIn(c, 4, 0);
    ExtremeBound(c, CHANNELS, 0);
    assert key.copyAlpha && !RightWhen(key, c, 4, 0);
    RightIff(key, c, 4, 4, 0);
  }

  /** The constant is added to pairs of pixels. */
  lemma RedConstantFails(key: Key)
    requires RED_CONSTANT.Valid() && KeyFor(key, RED_CONSTANT, 4, 4)
    ensures !AlwaysRight(key, RED_CONSTANT, 4, 0)
  {
    NotLive(RED_CONSTANT);
    RightIff(key, RED_CONSTANT, 4, 4, 0);
  }

  /** Red is what Q8 held before. */
  lemma NoRedFails(key: Key)
    requires NO_RED.Valid() && KeyFor(key, NO_RED, 4, 4)
    ensures !AlwaysRight(key, NO_RED, 4, 0)
  {
    NotLive(NO_RED);
    RightIff(key, NO_RED, 4, 4, 0);
  }

  lemma NotLive(c: Coeffs)
    requires c.Valid() && c.ip[0] == c.ip[4] == c.ip[8] == c.ip[12] == 0
    ensures !Live(c, 4, 0)
  {
    assert !LiveIn(c, 0, 0) && !LiveIn(c, 1, 0) && !LiveIn(c, 2, 0) && !LiveIn(c, 3, 0);
  }

  /** Alpha is not halved. */
  lemma GrayFails(key: Key)
    requires GRAY.Valid() && KeyFor(key, GRAY, 4, 4)
    ensures key.dot && !key.copyAlpha && !DotAlphaRight(key, GRAY, 4)
  {
    GraySame();
    DotAlphaIff(key, GRAY, 4, 4);
  }

  lemma GraySame()
    ensures forall i :: 0 <= i < 4 ==> SameRgb(GRAY, i)
  {
    assert SameRgb(GRAY, 0) && SameRgb(GRAY, 1) && SameRgb(GRAY, 2) && SameRgb(GRAY, 3);
  }

  /** White is packed to black. */
  lemma GlareWraps()
    ensures GLARE.Valid() && !PackRight(GLARE, 4, 0)
  {
    var px: Pixels := [WHITE, WHITE, CLEAR, CLEAR];
    assert ValidPixels(px);
    assert Sum(GLARE, px, 1, 0, 0) == 255 * 32767;
    assert Sum(GLARE, px, 2, 0, 0) == 2 * 255 * 32767;
    assert Sum(GLARE, px, 3, 0, 0) == 2 * 255 * 32767;
    assert Sum(GLARE, px, 4, 0, 0) == 2 * 255 * 32767;
    assert Cut(Full(GLARE, px, 4, 0, 0)) == 0 && Want(Full(GLARE, px, 4, 0, 0)) == 255;
  }
}
