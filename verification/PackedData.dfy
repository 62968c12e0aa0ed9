/** Elements in memory: three-component vectors are padded to four, while files hold them unpadded.
    The model has the field offsets of both layouts and the copy between them, in either direction. */
module PackedData {

  import opened Bytes
  import opened Common

  // ---------------------------------------------------------------------------------------------
  // Sizes

  /** The size of the plain data types in bytes, by their codes: floats, signed, unsigned, boolean,
      matrices.  `mTypeBits` is eight times that. */
  function TypeBytes(dataType: nat): nat {
    match dataType
    case 1 => 2 case 2 => 4 case 3 => 8
    case 4 => 1 case 5 => 2 case 6 => 4 case 7 => 8
    case 8 => 1 case 9 => 2 case 10 => 4 case 11 => 8
    case 12 => 1
    case 16 => 64 case 17 => 36 case 18 => 16
    case _ => 0
  }

  /** The plain types: floats, signed and unsigned integers in ascending sizes, each a power of two and the last
      of eight bytes; square matrices of floats. */
  lemma TypeSizes(k: nat)
    ensures 1 <= k <= 3 ==> TypeBytes(k) == Pow2(k)
    ensures k <= 3 ==> TypeBytes(4 + k) == TypeBytes(8 + k) == Pow2(k)
    ensures 2 <= k <= 4 ==> TypeBytes(20 - k) == k * k * TypeBytes(2)
    ensures TypeBytes(12) == 1
  {
    assert Pow2(0) == 1 && Pow2(1) == 2 && Pow2(2) == 4 && Pow2(3) == 8;
  }

  /** `rsHigherPow2`. */
  function HigherPow2(v: nat): nat {
    if v == 0 || v == Pow2(HighBit(v)) then v else Pow2(HighBit(v) + 1)
  }

  /** A power of two, at least the value and less than twice it. */
  lemma HigherPow2Is(v: nat) returns (k: nat)
    requires v >= 1
    ensures HigherPow2(v) == Pow2(k) && v <= HigherPow2(v) < 2 * v
  {
    HighBitBounds(v);
    k := if v == Pow2(HighBit(v)) then HighBit(v) else HighBit(v) + 1;
  }

  /** Of the four vector sizes only three is padded. */
  lemma PaddedLanes(vec: nat)
    requires 1 <= vec <= 4
    ensures HigherPow2(vec) == vec <==> vec != 3
    ensures vec == 3 ==> HigherPow2(vec) == 4
  {
    assert HighBit(1) == 0 && HighBit(2) == 1 && HighBit(3) == 1 && HighBit(4) == 2;
    assert Pow2(0) == 1 && Pow2(1) == 2 && Pow2(2) == 4;
  }

  /** A field of a flat element: data type, vector size, array size. */
  datatype Field = Field(dataType: nat, vec: nat, arraySize: nat)

  /** The type is plain, and the vector size one of the four. */
  predicate FieldOk(f: Field) {
    TypeBytes(f.dataType) > 0 && 1 <= f.vec <= 4
  }

  function Lanes(f: Field, padded: bool): nat
    requires FieldOk(f)
  {
    if padded then HigherPow2(f.vec) else f.vec
  }

  /** `getSizeBits` or `getSizeBitsUnpadded` of the field's element, times its array size. */
  function Bits(f: Field, padded: bool): nat
    requires FieldOk(f)
  {
    8 * TypeBytes(f.dataType) * Lanes(f, padded) * f.arraySize
  }

  lemma Eight(t: nat, v: nat, c: nat)
    ensures 8 * t * v * c == 8 * (t * v * c)
  {
  }

  lemma Scaled(t: nat, a: nat, b: nat, c: nat)
    requires a <= b
    ensures t * a * c <= t * b * c
  {
    var x, y := t * a, t * b;
    assert x <= y;
    assert x * c <= y * c;
  }

  lemma BitsFacts(f: Field)
    requires FieldOk(f)
    ensures Bits(f, true) % 8 == 0 && Bits(f, false) % 8 == 0 && Bits(f, false) <= Bits(f, true)
  {
    var t, a, b, c := TypeBytes(f.dataType), Lanes(f, false), Lanes(f, true), f.arraySize;
    PaddedLanes(f.vec);
    Eight(t, a, c);
    Eight(t, b, c);
    Scaled(t, a, b, c);
    var x, y := t * a * c, t * b * c;
    assert Bits(f, false) == 8 * x && Bits(f, true) == 8 * y;
  }

  /** A three-vector takes 4/3 of its packed bits, anything else just those. */
  lemma PaddedBits(f: Field)
    requires FieldOk(f)
    ensures f.vec == 3 ==> 3 * Bits(f, true) == 4 * Bits(f, false)
    ensures Bits(f, true) == Bits(f, false) <==> f.vec != 3 || f.arraySize == 0
  {
    PaddedLanes(f.vec);
    var t, c := 8 * TypeBytes(f.dataType), f.arraySize;
    if f.vec == 3 {
      Thirds(t, c);
    }
  }

  lemma Thirds(t: nat, c: nat)
    requires t > 0
    ensures 3 * (t * 4 * c) == 4 * (t * 3 * c) && (t * 4 * c == t * 3 * c <==> c == 0)
  {
    var x := t * c;
    assert t * 4 * c == 4 * x && t * 3 * c == 3 * x;
    assert x == 0 <==> c == 0;
  }

  /** The sum of the first `n`. */
  function Sum(s: seq<nat>, n: nat): nat
    requires n <= |s|
  {
    if n == 0 then 0 else Sum(s, n - 1) + s[n - 1]
  }

  predicate IsSum(v: nat, s: seq<nat>, n: nat) {
    n <= |s| && v == Sum(s, n)
  }

  ghost function AllBits(fields: seq<Field>, padded: bool): (r: seq<nat>)
    requires forall i :: 0 <= i < |fields| ==> FieldOk(fields[i])
    ensures |r| == |fields|
  {
    seq(|fields|, i requires 0 <= i < |fields| => Bits(fields[i], padded))
  }

  /** The loop of `Element::compute`, over the sizes of the fields: both offsets of every field are the
      sums of the sizes before it. */
  method ComputeOffsets(sizes: seq<nat>, sizesUnpadded: seq<nat>)
      returns (offsets: seq<nat>, unpadded: seq<nat>, bits: nat, bitsUnpadded: nat)
    requires |sizes| == |sizesUnpadded|
    ensures |offsets| == |unpadded| == |sizes|
    ensures forall i :: 0 <= i < |sizes| ==> IsSum(offsets[i], sizes, i) && IsSum(unpadded[i], sizesUnpadded, i)
    ensures bits == Sum(sizes, |sizes|) && bitsUnpadded == Sum(sizesUnpadded, |sizes|)
  {
    offsets, unpadded, bits, bitsUnpadded := [], [], 0, 0;
    var ct := 0;
    while ct < |sizes|
      invariant 0 <= ct <= |sizes| && |offsets| == |unpadded| == ct
      invariant forall i :: 0 <= i < ct ==> IsSum(offsets[i], sizes, i) && IsSum(unpadded[i], sizesUnpadded, i)
      invariant bits == Sum(sizes, ct) && bitsUnpadded == Sum(sizesUnpadded, ct)
    {
      offsets, unpadded := offsets + [bits], unpadded + [bitsUnpadded];
      bits, bitsUnpadded := bits + sizes[ct], bitsUnpadded + sizesUnpadded[ct];
      ct := ct + 1;
    }
  }

  /** No field among the first `n` takes more room padded. */
  ghost predicate Unpadded(fields: seq<Field>, n: nat)
    requires n <= |fields|
  {
    forall i :: 0 <= i < n ==> fields[i].vec != 3 || fields[i].arraySize == 0
  }

  lemma {:induction false} SumsAgree(fields: seq<Field>, n: nat)
    requires n <= |fields| && forall i :: 0 <= i < |fields| ==> FieldOk(fields[i])
    ensures Sum(AllBits(fields, false), n) <= Sum(AllBits(fields, true), n)
    ensures Sum(AllBits(fields, false), n) == Sum(AllBits(fields, true), n) <==> Unpadded(fields, n)
  {
    if n > 0 {
      SumsAgree(fields, n - 1);
      BitsFacts(fields[n - 1]);
      PaddedBits(fields[n - 1]);
    }
  }

  /** The sizes of the fields, for one layout. */
  method FieldBits(fields: seq<Field>, padded: bool) returns (r: seq<nat>)
    requires forall i :: 0 <= i < |fields| ==> FieldOk(fields[i])
    ensures r == AllBits(fields, padded)
  {
    r := [];
    while |r| < |fields|
      invariant |r| <= |fields| && forall i :: 0 <= i < |r| ==> r[i] == Bits(fields[i], padded)
    {
      r := r + [Bits(fields[|r|], padded)];
    }
  }

  /** `Element::compute`: the two offsets of a field agree exactly if no three-vector comes before it, and the two
      sizes if there is none at all.  Otherwise the padded ones are larger. */
  method Compute(fields: seq<Field>) returns (offsets: seq<nat>, unpadded: seq<nat>, bits: nat, bitsUnpadded: nat)
    requires forall i :: 0 <= i < |fields| ==> FieldOk(fields[i])
    ensures |offsets| == |unpadded| == |fields|
    ensures forall i :: 0 <= i < |fields| ==>
      unpadded[i] <= offsets[i] && (unpadded[i] == offsets[i] <==> Unpadded(fields, i))
    ensures bitsUnpadded <= bits && (bitsUnpadded == bits <==> Unpadded(fields, |fields|))
    ensures forall i :: 0 <= i < |fields| ==>
      Bits(fields[i], true) == (if i + 1 < |fields| then offsets[i + 1] else bits) - offsets[i]
  {
    var sizes := FieldBits(fields, true);
    var sizesUnpadded := FieldBits(fields, false);
    offsets, unpadded, bits, bitsUnpadded := ComputeOffsets(sizes, sizesUnpadded);
    SumsAgree(fields, |fields|);
    forall i | 0 <= i < |fields|
      ensures unpadded[i] <= offsets[i] && (unpadded[i] == offsets[i] <==> Unpadded(fields, i))
      ensures Bits(fields[i], true) == (if i + 1 < |fields| then offsets[i + 1] else bits) - offsets[i]
    {
      SumsAgree(fields, i);
      assert IsSum(offsets[i], sizes, i) && IsSum(unpadded[i], sizesUnpadded, i);
      assert i + 1 < |fields| ==> IsSum(offsets[i + 1], sizes, i + 1);
      assert Sum(sizes, i + 1) == Sum(sizes, i) + sizes[i];
    }
  }

  /** The sizes of the fields in bytes. */
  function BytesOf(s: seq<nat>): (r: seq<nat>)
    ensures |r| == |s|
  {
    seq(|s|, i requires 0 <= i < |s| => s[i] / 8)
  }

  /** Offsets in bytes are the sums of the sizes in bytes. */
  lemma {:induction false} OffsetBytes(s: seq<nat>, n: nat)
    requires n <= |s| && forall i :: 0 <= i < |s| ==> s[i] % 8 == 0
    ensures Sum(s, n) % 8 == 0 && Sum(s, n) / 8 == Sum(BytesOf(s), n)
  {
    if n > 0 { OffsetBytes(s, n - 1); }
  }

  // ---------------------------------------------------------------------------------------------
  // One cell

  /** Field sizes with and without padding, and how much of each is copied. */
  datatype Layout = Layout(padded: seq<nat>, packed: seq<nat>, copied: seq<nat>)

  ghost predicate LayoutOk(l: Layout) {
    && |l.padded| == |l.packed| == |l.copied|
    && forall i :: 0 <= i < |l.packed| ==> l.copied[i] <= l.packed[i] <= l.padded[i]
  }

  /** Every field is copied whole. */
  ghost predicate Whole(l: Layout) {
    l.copied == l.packed
  }

  /** A field without its array. */
  function OneOf(f: Field): (r: Field)
    requires FieldOk(f)
    ensures FieldOk(r)
  {
    f.(arraySize := 1)
  }

  /** `getSizeBytesUnpadded` of each field's element: the copy does not look at array sizes. */
  ghost function ElementBytes(fields: seq<Field>): (r: seq<nat>)
    requires forall i :: 0 <= i < |fields| ==> FieldOk(fields[i])
    ensures |r| == |fields|
  {
    seq(|fields|, i requires 0 <= i < |fields| => Bits(OneOf(fields[i]), false) / 8)
  }

  ghost function LayoutOf(fields: seq<Field>): Layout
    requires forall i :: 0 <= i < |fields| ==> FieldOk(fields[i])
  {
    Layout(BytesOf(AllBits(fields, true)), BytesOf(AllBits(fields, false)), ElementBytes(fields))
  }

  /** An array of `n` has `n` times the bytes of its element. */
  lemma ArrayBits(f: Field)
    requires FieldOk(f) && f.arraySize >= 1
    ensures Bits(OneOf(f), false) > 0 && Bits(OneOf(f), false) % 8 == 0
    ensures Bits(OneOf(f), false) <= Bits(f, false)
    ensures Bits(OneOf(f), false) == Bits(f, false) <==> f.arraySize == 1
  {
    var b, n := 8 * TypeBytes(f.dataType) * Lanes(f, false), f.arraySize;
    BitsFacts(OneOf(f));
    assert TypeBytes(f.dataType) * Lanes(f, false) > 0;
    Multiples(b, n);
  }

  lemma Multiples(b: nat, n: nat)
    requires b > 0 && n >= 1
    ensures b <= b * n && (b == b * n <==> n == 1)
  {
    if n > 1 { assert b * n >= b * 2; }
  }

  /** The layout of a flat element is in order, and the copy takes it whole exactly if it has no arrays. */
  lemma FieldsLayout(fields: seq<Field>)
    requires forall i :: 0 <= i < |fields| ==> FieldOk(fields[i]) && fields[i].arraySize >= 1
    ensures LayoutOk(LayoutOf(fields))
    ensures Whole(LayoutOf(fields)) <==> forall i :: 0 <= i < |fields| ==> fields[i].arraySize == 1
  {
    var l := LayoutOf(fields);
    forall i | 0 <= i < |fields|
      ensures l.copied[i] <= l.packed[i] <= l.padded[i] && (l.copied[i] == l.packed[i] <==> fields[i].arraySize == 1)
    {
      FieldLayout(fields[i]);
      assert l.copied[i] == Bits(OneOf(fields[i]), false) / 8;
    }
    if Whole(l) {
      forall i | 0 <= i < |fields| ensures fields[i].arraySize == 1 { assert l.copied[i] == l.packed[i]; }
    }
  }

  lemma FieldLayout(f: Field)
    requires FieldOk(f) && f.arraySize >= 1
    ensures Bits(OneOf(f), false) / 8 <= Bits(f, false) / 8 <= Bits(f, true) / 8
    ensures Bits(OneOf(f), false) / 8 == Bits(f, false) / 8 <==> f.arraySize == 1
  {
    BitsFacts(f);
    ArrayBits(f);
  }

  /** Sizes that decide the offsets on one side. */
  function Side(l: Layout, padded: bool): seq<nat> {
    if padded then l.padded else l.packed
  }

  function Size(l: Layout, padded: bool): nat {
    Sum(Side(l, padded), |Side(l, padded)|)
  }

  lemma {:induction false} SumGrows(s: seq<nat>, i: nat, n: nat)
    requires i <= n <= |s|
    ensures Sum(s, i) <= Sum(s, n)
  {
    if i < n { SumGrows(s, i, n - 1); }
  }

  lemma RangeOf(s: seq<nat>, v: nat, f: nat, g: nat)
    requires f < g <= |s| && v <= s[f]
    ensures Sum(s, f) + v <= Sum(s, g) <= Sum(s, |s|)
  {
    SumGrows(s, f + 1, g);
    SumGrows(s, g, |s|);
  }

  /** Field ranges are inside the cell and come one after the other, in both layouts. */
  lemma FieldRange(l: Layout, padded: bool, f: nat, g: nat)
    requires LayoutOk(l) && f < g <= |l.packed|
    ensures Sum(Side(l, padded), f) + l.packed[f] <= Sum(Side(l, padded), g) <= Size(l, padded)
    ensures l.copied[f] <= l.packed[f]
  {
    RangeOf(Side(l, padded), l.packed[f], f, g);
  }

  /** One `memcpy`: from offset `p` of the source to offset `o` of the destination, `k` bytes. */
  datatype Move = Move(o: nat, p: nat, k: nat)

  ghost predicate MovesOk(moves: seq<Move>, dSize: nat, sSize: nat) {
    && (forall f :: 0 <= f < |moves| ==> moves[f].o + moves[f].k <= dSize && moves[f].p + moves[f].k <= sSize)
    && (forall f, g :: 0 <= f < g < |moves| ==> moves[f].o + moves[f].k <= moves[g].o)
  }

  /** The copies for the fields of a cell; `up` is from packed to padded. */
  ghost function Moves(l: Layout, up: bool): (r: seq<Move>)
    requires LayoutOk(l)
    ensures |r| == |l.packed|
  {
    seq(|l.packed|, f requires 0 <= f < |l.packed| => Move(Sum(Side(l, up), f), Sum(Side(l, !up), f), l.copied[f]))
  }

  lemma MovesAreOk(l: Layout, up: bool)
    requires LayoutOk(l)
    ensures MovesOk(Moves(l, up), Size(l, up), Size(l, !up))
  {
    var moves := Moves(l, up);
    forall f | 0 <= f < |moves| ensures moves[f].o + moves[f].k <= Size(l, up) &&
        moves[f].p + moves[f].k <= Size(l, !up) {
      FieldRange(l, up, f, f + 1);
      FieldRange(l, !up, f, f + 1);
    }
    forall f, g | 0 <= f < g < |moves| ensures moves[f].o + moves[f].k <= moves[g].o { FieldRange(l, up, f, g); }
  }

  ghost predicate Fits(moves: seq<Move>, at: nat, dLen: nat, from: nat, sLen: nat) {
    forall f :: 0 <= f < |moves| ==> at + moves[f].o + moves[f].k <= dLen && from + moves[f].p + moves[f].k <= sLen
  }

  /** The byte at `j` after the first `n` copies, from the cell at `from` of `s` to the one at `at` of `t`. */
  ghost function ByteAfter(t: seq<Byte>, at: nat, s: seq<Byte>, from: nat, moves: seq<Move>, n: nat, j: nat): Byte
    requires n <= |moves| && j < |t| && Fits(moves, at, |t|, from, |s|)
  {
    if n == 0 then t[j] else
      var m := moves[n - 1];
      if at + m.o <= j < at + m.o + m.k then s[from + m.p + (j - (at + m.o))]
          else ByteAfter(t, at, s, from, moves, n - 1, j)
  }

  /** A cell after all copies. */
  ghost function Moved(d: seq<Byte>, s: seq<Byte>, l: Layout, up: bool): (r: seq<Byte>)
    requires LayoutOk(l) && |d| == Size(l, up) && |s| == Size(l, !up)
    ensures |r| == |d|
  {
    MovesAreOk(l, up);
    seq(|d|, j requires 0 <= j < |d| => ByteAfter(d, 0, s, 0, Moves(l, up), |l.packed|, j))
  }

  /** What one copy moves arrives: the later ones write behind it. */
  lemma {:induction false} MoveArrives(d: seq<Byte>, s: seq<Byte>, moves: seq<Move>, n: nat, f: nat, x: nat)
    requires MovesOk(moves, |d|, |s|) && Fits(moves, 0, |d|, 0, |s|) && f < n <= |moves| && x < moves[f].k
    ensures ByteAfter(d, 0, s, 0, moves, n, moves[f].o + x) == s[moves[f].p + x]
  {
    if f < n - 1 { MoveArrives(d, s, moves, n - 1, f, x); }
  }

  /** Byte `x` of field `f` arrives. */
  lemma FieldMoved(d: seq<Byte>, s: seq<Byte>, l: Layout, up: bool, f: nat, x: nat)
    requires LayoutOk(l) && f < |l.packed| && x < l.copied[f] && |d| == Size(l, up) && |s| == Size(l, !up)
    ensures var m := Moves(l, up)[f]; m.o + x < |d| && m.p + x < |s| && Moved(d, s, l, up)[m.o + x] == s[m.p + x]
  {
    MovesAreOk(l, up);
    MoveArrives(d, s, Moves(l, up), |l.packed|, f, x);
  }

  /** Where a field goes in one direction it comes from in the other. */
  lemma MovesBack(l: Layout, f: nat)
    requires LayoutOk(l) && f < |l.packed|
    ensures var m := Moves(l, true)[f];
      && Moves(l, false)[f] == Move(m.p, m.o, m.k)
      && m.p == Sum(l.packed, f) && m.o == Sum(l.padded, f) && m.k == l.copied[f]
  {
  }

  /** Bytes that no copy covers, as between the fields, stay as they were. */
  lemma {:induction false} PaddingKept(d: seq<Byte>, s: seq<Byte>, moves: seq<Move>, n: nat, i: nat)
    requires Fits(moves, 0, |d|, 0, |s|) && n <= |moves| && i < |d|
    requires forall f :: 0 <= f < n ==> !(moves[f].o <= i < moves[f].o + moves[f].k)
    ensures ByteAfter(d, 0, s, 0, moves, n, i) == d[i]
  {
    if n > 0 { PaddingKept(d, s, moves, n - 1, i); }
  }

  /** The field that a packed byte belongs to: there are no gaps. */
  lemma {:induction false} FindField(s: seq<nat>, n: nat, i: nat) returns (f: nat)
    requires n <= |s| && i < Sum(s, n)
    ensures f < n && Sum(s, f) <= i < Sum(s, f) + s[f]
  {
    if i >= Sum(s, n - 1) { f := n - 1; } else { f := FindField(s, n - 1, i); }
  }

  /** Packing after unpacking gives the packed cell again, whatever was in the buffers, if it is copied whole. */
  lemma PackUnpacked(x: seq<Byte>, y: seq<Byte>, p: seq<Byte>, l: Layout)
    requires LayoutOk(l) && |x| == |p| == Size(l, false) && |y| == Size(l, true) && Whole(l)
    ensures Moved(x, Moved(y, p, l, true), l, false) == p
  {
    var u := Moved(y, p, l, true);
    forall i | 0 <= i < |p| ensures Moved(x, u, l, false)[i] == p[i] {
      var f := FindField(l.packed, |l.packed|, i);
      MovesBack(l, f);
      FieldMoved(y, p, l, true, f, i - Sum(l.packed, f));
      FieldMoved(x, u, l, false, f, i - Sum(l.packed, f));
    }
  }

  /** The first byte of a field that is not copied stays as it was in the packed cell. */
  lemma ByteLost(x: seq<Byte>, u: seq<Byte>, l: Layout, f: nat)
    requires LayoutOk(l) && |x| == Size(l, false) && |u| == Size(l, true) && f < |l.packed| && l.copied[f] < l.packed[f]
    ensures var i := Sum(l.packed, f) + l.copied[f]; i < |x| && Moved(x, u, l, false)[i] == x[i]
  {
    var i := Sum(l.packed, f) + l.copied[f];
    FieldRange(l, false, f, f + 1);
    MovesAreOk(l, false);
    var moves := Moves(l, false);
    forall g | 0 <= g < |moves| ensures !(moves[g].o <= i < moves[g].o + moves[g].k) {
      if g < f { FieldRange(l, false, g, f); } else if f < g { FieldRange(l, false, f, g); }
    }
    PaddingKept(x, u, moves, |moves|, i);
  }

  /** The round trip holds for all buffers exactly if every field is copied whole. */
  lemma RoundTripIff(l: Layout)
    requires LayoutOk(l)
    ensures RoundTrips(l) <==> Whole(l)
  {
    if Whole(l) {
      forall x: seq<Byte>, y: seq<Byte>, p: seq<Byte> | |x| == |p| == Size(l, false) && |y| == Size(l, true)
        ensures Moved(x, Moved(y, p, l, true), l, false) == p
      {
        PackUnpacked(x, y, p, l);
      }
    } else {
      var f :| 0 <= f < |l.packed| && l.copied[f] != l.packed[f];
      var x, p := seq(Size(l, false), i => 0 as Byte), seq(Size(l, false), i => 1 as Byte);
      var y := seq(Size(l, true), i => 0 as Byte);
      ByteLost(x, Moved(y, p, l, true), l, f);
      assert Moved(x, Moved(y, p, l, true), l, false) != p;
    }
  }

  ghost predicate RoundTrips(l: Layout)
    requires LayoutOk(l)
  {
    forall x: seq<Byte>, y: seq<Byte>, p: seq<Byte> :: |x| == |p| == Size(l, false) && |y| == Size(l, true) ==>
      Moved(x, Moved(y, p, l, true), l, false) == p
  }

  /** Unpacking after packing restores every byte that is copied. */
  lemma UnpackPacked(a: seq<Byte>, x: seq<Byte>, y: seq<Byte>, l: Layout, f: nat, i: nat)
    requires LayoutOk(l) && |a| == |y| == Size(l, true) && |x| == Size(l, false) && f < |l.packed| && i < l.copied[f]
    ensures Sum(l.padded, f) + i < |a| && Moved(y, Moved(x, a, l, false), l, true)[Sum(l.padded, f) + i] ==
        a[Sum(l.padded, f) + i]
  {
    MovesBack(l, f);
    FieldMoved(x, a, l, false, f, i);
    FieldMoved(y, Moved(x, a, l, false), l, true, f, i);
  }

  // ---------------------------------------------------------------------------------------------
  // All cells

  /** Cells of one layout. */
  ghost predicate CellsOk(cells: seq<seq<Byte>>, size: nat) {
    forall i :: 0 <= i < |cells| ==> |cells[i]| == size
  }

  /** Every cell copied by itself. */
  ghost function MovedCells(d: seq<seq<Byte>>, s: seq<seq<Byte>>, l: Layout, up: bool): (r: seq<seq<Byte>>)
    requires LayoutOk(l) && |d| == |s| && CellsOk(d, Size(l, up)) && CellsOk(s, Size(l, !up))
    ensures |r| == |d| && CellsOk(r, Size(l, up))
  {
    seq(|d|, i requires 0 <= i < |d| => Moved(d[i], s[i], l, up))
  }

  /** Unpacking then packing any number of cells gives the packed cells again. */
  lemma PackUnpackedCells(x: seq<seq<Byte>>, y: seq<seq<Byte>>, p: seq<seq<Byte>>, l: Layout)
    requires LayoutOk(l) && Whole(l) && |x| == |y| == |p|
    requires CellsOk(x, Size(l, false)) && CellsOk(p, Size(l, false)) && CellsOk(y, Size(l, true))
    ensures MovedCells(x, MovedCells(y, p, l, true), l, false) == p
  {
    forall i | 0 <= i < |p| ensures MovedCells(x, MovedCells(y, p, l, true), l, false)[i] == p[i] {
      PackUnpacked(x[i], y[i], p[i], l);
    }
  }

  /** Packing then unpacking restores every byte of every field of every cell. */
  lemma UnpackPackedCells(a: seq<seq<Byte>>, x: seq<seq<Byte>>, y: seq<seq<Byte>>, l: Layout, c: nat, f: nat, i: nat)
    requires LayoutOk(l) && |a| == |x| == |y| && CellsOk(x, Size(l, false)) && CellsOk(a, Size(l, true)) &&
        CellsOk(y, Size(l, true))
    requires c < |a| && f < |l.packed| && i < l.copied[f]
    ensures Sum(l.padded, f) + i < |a[c]|
    ensures MovedCells(y, MovedCells(x, a, l, false), l, true)[c][Sum(l.padded, f) + i] == a[c][Sum(l.padded, f) + i]
  {
    UnpackPacked(a[c], x[c], y[c], l, f, i);
  }

  // ---------------------------------------------------------------------------------------------
  // The copy in place

  /** The bytes of the first `n` cells, and of the rest. */
  ghost function Flat(cells: seq<seq<Byte>>, n: nat): seq<Byte>
    requires n <= |cells|
  {
    if n == 0 then [] else Flat(cells, n - 1) + cells[n - 1]
  }

  ghost function Rest(cells: seq<seq<Byte>>, n: nat): seq<Byte>
    requires n <= |cells|
    decreases |cells| - n
  {
    if n == |cells| then [] else cells[n] + Rest(cells, n + 1)
  }

  lemma {:induction false} Apart(cells: seq<seq<Byte>>, n: nat)
    requires n <= |cells|
    ensures Flat(cells, |cells|) == Flat(cells, n) + Rest(cells, n)
    decreases |cells| - n
  {
    if n < |cells| {
      Apart(cells, n + 1);
      assert Flat(cells, n) + cells[n] + Rest(cells, n + 1) == Flat(cells, n) + (cells[n] + Rest(cells, n + 1));
    }
  }

  lemma Middle(a: seq<Byte>, c: seq<Byte>, b: seq<Byte>)
    ensures Slice(a + (c + b), |a|, |c|) == c
  {
  }

  /** `memcpy`. */
  method Copy(dst: array<Byte>, at: nat, src: array<Byte>, from: nat, n: nat)
    requires dst != src && at + n <= dst.Length && from + n <= src.Length
    modifies dst
    ensures forall j :: 0 <= j < dst.Length ==> dst[j] == if at <= j < at + n then src[from + (j - at)] else old(dst[j])
  {
    var i := 0;
    while i < n
      invariant 0 <= i <= n
      invariant forall j :: 0 <= j < dst.Length ==>
          dst[j] == if at <= j < at + i then src[from + (j - at)] else old(dst[j])
    {
      dst[at + i] := src[from + i];
      i := i + 1;
    }
  }

  /** The copies change nothing but the cell, and that by itself. */
  lemma {:induction false} ByteInCell(t: seq<Byte>, at: nat, c: seq<Byte>, s: seq<Byte>, from: nat, cell: seq<Byte>,
      moves: seq<Move>, n: nat, j: nat)
    requires at + |c| <= |t| && c == Slice(t, at, |c|) && from + |cell| <= |s| && cell == Slice(s, from, |cell|)
    requires MovesOk(moves, |c|, |cell|) && Fits(moves, at, |t|, from, |s|) && Fits(moves, 0, |c|, 0, |cell|) &&
        n <= |moves| && j < |t|
    ensures ByteAfter(t, at, s, from, moves, n, j) ==
        if at <= j < at + |c| then ByteAfter(c, 0, cell, 0, moves, n, j - at) else t[j]
  {
    if n > 0 { ByteInCell(t, at, c, s, from, cell, moves, n - 1, j); }
  }

  /** The fields of one cell. */
  method CopyFields(dst: array<Byte>, at: nat, src: array<Byte>, from: nat, moves: seq<Move>)
    requires dst != src && Fits(moves, at, dst.Length, from, src.Length)
    modifies dst
    ensures forall j :: 0 <= j < dst.Length ==>
        dst[j] == ByteAfter(old(dst[..]), at, old(src[..]), from, moves, |moves|, j)
  {
    ghost var t, s := dst[..], src[..];
    var fI := 0;
    while fI < |moves|
      invariant 0 <= fI <= |moves|
      invariant forall j :: 0 <= j < dst.Length ==> dst[j] == ByteAfter(t, at, s, from, moves, fI, j)
    {
      var m := moves[fI];
      Copy(dst, at + m.o, src, from + m.p, m.k);
      fI := fI + 1;
    }
  }

  /** `t'` is what the copies make of `t`. */
  ghost predicate AfterMoves(t: seq<Byte>, at: nat, s: seq<Byte>, from: nat, moves: seq<Move>, t': seq<Byte>) {
    && Fits(moves, at, |t|, from, |s|) && |t'| == |t|
    && forall j :: 0 <= j < |t| ==> t'[j] == ByteAfter(t, at, s, from, moves, |moves|, j)
  }

  /** `t'` is `t` with `c` at `at`. */
  ghost predicate Replaced(t: seq<Byte>, at: nat, c: seq<Byte>, t': seq<Byte>) {
    |t'| == |t| && forall j :: 0 <= j < |t| ==> t'[j] == if at <= j < at + |c| then c[j - at] else t[j]
  }

  ghost predicate SliceAt(t: seq<Byte>, at: nat, c: seq<Byte>) {
    at + |c| <= |t| && c == Slice(t, at, |c|)
  }

  /** A buffer whose bytes are those after the copies has the cell after the copies in its place. */
  lemma BytesDone(t: seq<Byte>, at: nat, c: seq<Byte>, s: seq<Byte>, from: nat, cell: seq<Byte>, moves: seq<Move>,
      t': seq<Byte>, c': seq<Byte>)
    requires SliceAt(t, at, c) && SliceAt(s, from, cell) && MovesOk(moves, |c|, |cell|)
    requires AfterMoves(t, at, s, from, moves, t') && AfterMoves(c, 0, cell, 0, moves, c')
    ensures Replaced(t, at, c', t')
  {
    forall j | 0 <= j < |t| ensures t'[j] == if at <= j < at + |c| then c'[j - at] else t[j] {
      ByteInCell(t, at, c, s, from, cell, moves, |moves|, j);
    }
  }

  lemma CellWithin(a: seq<Byte>, cells: seq<seq<Byte>>, i: nat, t: seq<Byte>)
    requires i < |cells| && t == a + Rest(cells, i)
    ensures SliceAt(t, |a|, cells[i])
  {
    Middle(a, cells[i], Rest(cells, i + 1));
  }

  /** The cell at position `i` is copied. */
  lemma CellDone(d: seq<seq<Byte>>, s: seq<seq<Byte>>, l: Layout, up: bool, i: nat, t: seq<Byte>, u: seq<Byte>,
      at: nat, from: nat, t': seq<Byte>)
    requires CellReady(d, s, l, up, i, t, u, at, from) && AfterMoves(t, at, u, from, Moves(l, up), t')
    ensures t' == Flat(MovedCells(d, s, l, up), i + 1) + Rest(d, i + 1)
  {
    var m := MovedCells(d, s, l, up);
    CellSlices(d, s, l, up, i, t, u, at, from);
    CellMoved(d, s, l, up, i, m[i]);
    BytesDone(t, at, d[i], u, from, s[i], Moves(l, up), t', m[i]);
    FlatNext(m, d, i, t, t');
  }

  lemma CellSlices(d: seq<seq<Byte>>, s: seq<seq<Byte>>, l: Layout, up: bool, i: nat, t: seq<Byte>, u: seq<Byte>,
      at: nat, from: nat)
    requires CellReady(d, s, l, up, i, t, u, at, from)
    ensures SliceAt(t, at, d[i]) && SliceAt(u, from, s[i])
  {
    CellWithin(Flat(MovedCells(d, s, l, up), i), d, i, t);
    CellWithin(Flat(s, i), s, i, u);
  }

  lemma CellMoved(d: seq<seq<Byte>>, s: seq<seq<Byte>>, l: Layout, up: bool, i: nat, c: seq<Byte>)
    requires LayoutOk(l) && |d| == |s| && CellsOk(d, Size(l, up)) && CellsOk(s, Size(l, !up)) && i < |d|
    requires c == MovedCells(d, s, l, up)[i]
    ensures MovesOk(Moves(l, up), |d[i]|, |s[i]|) && AfterMoves(d[i], 0, s[i], 0, Moves(l, up), c)
  {
    MovesAreOk(l, up);
  }

  /** A buffer that differs from `a + (c + b)` at most in the place of `c`. */
  lemma Assemble(a: seq<Byte>, c: seq<Byte>, b: seq<Byte>, c': seq<Byte>, t: seq<Byte>, t': seq<Byte>)
    requires t == a + (c + b) && |c'| == |c| && Replaced(t, |a|, c', t')
    ensures t' == a + c' + b
  {
    forall j | 0 <= j < |t| ensures t'[j] == (a + c' + b)[j] {
      assert t[j] == if j < |a| then a[j] else if j < |a| + |c| then c[j - |a|] else b[j - |a| - |c|];
    }
  }

  /** Changing the cell in its place moves the border between the two parts behind it. */
  lemma FlatNext(m: seq<seq<Byte>>, d: seq<seq<Byte>>, i: nat, t: seq<Byte>, t': seq<Byte>)
    requires i < |m| == |d| && |m[i]| == |d[i]| && t == Flat(m, i) + Rest(d, i)
    requires Replaced(t, |Flat(m, i)|, m[i], t')
    ensures t' == Flat(m, i + 1) + Rest(d, i + 1)
  {
    var a, b := Flat(m, i), Rest(d, i + 1);
    assert Rest(d, i) == d[i] + b && Flat(m, i + 1) == a + m[i];
    Assemble(a, d[i], b, m[i], t, t');
  }

  /** The first `i` cells are copied, and `at` and `from` are where cell `i` is. */
  ghost predicate CellReady(d: seq<seq<Byte>>, s: seq<seq<Byte>>, l: Layout, up: bool, i: nat, t: seq<Byte>,
      u: seq<Byte>, at: nat, from: nat) {
    && LayoutOk(l) && |d| == |s| && CellsOk(d, Size(l, up)) && CellsOk(s, Size(l, !up)) && i < |d|
    && t == Flat(MovedCells(d, s, l, up), i) + Rest(d, i) && at == |Flat(MovedCells(d, s, l, up), i)|
    && u == Flat(s, i) + Rest(s, i) && from == |Flat(s, i)|
  }

  lemma CellFits(d: seq<seq<Byte>>, s: seq<seq<Byte>>, l: Layout, up: bool, i: nat, t: seq<Byte>, u: seq<Byte>,
      at: nat, from: nat)
    requires CellReady(d, s, l, up, i, t, u, at, from)
    ensures Fits(Moves(l, up), at, |t|, from, |u|)
    ensures |Flat(MovedCells(d, s, l, up), i + 1)| == at + Size(l, up) && |Flat(s, i + 1)| == from + Size(l, !up)
  {
    MovesAreOk(l, up);
    assert |d[i]| == Size(l, up) && |s[i]| == Size(l, !up) && |MovedCells(d, s, l, up)[i]| == Size(l, up);
    assert |t| >= at + Size(l, up) && |u| >= from + Size(l, !up);
  }

  /** The cached offsets of `writePackedData`. */
  method CacheOffsets(l: Layout, up: bool) returns (moves: seq<Move>)
    requires LayoutOk(l)
    ensures moves == Moves(l, up)
  {
    var padded, packed, bits, bitsUnpadded := ComputeOffsets(l.padded, l.packed);
    moves := [];
    while |moves| < |l.packed|
      invariant |moves| <= |l.packed| && moves == Moves(l, up)[..|moves|]
    {
      var i := |moves|;
      assert IsSum(padded[i], l.padded, i) && IsSum(packed[i], l.packed, i);
      moves := moves + [if up then Move(padded[i], packed[i], l.copied[i])
                        else Move(packed[i], padded[i], l.copied[i])];
    }
  }

  /** One turn of the loop of `writePackedData`. */
  method WriteCell(l: Layout, dst: array<Byte>, src: array<Byte>, up: bool, ghost i: nat, at: nat, from: nat,
      moves: seq<Move>, ghost d: seq<seq<Byte>>, ghost s: seq<seq<Byte>>)
    requires dst != src && CellReady(d, s, l, up, i, dst[..], src[..], at, from) && moves == Moves(l, up)
    modifies dst
    ensures dst[..] == Flat(MovedCells(d, s, l, up), i + 1) + Rest(d, i + 1)
    ensures |Flat(MovedCells(d, s, l, up), i + 1)| == at + Size(l, up) && |Flat(s, i + 1)| == from + Size(l, !up)
  {
    ghost var t, u := dst[..], src[..];
    CellFits(d, s, l, up, i, t, u, at, from);
    CopyFields(dst, at, src, from, moves);
    CellDone(d, s, l, up, i, t, u, at, from, dst[..]);
  }

  /** `writePackedData`; `up` is `dstPadded`. */
  method WritePackedData(l: Layout, dst: array<Byte>, src: array<Byte>, up: bool, numItems: nat,
      ghost d: seq<seq<Byte>>, ghost s: seq<seq<Byte>>)
    requires dst != src && LayoutOk(l) && |d| == |s| == numItems && CellsOk(d, Size(l, up)) && CellsOk(s, Size(l, !up))
    requires dst[..] == Flat(d, |d|) && src[..] == Flat(s, |s|)
    modifies dst
    ensures dst[..] == Flat(MovedCells(d, s, l, up), |d|)
  {
    var moves := CacheOffsets(l, up);
    var dstInc, srcInc := Size(l, up), Size(l, !up);
    ghost var m := MovedCells(d, s, l, up);
    Apart(d, 0);
    assert dst[..] == Flat(m, 0) + Rest(d, 0);
    var i, at, from := 0, 0, 0;
    while i < numItems
      invariant 0 <= i <= numItems && at == |Flat(m, i)| && from == |Flat(s, i)|
      invariant src[..] == Flat(s, |s|) && dst[..] == Flat(m, i) + Rest(d, i)
    {
      Apart(s, i);
      WriteCell(l, dst, src, up, i, at, from, moves, d, s);
      at, from := at + dstInc, from + srcInc;
      i := i + 1;
    }
    assert Rest(d, numItems) == [];
  }

  /** Unpacking into a buffer and packing from it gives the bytes again, whatever was in the buffers. */
  method UnpackThenPack(l: Layout, src: array<Byte>, mid: array<Byte>, dst: array<Byte>, numItems: nat,
                        ghost p: seq<seq<Byte>>, ghost y: seq<seq<Byte>>, ghost x: seq<seq<Byte>>)
    requires src != mid && mid != dst && src != dst && LayoutOk(l) && Whole(l) && |p| == |y| == |x| == numItems
    requires CellsOk(p, Size(l, false)) && CellsOk(x, Size(l, false)) && CellsOk(y, Size(l, true))
    requires src[..] == Flat(p, |p|) && mid[..] == Flat(y, |y|) && dst[..] == Flat(x, |x|)
    modifies mid, dst
    ensures dst[..] == src[..] && src[..] == old(src[..])
  {
    WritePackedData(l, mid, src, true, numItems, y, p);
    WritePackedData(l, dst, mid, false, numItems, x, MovedCells(y, p, l, true));
    PackUnpackedCells(x, y, p, l);
  }
}
