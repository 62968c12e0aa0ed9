/** The binary streams of the A3D format: a writer whose buffer doubles when it is nearly full, and a
    reader.  Bytes skipped for alignment keep whatever the buffer held. */
module Streams {

  import opened Bytes

  /** What can be written: integers and floats by their bits, raw bytes and strings. */
  datatype Kind = U8 | U16 | U32 | Offset | Raw(n: nat) | Str

  datatype Item = Num(kind: Kind, v: nat) | RawItem(bytes: seq<Byte>) | StrItem(bytes: seq<Byte>)

  function KindOf(i: Item): Kind {
    match i case Num(k, _) => k case RawItem(b) => Raw(|b|) case StrItem(_) => Str
  }

  /** Size and alignment of a number; offsets have 8 bytes in 64-bit streams. */
  function Width(k: Kind, use64: bool): (w: nat)
    ensures w in {1, 2, 4, 8}
  {
    match k case U8 => 1 case U16 => 2 case Offset => if use64 then 8 else 4 case _ => 4
  }

  ghost predicate ItemOk(i: Item, use64: bool) {
    match i
    case Num(k, v) => !k.Raw? && !k.Str? && v < Pow256(Width(k, use64))
    case RawItem(_) => true
    case StrItem(b) => |b| < Pow256(4)
  }

  /** The numbers of each kind are those of its bits. */
  lemma Ranges(v: nat, use64: bool)
    ensures ItemOk(Num(U8, v), use64) <==> v < 0x100
    ensures ItemOk(Num(U16, v), use64) <==> v < 0x1_0000
    ensures ItemOk(Num(U32, v), use64) <==> v < 0x1_0000_0000
    ensures ItemOk(Num(Offset, v), use64) <==> v < if use64 then 0x1_0000_0000_0000_0000 else 0x1_0000_0000
  {
    assert Pow256(1) == 0x100 && Pow256(2) == 0x1_0000 && Pow256(3) == 0x100_0000 && Pow256(4) == 0x1_0000_0000;
    assert Pow256(6) == 0x1_0000_0000_0000 && Pow256(8) == 0x1_0000_0000_0000_0000;
  }

  // ---------------------------------------------------------------------------------------------
  // Reading

  /** A value and the position behind it, or not enough data. */
  datatype Got<T> = Got(value: T, next: nat) | Short

  function ReadNum(data: seq<Byte>, pos: nat, w: nat): Got<nat> {
    var p := AlignUp(pos, w);
    if p + w <= |data| then Got(FromLE(Slice(data, p, w)), p + w) else Short
  }

  function ReadBytes(data: seq<Byte>, pos: nat, n: nat): Got<seq<Byte>> {
    if pos + n <= |data| then Got(Slice(data, pos, n), pos + n) else Short
  }

  function ReadStr(data: seq<Byte>, pos: nat): Got<seq<Byte>> {
    match ReadNum(data, pos, 4)
    case Short => Short
    case Got(len, p) => ReadBytes(data, p, len)
  }

  function ReadItem(data: seq<Byte>, pos: nat, k: Kind, use64: bool): Got<Item> {
    match k
    case Raw(n) => (match ReadBytes(data, pos, n) case Short => Short case Got(b, p) => Got(RawItem(b), p))
    case Str => (match ReadStr(data, pos) case Short => Short case Got(b, p) => Got(StrItem(b), p))
    case _ => (match ReadNum(data, pos, Width(k, use64)) case Short => Short case Got(v, p) => Got(Num(k, v), p))
  }

  function Kinds(items: seq<Item>): seq<Kind> {
    seq(|items|, i requires 0 <= i < |items| => KindOf(items[i]))
  }

  /** Reading the first `n` kinds, one after the other. */
  function Replay(data: seq<Byte>, use64: bool, kinds: seq<Kind>, n: nat, from: nat): Got<seq<Item>>
    requires n <= |kinds|
  {
    if n == 0 then Got([], from) else
      match Replay(data, use64, kinds, n - 1, from)
      case Short => Short
      case Got(items, p) =>
        match ReadItem(data, p, kinds[n - 1], use64)
        case Short => Short
        case Got(i, q) => Got(items + [i], q)
  }

  lemma SlicePrefix(a: seq<Byte>, b: seq<Byte>, pos: nat, n: nat)
    requires a <= b && pos + n <= |a|
    ensures Slice(b, pos, n) == Slice(a, pos, n)
  {
  }

  /** What has been read does not depend on what comes later. */
  lemma ReadItemPrefix(a: seq<Byte>, b: seq<Byte>, pos: nat, k: Kind, use64: bool)
    requires a <= b && ReadItem(a, pos, k, use64).Got?
    ensures ReadItem(b, pos, k, use64) == ReadItem(a, pos, k, use64)
  {
    match k
    case Raw(n) => SlicePrefix(a, b, pos, n);
    case Str =>
      SlicePrefix(a, b, AlignUp(pos, 4), 4);
      var r := ReadNum(a, pos, 4);
      SlicePrefix(a, b, r.next, r.value);
    case _ => SlicePrefix(a, b, AlignUp(pos, Width(k, use64)), Width(k, use64));
  }

  // ---------------------------------------------------------------------------------------------
  // Writing

  class OStream {
    var data: array<Byte>
    var pos: nat
    const use64: bool

    /** The buffer is long enough for one doubling to make room for any number. */
    ghost predicate Valid()
      reads this
    {
      data.Length >= 16 && pos <= data.Length
    }

    /** What has been written. */
    ghost function Written(): seq<Byte>
      requires Valid()
      reads this, data
    {
      data[..pos]
    }

    constructor (length: nat, use64: bool)
      requires length >= 16
      ensures Valid() && fresh(data) && this.use64 == use64 && pos == 0 && data.Length == length
    {
      data := new Byte[length];
      pos := 0;
      this.use64 := use64;
    }

    /** `growSize`. */
    method GrowSize()
      modifies this`data
      ensures fresh(data) && data.Length == 2 * old(data.Length) && data[..old(data.Length)] == old(data[..])
    {
      var n := data.Length;
      var grown := new Byte[2 * n];
      var i := 0;
      while i < n
        invariant 0 <= i <= n && grown[..i] == data[..i]
        modifies grown
      {
        grown[i] := data[i];
        i := i + 1;
      }
      data := grown;
    }

    /** Stores bytes at `pos` and moves on. */
    method Put(b: seq<Byte>)
      requires pos + |b| <= data.Length
      modifies this`pos, data
      ensures pos == old(pos) + |b| && data[..] == Splice(old(data[..]), old(pos), b)
    {
      var i := 0;
      var at := pos;
      while i < |b|
        invariant 0 <= i <= |b| && pos == at + i
        invariant data[..] == Splice(old(data[..]), at, b[..i])
      {
        data[pos] := b[i];
        pos := pos + 1;
        i := i + 1;
      }
      assert b[..i] == b;
    }

    /** Aligns the position and makes room for `n` bytes, as far as one doubling does. */
    method Seat(w: nat, n: nat)
      requires Valid() && w in {1, 2, 4, 8}
      modifies this`data, this`pos
      ensures pos == AlignUp(old(pos), w) && old(pos) <= pos && (data == old(data) || fresh(data))
      ensures data.Length == if pos + n >= old(data.Length) then 2 * old(data.Length) else old(data.Length)
      ensures pos + n <= old(data.Length) + 16 ==> pos + n <= data.Length
      ensures old(pos) <= data.Length && data[..old(pos)] == old(data[..pos])
    {
      ghost var was := data[..pos];
      AlignUpAbove(pos, w);
      pos := AlignUp(pos, w);
      if pos + n >= data.Length {
        GrowSize();
        assert data[..|was|] == data[..old(data.Length)][..|was|];
      }
    }

    /** `addU8`, `addU16`, `addU32`, `addI32`, `addF` and `addOffset`, by size. */
    method AddNum(v: nat, w: nat)
      requires Valid() && w in {1, 2, 4, 8} && v < Pow256(w)
      modifies this`data, this`pos, data
      ensures Valid() && (data == old(data) || fresh(data)) && old(Written()) <= Written()
      ensures pos == AlignUp(old(pos), w) + w && ReadNum(Written(), old(pos), w) == Got(v, pos)
      ensures data.Length == if pos >= old(data.Length) then 2 * old(data.Length) else old(data.Length)
    {
      ghost var from := pos;
      AlignUpWithin(pos, w);
      Seat(w, w);
      ghost var t := data[..];
      NumWritten(t, from, w, v);
      Put(LE(v, w));
      assert data[..pos] == Splice(t, AlignUp(from, w), LE(v, w))[..pos];
    }

    /** `align`. */
    method Align(a: nat)
      requires Valid() && a in {1, 2, 4, 8}
      modifies this`data, this`pos
      ensures Valid() && (data == old(data) || fresh(data)) && pos == AlignUp(old(pos), a) &&
          old(Written()) <= Written()
    {
      AlignUpWithin(pos, a);
      Seat(a, 0);
      assert data[..old(pos)] == data[..pos][..old(pos)];
    }

    /** `addByteArray`: doubles as often as it takes. */
    method AddByteArray(b: seq<Byte>)
      requires Valid()
      modifies this`data, this`pos, data
      ensures Valid() && (data == old(data) || fresh(data)) && data.Length >= old(data.Length) &&
          old(Written()) <= Written()
      ensures ReadBytes(Written(), old(pos), |b|) == Got(b, pos)
    {
      ghost var was := data[..pos];
      while pos + |b| >= data.Length
        invariant Valid() && pos == old(pos) && (data == old(data) || fresh(data)) && data.Length >= old(data.Length)
        invariant data[..pos] == was
        decreases pos + |b| - data.Length
      {
        GrowSize();
        assert data[..pos] == data[..|was|];
      }
      Append(b);
    }

    /** `addString`: doubles at most once, which is enough exactly if the string ends within twice the
        buffer; otherwise the original writes behind its buffer, and the result is false. */
    method AddString(b: seq<Byte>) returns (ok: bool)
      requires Valid() && |b| < Pow256(4)
      modifies this`data, this`pos, data
      ensures Valid() && (data == old(data) || fresh(data)) && data.Length >= old(data.Length) &&
          old(Written()) <= Written()
      ensures ok <==> StringFits(old(data.Length), old(pos), |b|)
      ensures ok ==> ReadStr(Written(), old(pos)) == Got(b, pos)
    {
      ghost var from := pos;
      AddNum(|b|, 4);
      ghost var mid := Written();
      GrowOnce(|b|);
      if pos + |b| > data.Length {
        return false;
      }
      Append(b);
      StrWritten(mid, Written(), from, b);
      ok := true;
    }

    /** Doubles the buffer if `n` more bytes do not fit. */
    method GrowOnce(n: nat)
      requires Valid()
      modifies this`data
      ensures Valid() && (data == old(data) || fresh(data)) && Written() == old(Written())
      ensures data.Length == if pos + n >= old(data.Length) then 2 * old(data.Length) else old(data.Length)
    {
      ghost var was := data[..pos];
      if pos + n >= data.Length {
        GrowSize();
        assert data[..|was|] == data[..old(data.Length)][..|was|];
      }
    }

    method Append(b: seq<Byte>)
      requires Valid() && pos + |b| <= data.Length
      modifies this`pos, data
      ensures Valid() && old(Written()) <= Written() && ReadBytes(Written(), old(pos), |b|) == Got(b, pos)
    {
      BytesWritten(data[..], pos, b);
      Put(b);
    }

    /** Any item; false means a string that the buffer cannot take. */
    method Add(i: Item) returns (ok: bool)
      requires Valid() && ItemOk(i, use64)
      modifies this`data, this`pos, data
      ensures Valid() && (data == old(data) || fresh(data)) && data.Length >= old(data.Length) &&
          old(Written()) <= Written()
      ensures ok <==> (i.StrItem? ==> StringFits(old(data.Length), old(pos), |i.bytes|))
      ensures ok ==> ReadItem(Written(), old(pos), KindOf(i), use64) == Got(i, pos)
    {
      ok := true;
      match i
      case Num(k, v) => AddNum(v, Width(k, use64));
      case RawItem(b) => AddByteArray(b);
      case StrItem(b) => ok := AddString(b);
    }

    /** A list of items; `ends` are the positions between them.  Strings no longer than the buffer
        always fit. */
    method AddAll(items: seq<Item>) returns (ok: bool, ghost ends: seq<nat>)
      requires Valid() && forall i :: 0 <= i < |items| ==> ItemOk(items[i], use64)
      modifies this`data, this`pos, data
      ensures Valid() && (data == old(data) || fresh(data)) && data.Length >= old(data.Length) &&
          old(Written()) <= Written()
      ensures ok ==> Log(Written(), use64, items, |items|, ends) && ends[0] == old(pos) && ends[|items|] == pos
      ensures (forall i :: 0 <= i < |items| && items[i].StrItem? ==> |items[i].bytes| <= old(data.Length)) ==> ok
    {
      ends := [pos];
      var n := 0;
      while n < |items|
        invariant 0 <= n <= |items| && Valid() && (data == old(data) || fresh(data)) && data.Length >= old(data.Length)
        invariant old(Written()) <= Written()
        invariant |ends| == n + 1 && ends[0] == old(pos) && ends[n] == pos && Log(Written(), use64, items, n, ends)
      {
        ghost var was := Written();
        if items[n].StrItem? && |items[n].bytes| <= data.Length { ShortStringFits(data.Length, pos, |items[n].bytes|); }
        ok := Add(items[n]);
        if !ok { return; }
        LogStep(was, Written(), use64, items, n, ends, pos);
        ends := ends + [pos];
        n := n + 1;
      }
      ok := true;
    }
  }

  /** Reading at `p` gives the item and ends at `q`. */
  predicate ReadsAt(data: seq<Byte>, use64: bool, i: Item, p: nat, q: nat) {
    ReadItem(data, p, KindOf(i), use64) == Got(i, q)
  }

  /** The first `n` items are in the data, from one of the positions to the next. */
  predicate Log(data: seq<Byte>, use64: bool, items: seq<Item>, n: nat, ends: seq<nat>) {
    n <= |items| && n < |ends| && forall i :: 0 <= i < n ==> ReadsAt(data, use64, items[i], ends[i], ends[i + 1])
  }

  lemma LogStep(was: seq<Byte>, now: seq<Byte>, use64: bool, items: seq<Item>, n: nat, ends: seq<nat>, end: nat)
    requires was <= now && n < |items| && |ends| == n + 1 && Log(was, use64, items, n, ends) &&
        ReadsAt(now, use64, items[n], ends[n], end)
    ensures Log(now, use64, items, n + 1, ends + [end])
  {
    forall i | 0 <= i < n ensures ReadsAt(now, use64, items[i], ends[i], ends[i + 1]) {
      assert ReadsAt(was, use64, items[i], ends[i], ends[i + 1]);
      ReadItemPrefix(was, now, ends[i], KindOf(items[i]), use64);
    }
  }

  /** Item `n` of a log is read back from its position. */
  lemma NumAt(data: seq<Byte>, items: seq<Item>, ends: seq<nat>, n: nat, k: Kind, v: nat)
    requires Log(data, false, items, |items|, ends) && n < |items| && items[n] == Num(k, v) && !k.Raw? && !k.Str?
    ensures ReadNum(data, ends[n], Width(k, false)) == Got(v, ends[n + 1])
  {
    assert ReadsAt(data, false, items[n], ends[n], ends[n + 1]);
  }

  lemma StrAt(data: seq<Byte>, items: seq<Item>, ends: seq<nat>, n: nat, b: seq<Byte>)
    requires Log(data, false, items, |items|, ends) && n < |items| && items[n] == StrItem(b)
    ensures ReadStr(data, ends[n]) == Got(b, ends[n + 1])
  {
    assert ReadsAt(data, false, items[n], ends[n], ends[n + 1]);
  }

  /** Reading the same kinds back gives the items, and after each of them the reader is where the
      writer was. */
  lemma {:induction false} ReplayLog(data: seq<Byte>, use64: bool, items: seq<Item>, n: nat, ends: seq<nat>)
    requires Log(data, use64, items, n, ends)
    ensures Replay(data, use64, Kinds(items), n, ends[0]) == Got(items[..n], ends[n])
  {
    if n > 0 {
      ReplayLog(data, use64, items, n - 1, ends);
      assert ReadsAt(data, use64, items[n - 1], ends[n - 1], ends[n - 1 + 1]);
      assert items[..n] == items[..n - 1] + [items[n - 1]];
    }
  }

  /** The buffer length after a 4-byte number at `pos`. */
  function LengthAfter(length: nat, pos: nat): nat {
    if AlignUp(pos, 4) + 4 >= length then 2 * length else length
  }

  /** A string of `n` bytes ends within twice the buffer that holds its length. */
  predicate StringFits(length: nat, pos: nat, n: nat) {
    AlignUp(pos, 4) + 4 + n <= 2 * LengthAfter(length, pos)
  }

  lemma ShortStringFits(length: nat, pos: nat, n: nat)
    requires length >= 16 && pos <= length && n <= length
    ensures StringFits(length, pos, n)
  {
    AlignUpWithin(pos, 4);
  }

  /** A longer one need not fit: 29 bytes in a new buffer of 16. */
  lemma LongStringOverruns()
    ensures !StringFits(16, 0, 29) && StringFits(16, 0, 28)
  {
    assert AlignUp(0, 4) == 0;
  }

  lemma BytesWritten(t: seq<Byte>, from: nat, b: seq<Byte>)
    requires from + |b| <= |t|
    ensures ReadBytes(Splice(t, from, b)[..from + |b|], from, |b|) == Got(b, from + |b|)
    ensures t[..from] <= Splice(t, from, b)[..from + |b|]
  {
    SpliceReads(t, from, b);
    assert Slice(Splice(t, from, b)[..from + |b|], from, |b|) == b;
  }

  lemma StrWritten(mid: seq<Byte>, data: seq<Byte>, from: nat, b: seq<Byte>)
    requires mid <= data && ReadNum(mid, from, 4) == Got(|b|, |mid|) && ReadBytes(data, |mid|, |b|) == Got(b, |data|)
    ensures ReadStr(data, from) == Got(b, |data|)
  {
    SlicePrefix(mid, data, AlignUp(from, 4), 4);
  }

  lemma NumWritten(t: seq<Byte>, from: nat, w: nat, v: nat)
    requires from <= AlignUp(from, w) && AlignUp(from, w) + w <= |t| && v < Pow256(w)
    ensures var end := AlignUp(from, w) + w; var t' := Splice(t, AlignUp(from, w), LE(v, w));
      ReadNum(t'[..end], from, w) == Got(v, end) && t[..from] <= t'[..end]
  {
    var at := AlignUp(from, w);
    var t' := Splice(t, at, LE(v, w));
    RoundTrip(v, w);
    SpliceReads(t, at, LE(v, w));
    assert Slice(t'[..at + w], at, w) == LE(v, w);
  }

  // ---------------------------------------------------------------------------------------------
  // The reader

  class IStream {
    const data: seq<Byte>
    const use64: bool
    var pos: nat

    constructor (data: seq<Byte>, use64: bool)
      ensures this.data == data && this.use64 == use64 && pos == 0
    {
      this.data, this.use64 := data, use64;
      pos := 0;
    }

    /** `loadU8`, `loadU16`, `loadU32`, `loadI32`, `loadF` and `loadOffset`, by size.  Where the data
        ends too soon the original reads behind it. */
    method LoadNum(w: nat) returns (r: Got<nat>)
      modifies this`pos
      ensures r == ReadNum(data, old(pos), w) && (r.Got? ==> pos == r.next) && pos >= old(pos)
    {
      AlignUpAbove(pos, w);
      pos := AlignUp(pos, w);
      if pos + w > |data| { return Short; }
      var v := FromLE(Slice(data, pos, w));
      pos := pos + w;
      return Got(v, pos);
    }

    /** `loadString`. */
    method LoadString() returns (r: Got<seq<Byte>>)
      modifies this`pos
      ensures r == ReadStr(data, old(pos)) && (r.Got? ==> pos == r.next) && pos >= old(pos)
    {
      var len := LoadNum(4);
      if len.Short? || pos + len.value > |data| { return Short; }
      var s := Slice(data, pos, len.value);
      pos := pos + len.value;
      return Got(s, pos);
    }
  }
}
