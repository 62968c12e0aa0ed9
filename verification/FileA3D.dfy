/** A3D files: objects appended to a stream with an index of where they are, the file image, and
    loading the index back. */
module FileA3D {

  import opened Bytes
  import opened Common
  import opened Streams

  /** `A3DIndexEntry`. */
  datatype IndexEntry = IndexEntry(name: seq<Byte>, classId: nat, offset: nat, length: nat)

  /** An object, as what it writes when it is serialized. */
  datatype Obj = Obj(name: seq<Byte>, classId: nat, items: seq<Item>)

  /** "Android3D_ff". */
  const MAGIC: seq<Byte> := [0x41, 0x6e, 0x64, 0x72, 0x6f, 0x69, 0x64, 0x33, 0x44, 0x5f, 0x66, 0x66]

  /** The size of the size fields of a file. */
  const SIZE := 8

  // ---------------------------------------------------------------------------------------------
  // The layout of the data

  ghost predicate EntryIn(e: IndexEntry, pos: nat) {
    e.offset % 4 == 0 && e.offset + e.length <= pos
  }

  /** Entries are aligned, in order, disjoint and inside the data. */
  ghost predicate LayoutOk(index: seq<IndexEntry>, pos: nat) {
    && pos % 4 == 0
    && (forall i :: 0 <= i < |index| ==> EntryIn(index[i], pos))
    && (forall i, j :: 0 <= i < j < |index| ==> index[i].offset + index[i].length <= index[j].offset)
  }

  /** The object is in the data, from its offset on and over its length. */
  ghost predicate Stored(data: seq<Byte>, e: IndexEntry, o: Obj, ends: seq<nat>) {
    && e.name == o.name && e.classId == o.classId
    && Log(data, false, o.items, |o.items|, ends) && ends[0] == e.offset && ends[|o.items|] == e.offset + e.length
  }

  ghost predicate AllStored(data: seq<Byte>, index: seq<IndexEntry>, objects: seq<Obj>, logs: seq<seq<nat>>) {
    |objects| == |index| == |logs| && forall i :: 0 <= i < |index| ==> Stored(data, index[i], objects[i], logs[i])
  }

  lemma LogPrefix(a: seq<Byte>, b: seq<Byte>, items: seq<Item>, ends: seq<nat>)
    requires a <= b && Log(a, false, items, |items|, ends)
    ensures Log(b, false, items, |items|, ends)
  {
    forall i | 0 <= i < |items| ensures ReadsAt(b, false, items[i], ends[i], ends[i + 1]) {
      assert ReadsAt(a, false, items[i], ends[i], ends[i + 1]);
      ReadItemPrefix(a, b, ends[i], KindOf(items[i]), false);
    }
  }

  /** A further object, behind those there are. */
  lemma StoreOne(was: seq<Byte>, now: seq<Byte>, index: seq<IndexEntry>, objects: seq<Obj>, logs: seq<seq<nat>>,
      e: IndexEntry, o: Obj, ends: seq<nat>)
    requires AllStored(was, index, objects, logs) && was <= now && Stored(now, e, o, ends)
    ensures AllStored(now, index + [e], objects + [o], logs + [ends])
  {
    forall i | 0 <= i < |index| ensures Stored(now, index[i], objects[i], logs[i]) {
      assert Stored(was, index[i], objects[i], logs[i]);
      LogPrefix(was, now, objects[i].items, logs[i]);
    }
  }

  lemma StoredPrefix(was: seq<Byte>, now: seq<Byte>, e: IndexEntry, o: Obj, ends: seq<nat>)
    requires was <= now && Stored(was, e, o, ends)
    ensures Stored(now, e, o, ends)
  {
    LogPrefix(was, now, o.items, ends);
  }

  /** No string of the object is longer than `n`. */
  ghost predicate ShortStrings(o: Obj, n: nat) {
    forall i :: 0 <= i < |o.items| && o.items[i].StrItem? ==> |o.items[i].bytes| <= n
  }

  /** From its offset the object reads back, and ends where its length says. */
  ghost predicate ReadsBack(data: seq<Byte>, e: IndexEntry, o: Obj) {
    && e.name == o.name && e.classId == o.classId
    && Replay(data, false, Kinds(o.items), |o.items|, e.offset) == Got(o.items, e.offset + e.length)
  }

  lemma ObjectBack(data: seq<Byte>, e: IndexEntry, o: Obj, ends: seq<nat>)
    requires Stored(data, e, o, ends)
    ensures ReadsBack(data, e, o)
  {
    ReplayLog(data, false, o.items, |o.items|, ends);
    assert o.items[..|o.items|] == o.items;
  }

  lemma LayoutOne(index: seq<IndexEntry>, from: nat, e: IndexEntry, to: nat)
    requires LayoutOk(index, from) && e.offset == from && to == AlignUp(from + e.length, 4)
    ensures LayoutOk(index + [e], to)
  {
    AlignUpAbove(from + e.length, 4);
    forall i | 0 <= i < |index| ensures EntryIn(index[i], to) { assert EntryIn(index[i], from); }
    forall i, j | 0 <= i < j < |index + [e]|
        ensures (index + [e])[i].offset + (index + [e])[i].length <= (index + [e])[j].offset {
      assert EntryIn(index[i], from);
    }
  }

  lemma {:induction false} LogRises(data: seq<Byte>, items: seq<Item>, n: nat, ends: seq<nat>)
    requires Log(data, false, items, n, ends)
    ensures ends[0] <= ends[n]
  {
    if n > 0 {
      LogRises(data, items, n - 1, ends);
      assert ReadsAt(data, false, items[n - 1], ends[n - 1], ends[n - 1 + 1]);
      AlignUpAbove(ends[n - 1], 1);
      AlignUpAbove(ends[n - 1], 2);
      AlignUpAbove(ends[n - 1], 4);
    }
  }

  // ---------------------------------------------------------------------------------------------
  // The header

  /** What `writeFile` puts into the header for an entry; the stream has 32-bit offsets, so both ways of
      writing an offset cut it to 32 bits. */
  function EntryItems(e: IndexEntry, use64: bool): (r: seq<Item>)
    ensures |r| == 4
  {
    var k := if use64 then Offset else U32;
    [StrItem(e.name), Num(U32, e.classId), Num(k, e.offset % 0x1_0000_0000), Num(k, e.length % 0x1_0000_0000)]
  }

  function IndexItems(index: seq<IndexEntry>, use64: bool): (r: seq<Item>)
    ensures |r| == 4 * |index|
  {
    if |index| == 0 then [] else IndexItems(index[..|index| - 1], use64) + EntryItems(index[|index| - 1], use64)
  }

  function HeaderItems(major: nat, minor: nat, index: seq<IndexEntry>, use64: bool): seq<Item> {
    [Num(U32, major), Num(U32, minor), Num(U32, 0), Num(U32, |index|)] + IndexItems(index, use64)
  }

  /** Names, class and place of an entry fit the fields they are written to. */
  ghost predicate EntryFits(e: IndexEntry) {
    |e.name| <= 5 * 1024 && e.classId < 0x1_0000_0000 && e.offset < 0x1_0000_0000 && e.length < 0x1_0000_0000
  }

  ghost predicate HeaderFits(major: nat, minor: nat, index: seq<IndexEntry>) {
    major < 0x1_0000_0000 && minor < 0x1_0000_0000 && |index| < 0x1_0000_0000 && forall i :: 0 <= i < |index| ==>
        EntryFits(index[i])
  }

  lemma {:induction false} IndexItemAt(index: seq<IndexEntry>, use64: bool, i: nat, j: nat)
    requires i < |index| && j < 4
    ensures IndexItems(index, use64)[4 * i + j] == EntryItems(index[i], use64)[j]
  {
    if i < |index| - 1 { IndexItemAt(index[..|index| - 1], use64, i, j); }
  }

  lemma HeaderItemAt(major: nat, minor: nat, index: seq<IndexEntry>, use64: bool, i: nat, j: nat)
    requires i < |index| && j < 4
    ensures HeaderItems(major, minor, index, use64)[4 + 4 * i + j] == EntryItems(index[i], use64)[j]
  {
    IndexItemAt(index, use64, i, j);
  }

  lemma {:induction false} IndexItemsOk(index: seq<IndexEntry>, use64: bool)
    requires forall i :: 0 <= i < |index| ==> EntryFits(index[i])
    ensures forall n :: 0 <= n < |IndexItems(index, use64)| ==> HeaderItemOk(IndexItems(index, use64)[n])
  {
    if |index| > 0 {
      IndexItemsOk(index[..|index| - 1], use64);
      assert EntryFits(index[|index| - 1]);
      Pow256Values();
    }
  }

  ghost predicate HeaderItemOk(i: Item) {
    ItemOk(i, false) && (!i.Num? ==> |i.bytes| <= 5 * 1024)
  }

  lemma HeaderItemsOk(major: nat, minor: nat, index: seq<IndexEntry>, use64: bool)
    requires HeaderFits(major, minor, index)
    ensures forall n :: 0 <= n < |HeaderItems(major, minor, index, use64)| ==>
        HeaderItemOk(HeaderItems(major, minor, index, use64)[n])
  {
    IndexItemsOk(index, use64);
    Pow256Values();
  }

  // ---------------------------------------------------------------------------------------------
  // Writing

  /** The file: magic, header with its size, data with its size. */
  function Image(header: seq<Byte>, data: seq<Byte>): seq<Byte> {
    MAGIC + LE(|header|, SIZE) + header + LE(|data|, SIZE) + data
  }

  class Writer {
    const stream: OStream
    const major: nat
    const minor: nat
    /** `mUse64BitOffsets`, which nothing sets before a file is written. */
    const use64: bool
    /** Whether `mWriteStream` exists. */
    var open: bool
    var index: seq<IndexEntry>
    ghost var objects: seq<Obj>
    ghost var logs: seq<seq<nat>>

    ghost predicate Valid()
      reads this, stream, stream.data
    {
      && stream.Valid() && !stream.use64 && LayoutOk(index, stream.pos)
      && AllStored(stream.Written(), index, objects, logs)
    }

    constructor (use64: bool)
      ensures Valid() && this.use64 == use64 && !open && index == [] && objects == [] && fresh(stream) &&
          fresh(stream.data)
    {
      stream := new OStream(256 * 1024, false);
      major, minor := 0, 1;
      this.use64 := use64;
      open, index, objects, logs := false, [], [], [];
    }

    /** `appendToFile`: the object goes behind the others, at an aligned offset that its index entry has. */
    method AppendToFile(obj: Option<Obj>) returns (ok: bool)
      requires Valid() && (obj.Some? ==> forall i :: 0 <= i < |obj.value.items| ==> ItemOk(obj.value.items[i], false))
      modifies this, stream, stream.data
      ensures fresh(stream.data) || stream.data == old(stream.data)
      ensures obj.None? ==> ok && Valid() && index == old(index) && objects == old(objects)
      ensures ok ==> Valid() && objects == old(objects) + if obj.Some? then [obj.value] else []
      ensures ok && obj.Some? ==> |index| == |old(index)| + 1 && index[..|old(index)|] == old(index) && open
      ensures obj.Some? && ShortStrings(obj.value, old(stream.data.Length)) ==> ok
    {
      if obj.None? { return true; }
      open := true;
      ghost var was := stream.Written();
      var offset := stream.pos;
      ghost var ends;
      ok, ends := stream.AddAll(obj.value.items);
      if !ok { return; }
      LogRises(stream.Written(), obj.value.items, |obj.value.items|, ends);
      var e := IndexEntry(obj.value.name, obj.value.classId, offset, stream.pos - offset);
      ghost var mid := stream.Written();
      stream.Align(4);
      StoredPrefix(mid, stream.Written(), e, obj.value, ends);
      StoreOne(was, stream.Written(), index, objects, logs, e, obj.value, ends);
      LayoutOne(index, offset, e, stream.pos);
      index, objects, logs := index + [e], objects + [obj.value], logs + [ends];
    }

    /** `writeFile`, up to the image that goes into the file. */
    method WriteFile() returns (image: Option<seq<Byte>>, ghost header: seq<Byte>, ghost ends: seq<nat>)
      requires Valid() && HeaderFits(major, minor, index)
      ensures image.Some? <==> open && stream.pos != 0
      ensures image.Some? ==> image.value == Image(header, stream.Written())
      ensures image.Some? ==>
          HeaderLog(header, major, minor, index, use64, ends) &&
          ends[|HeaderItems(major, minor, index, use64)|] == |header|
    {
      header, ends := [], [];
      if !open || stream.pos == 0 { return None, [], []; }
      var h := new OStream(5 * 1024, false);
      HeaderItemsOk(major, minor, index, use64);
      var items := HeaderItems(major, minor, index, use64);
      assert forall i :: 0 <= i < |items| ==> HeaderItemOk(items[i]);
      var ok;
      ok, ends := h.AddAll(items);
      header := h.Written();
      image := Some(MAGIC + LE(h.pos, SIZE) + h.data[..h.pos] + LE(stream.pos, SIZE) + stream.data[..stream.pos]);
    }
  }

  // ---------------------------------------------------------------------------------------------
  // Loading

  /** `Rejected` is a false result, `Malformed` a header whose reading leaves the data. */
  datatype LoadResult = Rejected | Malformed | Loaded(major: nat, minor: nat, use64: bool, index: seq<IndexEntry>,
      data: seq<Byte>)

  datatype Header = Header(major: nat, minor: nat, use64: bool, index: seq<IndexEntry>) | Bad

  /** How a header came about. */
  ghost predicate HeaderLog(data: seq<Byte>, major: nat, minor: nat, index: seq<IndexEntry>, use64: bool,
      ends: seq<nat>) {
    HeaderFits(major, minor, index) &&
    Log(data, false, HeaderItems(major, minor, index, use64), |HeaderItems(major, minor, index, use64)|, ends) &&
        ends[0] == 0
  }

  lemma HeaderStart(data: seq<Byte>, major: nat, minor: nat, index: seq<IndexEntry>, use64: bool, ends: seq<nat>)
    requires HeaderLog(data, major, minor, index, use64, ends)
    ensures ReadNum(data, 0, 4) == Got(major, ends[1]) && ReadNum(data, ends[1], 4) == Got(minor, ends[2])
    ensures ReadNum(data, ends[2], 4) == Got(0, ends[3]) && ReadNum(data, ends[3], 4) == Got(|index|, ends[4])
  {
    var items := HeaderItems(major, minor, index, use64);
    NumAt(data, items, ends, 0, U32, major);
    NumAt(data, items, ends, 1, U32, minor);
    NumAt(data, items, ends, 2, U32, 0);
    NumAt(data, items, ends, 3, U32, |index|);
  }

  /** An entry, as the header holds it. */
  function ReadEntry(data: seq<Byte>, pos: nat): Got<IndexEntry> {
    var name := ReadStr(data, pos);
    if name.Short? then Short else
      var classId := ReadNum(data, name.next, 4);
      if classId.Short? then Short else
        var offset := ReadNum(data, classId.next, 4);
        if offset.Short? then Short else
          var length := ReadNum(data, offset.next, 4);
          if length.Short? then Short else
            Got(IndexEntry(name.value, classId.value, offset.value, length.value), length.next)
  }

  lemma HeaderEntry(data: seq<Byte>, major: nat, minor: nat, index: seq<IndexEntry>, use64: bool, ends: seq<nat>,
      i: nat)
    requires HeaderLog(data, major, minor, index, use64, ends) && i < |index|
    ensures ReadEntry(data, ends[4 + 4 * i]) == Got(index[i], ends[4 + 4 * (i + 1)])
  {
    var items, p, k := HeaderItems(major, minor, index, use64), 4 + 4 * i, if use64 then Offset else U32;
    assert EntryFits(index[i]);
    HeaderItemAt(major, minor, index, use64, i, 0);
    StrAt(data, items, ends, p, index[i].name);
    HeaderItemAt(major, minor, index, use64, i, 1);
    NumAt(data, items, ends, p + 1, U32, index[i].classId);
    HeaderItemAt(major, minor, index, use64, i, 2);
    NumAt(data, items, ends, p + 2, k, index[i].offset);
    HeaderItemAt(major, minor, index, use64, i, 3);
    NumAt(data, items, ends, p + 3, k, index[i].length);
  }

  /** One entry of `parseHeader`.  The header stream has 32-bit offsets, whatever the flag says. */
  method ParseEntry(s: IStream, use64: bool) returns (e: Option<IndexEntry>)
    requires !s.use64
    modifies s`pos
    ensures match ReadEntry(s.data, old(s.pos)) case Short => e == None case Got(v, p) => e == Some(v) && s.pos == p
  {
    var w := if use64 && s.use64 then 8 else 4;
    var name := s.LoadString();
    if name.Short? { return None; }
    var classId := s.LoadNum(4);
    if classId.Short? { return None; }
    var offset := s.LoadNum(w);
    if offset.Short? { return None; }
    var length := s.LoadNum(w);
    if length.Short? { return None; }
    return Some(IndexEntry(name.value, classId.value, offset.value, length.value));
  }

  predicate EntryAt(data: seq<Byte>, e: IndexEntry, p: nat, q: nat) {
    ReadEntry(data, p) == Got(e, q)
  }

  /** The entries are in the data, from one of the positions to the next. */
  predicate EntriesAt(data: seq<Byte>, index: seq<IndexEntry>, at: seq<nat>) {
    |at| == |index| + 1 && forall i :: 0 <= i < |index| ==> EntryAt(data, index[i], at[i], at[i + 1])
  }

  lemma HeaderEntries(data: seq<Byte>, major: nat, minor: nat, index: seq<IndexEntry>, use64: bool, ends: seq<nat>)
      returns (at: seq<nat>)
    requires HeaderLog(data, major, minor, index, use64, ends)
    ensures EntriesAt(data, index, at) && at[0] == ends[4]
  {
    at := seq(|index| + 1, i requires 0 <= i < |index| + 1 => ends[4 + 4 * i]);
    forall i | 0 <= i < |index| ensures EntryAt(data, index[i], at[i],
        at[i + 1]) { HeaderEntry(data, major, minor, index, use64, ends, i); }
  }

  /** The entries of `parseHeader`. */
  method ParseEntries(s: IStream, use64: bool, count: nat, ghost index: seq<IndexEntry>, ghost at: seq<nat>)
      returns (r: Option<seq<IndexEntry>>)
    requires !s.use64
    modifies s`pos
    ensures EntriesAt(s.data, index, at) && old(s.pos) == at[0] && count == |index| ==> r == Some(index)
  {
    ghost var good := EntriesAt(s.data, index, at) && s.pos == at[0] && count == |index|;
    var entries := [];
    while |entries| < count
      invariant |entries| <= count
      invariant good ==> entries == index[..|entries|] && s.pos == at[|entries|]
    {
      ghost var i := |entries|;
      assert good ==> EntryAt(s.data, index[i], at[i], at[i + 1]);
      var e := ParseEntry(s, use64);
      if e.None? { return None; }
      entries := entries + [e.value];
    }
    assert good ==> index[..|entries|] == index;
    return Some(entries);
  }

  /** `parseHeader`. */
  method ParseHeader(s: IStream, ghost major: nat, ghost minor: nat, ghost index: seq<IndexEntry>, ghost use64: bool,
      ghost ends: seq<nat>) returns (h: Header)
    requires s.pos == 0 && !s.use64
    modifies s`pos
    ensures HeaderLog(s.data, major, minor, index, use64, ends) ==> h == Header(major, minor, false, index)
  {
    ghost var at := [];
    if HeaderLog(s.data, major, minor, index, use64, ends) {
      HeaderStart(s.data, major, minor, index, use64, ends);
      at := HeaderEntries(s.data, major, minor, index, use64, ends);
    }
    var a := s.LoadNum(4);
    if a.Short? { return Bad; }
    var b := s.LoadNum(4);
    if b.Short? { return Bad; }
    var flags := s.LoadNum(4);
    if flags.Short? { return Bad; }
    var count := s.LoadNum(4);
    if count.Short? { return Bad; }
    var wide := flags.value % 2 != 0;
    var entries := ParseEntries(s, wide, count.value, index, at);
    if entries.None? { return Bad; }
    return Header(a.value, b.value, wide, entries.value);
  }

  ghost predicate ImageOk(image: seq<Byte>, header: seq<Byte>, data: seq<Byte>) {
    image == Image(header, data) && |header| < Pow256(SIZE) && |data| < Pow256(SIZE)
  }

  /** `load` from memory.  An image that was written with some header and data comes back as those. */
  method Load(image: seq<Byte>, ghost header: seq<Byte>, ghost data: seq<Byte>,
              ghost major: nat, ghost minor: nat, ghost index: seq<IndexEntry>, ghost use64: bool,
                  ghost ends: seq<nat>) returns (r: LoadResult)
    ensures |image| < 12 || image[..12] != MAGIC ==> r == Rejected
    ensures ImageOk(image, header, data) && HeaderLog(header, major, minor, index, use64, ends) ==>
        r == Loaded(major, minor, false, index, data)
  {
    if |image| < 12 || image[..12] != MAGIC { return Rejected; }
    if ImageOk(image, header, data) { ImageParts(image, header, data); }
    var rest := image[12..];
    if |rest| < SIZE { return Rejected; }
    var headerSize := FromLE(rest[..SIZE]);
    rest := rest[SIZE..];
    if |rest| < headerSize { return Rejected; }
    var s := new IStream(rest[..headerSize], false);
    var h := ParseHeader(s, major, minor, index, use64, ends);
    if h.Bad? { return Malformed; }
    rest := rest[headerSize..];
    if |rest| < SIZE { return Rejected; }
    var dataSize := FromLE(rest[..SIZE]);
    rest := rest[SIZE..];
    if |rest| < dataSize { return Rejected; }
    return Loaded(h.major, h.minor, h.use64, h.index, rest[..dataSize]);
  }

  lemma Cut(s: seq<Byte>, a: seq<Byte>, b: seq<Byte>)
    ensures var t := s + a + b; t[..|s|] == s && t[|s|..][..|a|] == a && t[|s|..][|a|..] == b
  {
    var t := s + a + b;
    assert t[|s|..] == a + b;
  }

  /** A size field, its bytes, and what follows. */
  lemma Parts(t: seq<Byte>, a: seq<Byte>, b: seq<Byte>, w: nat)
    requires |a| < Pow256(w) && t == LE(|a|, w) + a + b
    ensures |t| == w + |a| + |b| && FromLE(t[..w]) == |a| && t[w..][..|a|] == a && t[w..][|a|..] == b
  {
    RoundTrip(|a|, w);
    Cut(LE(|a|, w), a, b);
  }

  lemma ImageParts(image: seq<Byte>, header: seq<Byte>, data: seq<Byte>)
    requires image == Image(header, data) && |header| < Pow256(SIZE) && |data| < Pow256(SIZE)
    ensures |image| == 28 + |header| + |data| && image[..12] == MAGIC
    ensures FromLE(image[12..][..SIZE]) == |header| && image[12..][SIZE..][..|header|] == header
    ensures var rest := image[12..][SIZE..][|header|..];
        FromLE(rest[..SIZE]) == |data| && rest[SIZE..][..|data|] == data
  {
    var l, m := LE(|header|, SIZE), LE(|data|, SIZE);
    ImageTail(l, header, m, data);
    Parts(image[12..], header, m + data, SIZE);
    assert m + data == m + data + [];
    Parts(m + data, data, [], SIZE);
  }

  lemma ImageTail(l: seq<Byte>, header: seq<Byte>, m: seq<Byte>, data: seq<Byte>)
    ensures var image := MAGIC + l + header + m + data; image[..12] == MAGIC && image[12..] == l + header + (m + data)
  {
    var image := MAGIC + l + header + m + data;
    assert image == MAGIC + (l + header + (m + data));
  }

  lemma {:induction false} HeaderLength(data: seq<Byte>, items: seq<Item>, n: nat, ends: seq<nat>)
    requires Log(data, false, items, n, ends) && ends[0] == 0 && forall i :: 0 <= i < |items| ==> HeaderItemOk(items[i])
    ensures ends[n] <= 6000 * n
  {
    if n > 0 {
      HeaderLength(data, items, n - 1, ends);
      assert ReadsAt(data, false, items[n - 1], ends[n - 1], ends[n - 1 + 1]) && HeaderItemOk(items[n - 1]);
      ItemLength(data, items[n - 1], ends[n - 1], ends[n]);
    }
  }

  lemma ItemLength(data: seq<Byte>, i: Item, p: nat, q: nat)
    requires ReadsAt(data, false, i, p, q) && HeaderItemOk(i)
    ensures q <= p + 6000
  {
    AlignUpWithin(p, 1);
    AlignUpWithin(p, 2);
    AlignUpWithin(p, 4);
  }

  lemma HeaderSize(header: seq<Byte>, major: nat, minor: nat, index: seq<IndexEntry>, use64: bool, ends: seq<nat>)
    requires HeaderLog(header, major, minor, index, use64, ends) &&
        ends[|HeaderItems(major, minor, index, use64)|] == |header|
    ensures |header| < Pow256(SIZE)
  {
    HeaderItemsOk(major, minor, index, use64);
    HeaderLength(header, HeaderItems(major, minor, index, use64), 4 + 4 * |index|, ends);
    Pow256Values();
  }

  lemma DataFits(n: nat)
    requires n < 0x1_0000_0000
    ensures n < Pow256(SIZE)
  {
    Pow256Values();
  }

  /** A file that has been written loads with the same index and the same data, and every object that
      was appended reads back from where its index entry says. */
  method Reload(w: Writer) returns (r: LoadResult)
    requires w.Valid() && HeaderFits(w.major, w.minor, w.index) && w.open && w.stream.pos != 0 &&
        w.stream.pos < 0x1_0000_0000
    ensures r == Loaded(w.major, w.minor, false, w.index, w.stream.Written())
    ensures |w.objects| == |w.index| && forall i :: 0 <= i < |w.index| ==> ReadsBack(r.data, r.index[i], w.objects[i])
  {
    var image, header, ends := w.WriteFile();
    HeaderSize(header, w.major, w.minor, w.index, w.use64, ends);
    DataFits(w.stream.pos);
    r := Load(image.value, header, w.stream.Written(), w.major, w.minor, w.index, w.use64, ends);
    forall i | 0 <= i < |w.index| ensures ReadsBack(w.stream.Written(), w.index[i], w.objects[i]) {
      ObjectBack(w.stream.Written(), w.index[i], w.objects[i], w.logs[i]);
    }
  }
}
