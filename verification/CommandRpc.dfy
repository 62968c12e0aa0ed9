/** The command channel between API clients and the RS thread: the code the generator emits for each
    API entry on both sides, the frames it makes, and runs of a client, a finalizer and the RS thread
    over the two byte queues. */
module CommandRpc {

  import opened Bytes

  // ---------------------------------------------------------------------------------------------
  // API entries

  /** A parameter as an entry declares it. */
  datatype Decl = Decl(isConst: bool, ptrLevel: nat, size: nat)

  /** A parameter as the generator sees it (`VarType`). */
  datatype Param = Param(isConst: bool, ptrLevel: nat, size: nat)

  /** `ApiEntry`; `ret` is the size of the result, 0 for none. */
  datatype Entry = Entry(decls: seq<Decl>, ret: nat, sync: bool)

  /** Pointers and `size_t`. */
  const WORD := 8

  /** `checkPointerType`: the lengths that go with a pointer, one for each level. */
  function Lengths(level: nat): (r: seq<Param>)
    ensures |r| == level
    ensures forall k :: 0 <= k < level ==> r[k] == Param(k > 0, k, WORD)
  {
    if level == 0 then [] else Lengths(level - 1) + [Param(level > 1, level - 1, WORD)]
  }

  function Expand(decls: seq<Decl>): seq<Param> {
    if |decls| == 0 then [] else
      var d := decls[|decls| - 1];
      Expand(decls[..|decls| - 1]) + [Param(d.isConst, d.ptrLevel, if d.ptrLevel > 0 then WORD
          else d.size)] + Lengths(d.ptrLevel)
  }

  function Params(e: Entry): seq<Param> {
    Expand(e.decls)
  }

  /** Parameters of scalar sizes, at most 16 with the lengths, as `ApiEntry` has room for. */
  ghost predicate EntryOk(e: Entry) {
    |Params(e)| <= 16 && forall i :: 0 <= i < |e.decls| ==> e.decls[i].size in {1, 2, 4, 8}
  }

  ghost predicate SizesOk(params: seq<Param>) {
    forall i :: 0 <= i < |params| ==> params[i].size in {1, 2, 4, 8} && (params[i].ptrLevel > 0 ==>
        params[i].size == WORD)
  }

  /** Where no pointer has two levels, a pointer is followed by its length. */
  ghost predicate LengthFollows(params: seq<Param>, i: int) {
    0 <= i < |params| && params[i].ptrLevel > 0 ==>
        i + 1 < |params| && params[i + 1].ptrLevel == 0 && params[i + 1].size == WORD
  }

  lemma {:induction false} ExpandOk(decls: seq<Decl>)
    requires forall i :: 0 <= i < |decls| ==> decls[i].size in {1, 2, 4, 8}
    ensures SizesOk(Expand(decls))
    ensures (forall i :: 0 <= i < |Expand(decls)| ==> Expand(decls)[i].ptrLevel <= 1) ==>
        forall i :: LengthFollows(Expand(decls), i)
  {
    if |decls| > 0 {
      var front, d := decls[..|decls| - 1], decls[|decls| - 1];
      ExpandOk(front);
      var p, tail := Expand(front), [Param(d.isConst, d.ptrLevel, if d.ptrLevel > 0 then WORD
          else d.size)] + Lengths(d.ptrLevel);
      assert Expand(decls) == p + tail;
      if forall i :: 0 <= i < |Expand(decls)| ==> Expand(decls)[i].ptrLevel <= 1 {
        assert tail[0] == (p + tail)[|p|];
        assert forall i :: 0 <= i < |p| ==> p[i] == (p + tail)[i];
        forall i ensures LengthFollows(p + tail, i) {
          assert LengthFollows(p, i);
          if 0 <= i < |p| && p[i].ptrLevel > 0 { assert (p + tail)[i + 1] == p[i + 1]; }
        }
      }
    }
  }

  // ---------------------------------------------------------------------------------------------
  // Which entries take their data along

  /** What `hasInlineDataPointers` decides. */
  ghost predicate Inlinable(e: Entry) {
    && !e.sync && e.ret == 0
    && (forall i :: 0 <= i < |Params(e)| ==>
        Params(e)[i].ptrLevel == 0 || (Params(e)[i].isConst && Params(e)[i].ptrLevel == 1))
    && (exists i :: 0 <= i < |Params(e)| && Params(e)[i].ptrLevel > 0)
  }

  method HasInlineDataPointers(e: Entry) returns (ret: bool)
    ensures ret == Inlinable(e)
  {
    ret := false;
    if e.sync || e.ret != 0 { return false; }
    var params := Params(e);
    var ct := 0;
    while ct < |params|
      invariant 0 <= ct <= |params|
      invariant forall i :: 0 <= i < ct ==> params[i].ptrLevel == 0 || (params[i].isConst && params[i].ptrLevel == 1)
      invariant ret <==> exists i :: 0 <= i < ct && params[i].ptrLevel > 0
    {
      if !params[ct].isConst && params[ct].ptrLevel > 0 { return false; }
      if params[ct].ptrLevel > 1 { return false; }
      if params[ct].isConst && params[ct].ptrLevel > 0 { ret := true; }
      ct := ct + 1;
    }
  }

  /** The accumulator `needFlush` of both generators. */
  function NeedFlush(params: seq<Param>): nat {
    if |params| == 0 then 0 else NeedFlush(params[..|params| - 1]) + params[|params| - 1].ptrLevel
  }

  // ---------------------------------------------------------------------------------------------
  // Layout of a command structure

  /** Where field `i` starts: each field is aligned to its size. */
  function Offset(params: seq<Param>, i: nat): nat
    requires i < |params|
  {
    AlignUp(if i == 0 then 0 else Offset(params, i - 1) + params[i - 1].size, params[i].size)
  }

  /** Where field `i` ends. */
  function End(params: seq<Param>, i: nat): nat
    requires i < |params|
  {
    Offset(params, i) + params[i].size
  }

  /** The alignment of the whole structure. */
  function MaxSize(params: seq<Param>): nat {
    if |params| == 0 then 1 else
      var m, s := MaxSize(params[..|params| - 1]), params[|params| - 1].size;
      if m > s then m else s
  }

  /** `sizeof` the command structure; an empty structure has one byte. */
  function StructSize(params: seq<Param>): nat {
    if |params| == 0 then 1
    else AlignUp(End(params, |params| - 1), MaxSize(params))
  }

  lemma {:induction false} OffsetBounds(params: seq<Param>, i: nat)
    requires SizesOk(params) && i < |params|
    ensures Offset(params, i) + params[i].size <= 8 * (i + 1)
    ensures i > 0 ==> Offset(params, i - 1) + params[i - 1].size <= Offset(params, i)
  {
    if i > 0 {
      OffsetBounds(params, i - 1);
      AlignUpAbove(Offset(params, i - 1) + params[i - 1].size, params[i].size);
      AlignUpBelow(Offset(params, i - 1) + params[i - 1].size, params[i].size, i);
    }
  }

  /** Each field starts at the first multiple of its size behind the one before it. */
  lemma OffsetLeast(params: seq<Param>, i: nat, from: nat)
    requires SizesOk(params) && i < |params| && from == if i == 0 then 0 else End(params, i - 1)
    ensures Offset(params, i) % params[i].size == 0 && from <= Offset(params, i) < from + params[i].size
  {
    AlignUpLeast(from, params[i].size, from);
    assert Offset(params, i) == AlignUp(from, params[i].size);
  }

  /** And the structure ends at the first multiple of its largest field behind the last one. */
  lemma StructLeast(params: seq<Param>, end: nat)
    requires SizesOk(params) && |params| > 0 && end == End(params, |params| - 1)
    ensures StructSize(params) % MaxSize(params) == 0 && end <= StructSize(params) < end + MaxSize(params)
    ensures forall i :: 0 <= i < |params| ==> params[i].size <= MaxSize(params)
  {
    MaxSizeOk(params);
    LargestIs(params);
    AlignUpLeast(end, MaxSize(params), end);
  }

  lemma {:induction false} LargestIs(params: seq<Param>)
    ensures forall i :: 0 <= i < |params| ==> params[i].size <= MaxSize(params)
  {
    if |params| > 0 { LargestIs(params[..|params| - 1]); }
  }

  /** Fields are disjoint and in order. */
  lemma {:induction false} OffsetOrder(params: seq<Param>, i: nat, j: nat)
    requires SizesOk(params) && i < j < |params|
    ensures Offset(params, i) + params[i].size <= Offset(params, j)
  {
    OffsetBounds(params, j);
    if i < j - 1 { OffsetOrder(params, i, j - 1); }
  }

  lemma {:induction false} MaxSizeOk(params: seq<Param>)
    requires SizesOk(params)
    ensures MaxSize(params) in {1, 2, 4, 8}
  {
    if |params| > 0 { MaxSizeOk(params[..|params| - 1]); }
  }

  lemma StructBounds(params: seq<Param>)
    requires SizesOk(params)
    ensures 1 <= StructSize(params) <= 8 * |params| + 1
  {
    if |params| > 0 {
      var n := |params| - 1;
      OffsetBounds(params, n);
      MaxSizeOk(params);
      AlignUpAbove(End(params, n), MaxSize(params));
      AlignUpBelow(End(params, n), MaxSize(params), n + 1);
    }
  }

  lemma {:induction false} EndOrder(params: seq<Param>, i: nat, j: nat)
    requires SizesOk(params) && i <= j < |params|
    ensures End(params, i) <= End(params, j)
  {
    if i < j {
      EndOrder(params, i, j - 1);
      OffsetBounds(params, j);
    }
  }

  lemma FieldInside(params: seq<Param>, i: nat)
    requires SizesOk(params) && i < |params|
    ensures End(params, i) <= StructSize(params)
  {
    var last := End(params, |params| - 1);
    EndOrder(params, i, |params| - 1);
    AlignUpAbove(last, MaxSize(params));
  }

  // ---------------------------------------------------------------------------------------------
  // What a command carries

  /** `mMaxInlineSize`, `sizeof(CoreCmdHeader)` and the size of the buffers on both sides. */
  const INLINE := 1024
  const HEADER := 8
  const BUFFER := 2048

  /** The bytes of the reply when there is nothing to return. */
  const PLAIN := 4

  type Memory = nat -> Byte

  function Data(mem: Memory, addr: nat, len: nat): seq<Byte> {
    seq(len, i requires 0 <= i < len => mem(addr + i))
  }

  /** One argument for each parameter, in the range of its type. */
  ghost predicate ArgsOk(e: Entry, args: seq<nat>) {
    |args| == |Params(e)| && forall i :: 0 <= i < |args| ==> args[i] < Pow256(Params(e)[i].size)
  }

  /** The length that goes with pointer `i`. */
  function Length(args: seq<nat>, i: nat): nat {
    if i + 1 < |args| then args[i + 1] else 0
  }

  /** The sender's `dataSize` over the first `n` parameters. */
  function DataSize(params: seq<Param>, args: seq<nat>, n: nat): nat
    requires n <= |params|
  {
    if n == 0 then 0 else
      DataSize(params, args, n - 1) +
      if params[n - 1].isConst && params[n - 1].ptrLevel > 0 then Length(args, n - 1) else 0
  }

  ghost function Total(e: Entry, args: seq<nat>): nat {
    DataSize(Params(e), args, |Params(e)|)
  }

  /** The data goes into the frame. */
  ghost predicate Inlines(e: Entry, args: seq<nat>) {
    Inlinable(e) && Total(e, args) < INLINE
  }

  /** What the sender stores in field `i`: a value or pointer, or the place of the data in the frame. */
  ghost function FieldValue(e: Entry, args: seq<nat>, i: nat): nat
    requires i < |Params(e)| == |args|
  {
    if Inlines(e, args) && Params(e)[i].ptrLevel > 0 then DataSize(Params(e), args, i) else args[i]
  }

  /** What the player finds in field `i`. */
  function Field(params: seq<Param>, payload: seq<Byte>, i: nat): nat
    requires i < |params|
  {
    if Offset(params, i) + params[i].size <= |payload| then FromLE(Slice(payload, Offset(params, i), params[i].size))
        else 0
  }

  ghost predicate FieldStored(e: Entry, args: seq<nat>, payload: seq<Byte>, i: nat)
    requires i < |Params(e)| == |args|
  {
    var params := Params(e);
    && Offset(params, i) + params[i].size <= |payload|
    && Slice(payload, Offset(params, i), params[i].size) == LE(FieldValue(e, args, i), params[i].size)
  }

  ghost predicate DataStored(e: Entry, args: seq<nat>, mem: Memory, payload: seq<Byte>, i: nat)
    requires i < |Params(e)| == |args|
  {
    var at := StructSize(Params(e)) + DataSize(Params(e), args, i);
    Inlines(e, args) && Params(e)[i].ptrLevel > 0 ==>
      at + Length(args, i) <= |payload| && Slice(payload, at, Length(args, i)) == Data(mem, args[i], Length(args, i))
  }

  ghost function PayloadSize(e: Entry, args: seq<nat>): nat
  {
    StructSize(Params(e)) + if Inlines(e, args) then Total(e, args) else 0
  }

  /** The payload is what the sender makes of the arguments; bytes between fields may be anything. */
  ghost predicate Carries(payload: seq<Byte>, e: Entry, args: seq<nat>, mem: Memory) {
    && ArgsOk(e, args) && |payload| == PayloadSize(e, args)
    && (forall i :: 0 <= i < |args| ==> FieldStored(e, args, payload, i))
    && (forall i :: 0 <= i < |args| ==> DataStored(e, args, mem, payload, i))
  }

  lemma EntryFacts(e: Entry)
    requires EntryOk(e)
    ensures SizesOk(Params(e))
    ensures Inlinable(e) ==> forall i :: LengthFollows(Params(e), i)
  {
    ExpandOk(e.decls);
    if Inlinable(e) {
      assert forall i :: 0 <= i < |Expand(e.decls)| ==> Expand(e.decls)[i] == Params(e)[i];
    }
  }

  lemma {:induction false} DataSizeGrows(params: seq<Param>, args: seq<nat>, i: nat, n: nat)
    requires i <= n <= |params|
    ensures DataSize(params, args, i) <= DataSize(params, args, n)
    decreases n
  {
    if i < n { DataSizeGrows(params, args, i, n - 1); }
  }

  /** Every frame fits the buffers of both sides. */
  lemma FrameFits(e: Entry, args: seq<nat>)
    requires EntryOk(e)
    ensures HEADER + PayloadSize(e, args) <= BUFFER
  {
    EntryFacts(e);
    StructBounds(Params(e));
  }

  lemma FieldFits(e: Entry, args: seq<nat>, i: nat)
    requires EntryOk(e) && ArgsOk(e, args) && i < |args|
    ensures FieldValue(e, args, i) < Pow256(Params(e)[i].size)
  {
    EntryFacts(e);
    DataSizeGrows(Params(e), args, i, |args|);
    Pow256Values();
  }

  /** Each field comes out as it went in. */
  lemma FieldBack(payload: seq<Byte>, e: Entry, args: seq<nat>, mem: Memory, i: nat)
    requires EntryOk(e) && Carries(payload, e, args, mem) && i < |args|
    ensures Offset(Params(e), i) + Params(e)[i].size <= |payload|
    ensures Field(Params(e), payload, i) == FieldValue(e, args, i)
  {
    assert FieldStored(e, args, payload, i);
    FieldFits(e, args, i);
    RoundTrip(FieldValue(e, args, i), Params(e)[i].size);
  }

  // ---------------------------------------------------------------------------------------------
  // Replies

  /** How many bytes the generated sender waits for. */
  ghost function SenderWaits(e: Entry, args: seq<nat>): nat {
    if Inlinable(e) then (if Total(e, args) >= INLINE then PLAIN else 0)
    else if e.ret != 0 then e.ret
    else if (if e.sync then 1 else NeedFlush(Params(e))) != 0 then PLAIN
    else 0
  }

  /** The player's `totalSize` over the first `n` parameters. */
  function TotalSize(params: seq<Param>, payload: seq<Byte>, n: nat): nat
    requires n <= |params|
  {
    if n == 0 then 0 else
      TotalSize(params, payload, n - 1) +
      if params[n - 1].ptrLevel > 0 && n < |params| then Field(params, payload, n) else 0
  }

  /** How many bytes the generated player sends back. */
  ghost function PlayerReplies(e: Entry, payload: seq<Byte>): nat {
    if Inlinable(e) then
      (if TotalSize(Params(e), payload, |Params(e)|) != 0 && |payload| == StructSize(Params(e)) then PLAIN else 0)
    else if e.ret != 0 then e.ret
    else if e.sync || NeedFlush(Params(e)) != 0 then PLAIN
    else 0
  }

  ghost predicate LengthArrives(params: seq<Param>, args: seq<nat>, payload: seq<Byte>, i: int)
    requires 0 <= i < |params| && |args| == |params|
  {
    params[i].ptrLevel > 0 ==> params[i].isConst && i + 1 < |params| && Field(params, payload, i + 1) == args[i + 1]
  }

  lemma {:induction false} TotalSizeIsDataSize(params: seq<Param>, args: seq<nat>, payload: seq<Byte>, n: nat)
    requires n <= |params| == |args|
    requires forall i :: 0 <= i < |params| ==> LengthArrives(params, args, payload, i)
    ensures TotalSize(params, payload, n) == DataSize(params, args, n)
  {
    if n > 0 {
      TotalSizeIsDataSize(params, args, payload, n - 1);
      assert LengthArrives(params, args, payload, n - 1);
    }
  }

  lemma LengthsArrive(payload: seq<Byte>, e: Entry, args: seq<nat>, mem: Memory, i: nat)
    requires EntryOk(e) && Carries(payload, e, args, mem) && Inlinable(e) && i < |args|
    ensures LengthArrives(Params(e), args, payload, i)
  {
    if Params(e)[i].ptrLevel > 0 {
      EntryFacts(e);
      assert LengthFollows(Params(e), i);
      FieldBack(payload, e, args, mem, i + 1);
    }
  }

  /** The sender waits exactly when the player replies, for exactly as many bytes. */
  lemma ReplyAgreement(payload: seq<Byte>, e: Entry, args: seq<nat>, mem: Memory)
    requires EntryOk(e) && Carries(payload, e, args, mem)
    ensures PlayerReplies(e, payload) == SenderWaits(e, args)
  {
    if Inlinable(e) {
      forall i | 0 <= i < |args| ensures LengthArrives(Params(e), args, payload,
          i) { LengthsArrive(payload, e, args, mem, i); }
      TotalSizeIsDataSize(Params(e), args, payload, |args|);
    }
  }

  // ---------------------------------------------------------------------------------------------
  // Pointer arguments

  /** The bytes behind pointer `i` that the implementation is given. */
  ghost function Seen(e: Entry, payload: seq<Byte>, mem: Memory, i: nat): seq<Byte>
    requires i + 1 < |Params(e)|
  {
    var params := Params(e);
    var at, len := Field(params, payload, i), Field(params, payload, i + 1);
    if Inlinable(e) && |payload| != StructSize(params) then
      (if StructSize(params) + at + len <= |payload| then Slice(payload, StructSize(params) + at, len) else [])
    else Data(mem, at, len)
  }

  lemma SeenInline(e: Entry, payload: seq<Byte>, mem: Memory, i: nat, at: nat, len: nat)
    requires i + 1 < |Params(e)| && Inlinable(e) && |payload| != StructSize(Params(e))
    requires Field(Params(e), payload, i) == at && Field(Params(e), payload, i + 1) == len
    requires StructSize(Params(e)) + at + len <= |payload|
    ensures Seen(e, payload, mem, i) == Slice(payload, StructSize(Params(e)) + at, len)
  {
  }

  /** Inlined or not, the data arrives. */
  lemma PointerRoundTrip(payload: seq<Byte>, e: Entry, args: seq<nat>, mem: Memory, i: nat)
    requires EntryOk(e) && Carries(payload, e, args, mem) && i < |args| && Params(e)[i].ptrLevel == 1 &&
        LengthFollows(Params(e), i)
    ensures Seen(e, payload, mem, i) == Data(mem, args[i], Length(args, i))
  {
    FieldBack(payload, e, args, mem, i);
    FieldBack(payload, e, args, mem, i + 1);
    if Length(args, i) > 0 && Inlines(e, args) {
      InlineNonempty(e, args, i);
      assert DataStored(e, args, mem, payload, i);
      SeenInline(e, payload, mem, i, DataSize(Params(e), args, i), Length(args, i));
    }
  }

  lemma InlineNonempty(e: Entry, args: seq<nat>, i: nat)
    requires Inlinable(e) && i < |args| == |Params(e)| && Params(e)[i].ptrLevel > 0
    ensures Total(e, args) >= Length(args, i)
  {
    DataSizeGrows(Params(e), args, i + 1, |args|);
  }

  lemma {:induction false} FlushCounts(params: seq<Param>, i: nat)
    requires i < |params| && params[i].ptrLevel > 0
    ensures NeedFlush(params) > 0
  {
    if i < |params| - 1 { FlushCounts(params[..|params| - 1], i); }
  }

  /** A frame that carries client pointers holds the client until it has been played. */
  lemma PointersWait(e: Entry, args: seq<nat>, i: nat)
    requires EntryOk(e) && ArgsOk(e, args) && i < |args| && Params(e)[i].ptrLevel > 0 && !Inlines(e, args)
    ensures SenderWaits(e, args) > 0
  {
    FlushCounts(Params(e), i);
  }

  // ---------------------------------------------------------------------------------------------
  // The generated sender, filling the send buffer in place

  /** The first `n` parameters are in the payload. */
  ghost predicate SentUpTo(e: Entry, args: seq<nat>, mem: Memory, payload: seq<Byte>, n: nat) {
    && n <= |args| == |Params(e)| && |payload| == PayloadSize(e, args)
    && (forall i :: 0 <= i < n ==> FieldStored(e, args, payload, i))
    && (forall i :: 0 <= i < n ==> DataStored(e, args, mem, payload, i))
  }

  lemma DataInside(e: Entry, args: seq<nat>, i: nat, j: nat)
    requires i < j <= |args| == |Params(e)| && Inlines(e, args) && Params(e)[i].ptrLevel > 0
    ensures DataSize(Params(e), args, i) + Length(args, i) <= DataSize(Params(e), args, j) <= Total(e, args)
  {
    DataSizeGrows(Params(e), args, i + 1, j);
    DataSizeGrows(Params(e), args, j, |args|);
  }

  /** Data goes behind the structure and behind earlier data. */
  lemma StoreData(e: Entry, args: seq<nat>, mem: Memory, p: seq<Byte>, i: nat)
    requires EntryOk(e) && SentUpTo(e, args, mem, p, i) && i < |args| && Inlines(e, args) && Params(e)[i].ptrLevel > 0
    ensures StructSize(Params(e)) + DataSize(Params(e), args, i) + Length(args, i) <= |p|
    ensures SentUpTo(e, args, mem, Splice(p, StructSize(Params(e)) + DataSize(Params(e), args, i),
        Data(mem, args[i], Length(args, i))), i)
    ensures DataStored(e, args, mem, Splice(p, StructSize(Params(e)) + DataSize(Params(e), args, i),
        Data(mem, args[i], Length(args, i))), i)
  {
    EntryFacts(e);
    DataInside(e, args, i, i + 1);
    var at, b := StructSize(Params(e)) + DataSize(Params(e), args, i), Data(mem, args[i], Length(args, i));
    var p' := Splice(p, at, b);
    SpliceReads(p, at, b);
    forall j | 0 <= j < i ensures FieldStored(e, args, p', j) {
      assert FieldStored(e, args, p, j);
      FieldInside(Params(e), j);
      SpliceKeeps(p, at, b, Offset(Params(e), j), Params(e)[j].size);
    }
    forall j | 0 <= j < i ensures DataStored(e, args, mem, p', j) {
      assert DataStored(e, args, mem, p, j);
      if Params(e)[j].ptrLevel > 0 {
        DataInside(e, args, j, i);
        SpliceKeeps(p, at, b, StructSize(Params(e)) + DataSize(Params(e), args, j), Length(args, j));
      }
    }
  }

  lemma StoreField(e: Entry, args: seq<nat>, mem: Memory, p: seq<Byte>, i: nat)
    requires EntryOk(e) && SentUpTo(e, args, mem, p, i) && i < |args| && DataStored(e, args, mem, p, i)
    ensures Offset(Params(e), i) + Params(e)[i].size <= |p|
    ensures SentUpTo(e, args, mem, Splice(p, Offset(Params(e), i), LE(FieldValue(e, args, i), Params(e)[i].size)),
        i + 1)
  {
    Sized(e);
    FieldInside(Params(e), i);
    var at, b := Offset(Params(e), i), LE(FieldValue(e, args, i), Params(e)[i].size);
    StoredNext(e, args, mem, p, i, at, b, Splice(p, at, b));
  }

  lemma Sized(e: Entry)
    requires EntryOk(e)
    ensures SizesOk(Params(e))
  {
    EntryFacts(e);
  }

  lemma StoredNext(e: Entry, args: seq<nat>, mem: Memory, p: seq<Byte>, i: nat, at: nat, b: seq<Byte>, p': seq<Byte>)
    requires EntryOk(e) && SentUpTo(e, args, mem, p, i) && i < |args| && DataStored(e, args, mem, p, i)
    requires at == Offset(Params(e), i) && b == LE(FieldValue(e, args, i), Params(e)[i].size)
    requires at + |b| <= |p| && at + |b| <= StructSize(Params(e)) && p' == Splice(p, at, b)
    ensures SentUpTo(e, args, mem, p', i + 1)
  {
    FieldsNext(e, args, p, i, b, p');
    forall j | 0 <= j < i + 1 ensures DataStored(e, args, mem, p', j) { DataKept(e, args, mem, p, at, b, j); }
  }

  lemma FieldsNext(e: Entry, args: seq<nat>, p: seq<Byte>, i: nat, b: seq<Byte>, p': seq<Byte>)
    requires i < |args| == |Params(e)| && Offset(Params(e), i) + Params(e)[i].size <= |p| && EntryOk(e)
    requires b == LE(FieldValue(e, args, i), Params(e)[i].size) && p' == Splice(p, Offset(Params(e), i), b)
    requires |p| == PayloadSize(e, args) && forall j :: 0 <= j < i ==> FieldStored(e, args, p, j)
    ensures forall j :: 0 <= j < i + 1 ==> FieldStored(e, args, p', j)
  {
    forall j | 0 <= j < i + 1 ensures FieldStored(e, args, p', j) { FieldNext(e, args, p, i, b, j); }
  }

  lemma FieldNext(e: Entry, args: seq<nat>, p: seq<Byte>, i: nat, b: seq<Byte>, j: nat)
    requires j <= i < |args| == |Params(e)| && Offset(Params(e), i) + Params(e)[i].size <= |p| && EntryOk(e)
    requires b == LE(FieldValue(e, args, i), Params(e)[i].size) && |p| == PayloadSize(e, args)
    requires j < i ==> FieldStored(e, args, p, j)
    ensures FieldStored(e, args, Splice(p, Offset(Params(e), i), b), j)
  {
    EntryFacts(e);
    if j < i { FieldKept(e, args, p, i, b, j); } else { FieldWritten(e, args, p, i); }
  }

  lemma FieldWritten(e: Entry, args: seq<nat>, p: seq<Byte>, i: nat)
    requires i < |args| == |Params(e)| && Offset(Params(e), i) + Params(e)[i].size <= |p|
    ensures FieldStored(e, args, Splice(p, Offset(Params(e), i), LE(FieldValue(e, args, i), Params(e)[i].size)), i)
  {
    SpliceReads(p, Offset(Params(e), i), LE(FieldValue(e, args, i), Params(e)[i].size));
  }

  lemma FieldKept(e: Entry, args: seq<nat>, p: seq<Byte>, i: nat, b: seq<Byte>, j: nat)
    requires j < i < |args| == |Params(e)| && SizesOk(Params(e)) && FieldStored(e, args, p, j)
    requires |b| == Params(e)[i].size && Offset(Params(e), i) + |b| <= |p|
    ensures FieldStored(e, args, Splice(p, Offset(Params(e), i), b), j)
  {
    OffsetOrder(Params(e), j, i);
    SpliceKeeps(p, Offset(Params(e), i), b, Offset(Params(e), j), Params(e)[j].size);
  }

  lemma DataKept(e: Entry, args: seq<nat>, mem: Memory, p: seq<Byte>, at: nat, b: seq<Byte>, j: nat)
    requires j < |args| == |Params(e)| && DataStored(e, args, mem, p, j) && at + |b| <= StructSize(Params(e)) &&
        at + |b| <= |p|
    ensures DataStored(e, args, mem, Splice(p, at, b), j)
  {
    if Inlines(e, args) && Params(e)[j].ptrLevel > 0 {
      SpliceKeeps(p, at, b, StructSize(Params(e)) + DataSize(Params(e), args, j), Length(args, j));
    }
  }

  lemma SliceSplice(t: seq<Byte>, from: nat, n: nat, at: nat, b: seq<Byte>)
    requires from + n <= |t| && at + |b| <= n
    ensures Slice(Splice(t, from + at, b), from, n) == Splice(Slice(t, from, n), at, b)
  {
  }

  /** A frame on the wire: `CoreCmdHeader` and the payload. */
  function FrameBytes(cmdID: nat, payload: seq<Byte>): seq<Byte> {
    LE(cmdID, 4) + LE(|payload|, 4) + payload
  }

  lemma HeaderSpliced(t: seq<Byte>, id: seq<Byte>, size: seq<Byte>)
    requires |id| == |size| == 4 && HEADER <= |t|
    ensures Splice(Splice(t, 4, size), 0, id)[..HEADER] == id + size
  {
    var u := Splice(t, 4, size);
    assert u[4..8] == size;
    assert Splice(u, 0, id)[..4] == id && Splice(u, 0, id)[4..8] == u[4..8];
    assert Splice(u, 0, id)[..8] == Splice(u, 0, id)[..4] + Splice(u, 0, id)[4..8];
  }

  class ThreadIO {
    /** `mSendBuffer`; its old contents stay in the gaps between fields. */
    const buffer: array<Byte>
    var toCore: seq<Byte>

    constructor ()
      ensures buffer.Length == BUFFER && fresh(buffer) && toCore == []
    {
      buffer := new Byte[BUFFER];
      toCore := [];
    }

    /** `memcpy` into the send buffer. */
    method Copy(at: nat, b: seq<Byte>)
      requires at + |b| <= buffer.Length
      modifies buffer
      ensures buffer[..] == Splice(old(buffer[..]), at, b)
    {
      var i := 0;
      while i < |b|
        invariant 0 <= i <= |b|
        invariant buffer[..] == Splice(old(buffer[..]), at, b[..i])
      {
        buffer[at + i] := b[i];
        i := i + 1;
      }
      assert b[..i] == b;
    }

    /** `dataSize`. */
    method SumLengths(e: Entry, args: seq<nat>) returns (dataSize: nat)
      requires |args| == |Params(e)|
      ensures dataSize == Total(e, args)
    {
      dataSize := 0;
      var i, params := 0, Params(e);
      while i < |params|
        invariant 0 <= i <= |params| && dataSize == DataSize(params, args, i)
      {
        if params[i].isConst && params[i].ptrLevel > 0 { dataSize := dataSize + Length(args, i); }
        i := i + 1;
      }
    }

    /** The generated sender: the frame it commits carries the arguments, and it waits for the reply. */
    method Send(cmdID: nat, e: Entry, args: seq<nat>, mem: Memory) returns (waits: nat, ghost payload: seq<Byte>)
      requires buffer.Length == BUFFER && EntryOk(e) && ArgsOk(e, args)
      modifies this, buffer
      ensures Carries(payload, e, args, mem) && toCore == old(toCore) + FrameBytes(cmdID, payload)
      ensures waits == SenderWaits(e, args)
    {
      var inlinable := HasInlineDataPointers(e);
      var dataSize := SumLengths(e, args);
      var size := StructSize(Params(e));
      var bytes := if inlinable && dataSize < INLINE then dataSize + size else size;
      assert bytes == PayloadSize(e, args);
      FrameFits(e, args);
      CoreHeader(cmdID, bytes);
      var needFlush := Fill(e, args, mem, inlinable && dataSize < INLINE, bytes);
      if e.ret != 0 || e.sync { needFlush := 1; }
      payload := Slice(buffer[..], HEADER, bytes);
      FrameOf(buffer[..], cmdID, bytes);
      toCore := toCore + buffer[..HEADER + bytes];
      if inlinable {
        waits := if dataSize >= INLINE then PLAIN else 0;
      } else if e.ret != 0 {
        waits := e.ret;
      } else {
        waits := if needFlush != 0 then PLAIN else 0;
      }
    }

    /** `coreHeader`. */
    method CoreHeader(cmdID: nat, bytes: nat)
      requires buffer.Length == BUFFER
      modifies buffer
      ensures buffer[..HEADER] == LE(cmdID, 4) + LE(bytes, 4)
    {
      ghost var was := buffer[..];
      Copy(4, LE(bytes, 4));
      Copy(0, LE(cmdID, 4));
      HeaderSpliced(was, LE(cmdID, 4), LE(bytes, 4));
    }

    /** The loop over the parameters. */
    method Fill(e: Entry, args: seq<nat>, mem: Memory, inlines: bool, bytes: nat) returns (needFlush: nat)
      requires buffer.Length == BUFFER && EntryOk(e) && ArgsOk(e, args)
      requires inlines == Inlines(e, args) && bytes == PayloadSize(e, args) && HEADER + bytes <= BUFFER
      modifies buffer
      ensures buffer[..HEADER] == old(buffer[..HEADER]) && needFlush == NeedFlush(Params(e))
      ensures Carries(Slice(buffer[..], HEADER, bytes), e, args, mem)
    {
      var params := Params(e);
      var i, payload := 0, StructSize(params);
      needFlush := 0;
      while i < |params|
        invariant 0 <= i <= |params| && buffer[..HEADER] == old(buffer[..HEADER])
        invariant needFlush == NeedFlush(params[..i])
        invariant inlines ==> payload == StructSize(params) + DataSize(params, args, i)
        invariant SentUpTo(e, args, mem, Slice(buffer[..], HEADER, bytes), i)
      {
        assert params[..i + 1][..i] == params[..i];
        needFlush := needFlush + params[i].ptrLevel;
        payload := Put(e, args, mem, inlines, bytes, i, payload);
        i := i + 1;
      }
      assert params[..i] == params;
    }

    /** One parameter. */
    method Put(e: Entry, args: seq<nat>, mem: Memory, inlines: bool, bytes: nat, i: nat, payload: nat)
        returns (next: nat)
      requires buffer.Length == BUFFER && EntryOk(e) && ArgsOk(e, args) && i < |args|
      requires inlines == Inlines(e, args) && bytes == PayloadSize(e, args) && HEADER + bytes <= BUFFER
      requires inlines ==> payload == StructSize(Params(e)) + DataSize(Params(e), args, i)
      requires SentUpTo(e, args, mem, Slice(buffer[..], HEADER, bytes), i)
      modifies buffer
      ensures buffer[..HEADER] == old(buffer[..HEADER])
      ensures inlines ==> next == StructSize(Params(e)) + DataSize(Params(e), args, i + 1)
      ensures SentUpTo(e, args, mem, Slice(buffer[..], HEADER, bytes), i + 1)
    {
      var param := Params(e)[i];
      var value := args[i];
      next := payload;
      if param.ptrLevel > 0 && inlines {
        PutData(e, args, mem, bytes, i, payload);
        value := payload - StructSize(Params(e));
        next := payload + Length(args, i);
      }
      StoreField(e, args, mem, Slice(buffer[..], HEADER, bytes), i);
      PutAt(Offset(Params(e), i), LE(value, param.size), bytes);
    }

    method PutData(e: Entry, args: seq<nat>, mem: Memory, bytes: nat, i: nat, payload: nat)
      requires buffer.Length == BUFFER && EntryOk(e) && i < |args| && Inlines(e, args)
      requires HEADER + bytes <= BUFFER && SentUpTo(e, args, mem, Slice(buffer[..], HEADER, bytes), i)
      requires Params(e)[i].ptrLevel > 0 && payload == StructSize(Params(e)) + DataSize(Params(e), args, i)
      modifies buffer
      ensures buffer[..HEADER] == old(buffer[..HEADER])
      ensures SentUpTo(e, args, mem, Slice(buffer[..], HEADER, bytes), i)
      ensures DataStored(e, args, mem, Slice(buffer[..], HEADER, bytes), i)
    {
      StoreData(e, args, mem, Slice(buffer[..], HEADER, bytes), i);
      PutAt(payload, Data(mem, args[i], Length(args, i)), bytes);
    }

    method PutAt(at: nat, b: seq<Byte>, ghost bytes: nat)
      requires buffer.Length == BUFFER && at + |b| <= bytes && HEADER + bytes <= BUFFER
      modifies buffer
      ensures buffer[..HEADER] == old(buffer[..HEADER])
      ensures Slice(buffer[..], HEADER, bytes) == Splice(Slice(old(buffer[..]), HEADER, bytes), at, b)
    {
      SliceSplice(buffer[..], HEADER, bytes, at, b);
      Copy(HEADER + at, b);
    }
  }

  lemma FrameOf(t: seq<Byte>, cmdID: nat, bytes: nat)
    requires HEADER + bytes <= |t| && t[..HEADER] == LE(cmdID, 4) + LE(bytes, 4)
    ensures t[..HEADER + bytes] == FrameBytes(cmdID, Slice(t, HEADER, bytes))
  {
    assert t[..HEADER + bytes] == t[..HEADER] + t[HEADER..HEADER + bytes];
  }

  // ---------------------------------------------------------------------------------------------
  // Runs of one API client, a finalizer and the RS thread

  datatype Frame = Frame(cmdID: nat, payload: seq<Byte>)

  datatype Client = Idle | Waiting(bytes: nat)

  /** The queues in both directions and the client; `sent` and `played` record what happened. */
  datatype State = State(toCore: seq<Byte>, toClient: seq<Byte>, client: Client, sent: seq<Frame>, played: seq<Frame>)

  /** A call by the client, a destroy by a finalizer, one turn of `playCoreCommands` that sends
      `reply`, and the client taking its reply. */
  datatype Event = Call(cmdID: nat, args: seq<nat>, mem: Memory,
      payload: seq<Byte>) | Destroy(ptr: nat) | Play(reply: seq<Byte>) | Receive

  /** The table of entries and the number of the destroy command. */
  datatype Api = Api(entries: seq<Entry>, destroy: nat)

  ghost predicate ApiOk(api: Api) {
    && |api.entries| <= 128 && (forall i :: 0 <= i < |api.entries| ==> EntryOk(api.entries[i]))
    && 1 <= api.destroy <= |api.entries| && api.entries[api.destroy - 1] == Entry([Decl(false, 0, WORD)], 0, false)
  }

  /** The bytes that playing a frame sends back. */
  ghost function Reply(api: Api, f: Frame): nat {
    if 1 <= f.cmdID <= |api.entries| then PlayerReplies(api.entries[f.cmdID - 1], f.payload) else 0
  }

  /** Both reads of `playCoreCommands` find their bytes. */
  predicate CanPlay(s: State) {
    |s.toCore| >= HEADER && |s.toCore| >= HEADER + FromLE(Slice(s.toCore, 4, 4))
  }

  /** The frame at the front of the queue, as the player takes it apart. */
  function Front(s: State): Frame
    requires CanPlay(s)
  {
    Frame(FromLE(Slice(s.toCore, 0, 4)), Slice(s.toCore, HEADER, FromLE(Slice(s.toCore, 4, 4))))
  }

  ghost predicate Next(api: Api, s: State, ev: Event, s': State) {
    match ev
    case Call(cmdID, args, mem, payload) =>
      && s.client.Idle? && 1 <= cmdID <= |api.entries| && cmdID != api.destroy
      && Carries(payload, api.entries[cmdID - 1], args, mem)
      && var waits := SenderWaits(api.entries[cmdID - 1], args);
      s' == s.(toCore := s.toCore + FrameBytes(cmdID, payload), sent := s.sent + [Frame(cmdID, payload)],
               client := if waits == 0 then Idle else Waiting(waits))
    case Destroy(ptr) =>
      ptr < Pow256(WORD) &&
      s' == s.(toCore := s.toCore + FrameBytes(api.destroy, LE(ptr, WORD)), sent :=
          s.sent + [Frame(api.destroy, LE(ptr, WORD))])
    case Play(reply) =>
      CanPlay(s) && |reply| == Reply(api, Front(s)) &&
      s' == s.(toCore := s.toCore[HEADER + |Front(s).payload|..], toClient := s.toClient + reply, played :=
          s.played + [Front(s)])
    case Receive =>
      s.client.Waiting? && |s.toClient| >= s.client.bytes &&
      s' == s.(toClient := s.toClient[s.client.bytes..], client := Idle)
  }

  const START := State([], [], Idle, [], [])

  ghost predicate Steps(api: Api, s: State, s': State) {
    exists ev :: Next(api, s, ev, s')
  }

  ghost predicate Run(api: Api, states: seq<State>) {
    |states| > 0 && states[0] == START && forall i :: 0 <= i < |states| - 1 ==> Steps(api, states[i], states[i + 1])
  }

  /** Frames sent and not played. */
  function Pending(s: State): seq<Frame>
    requires |s.played| <= |s.sent|
  {
    s.sent[|s.played|..]
  }

  function Stream(frames: seq<Frame>): seq<Byte> {
    if |frames| == 0 then [] else FrameBytes(frames[0].cmdID, frames[0].payload) + Stream(frames[1..])
  }

  predicate FrameOk(f: Frame) {
    f.cmdID < 0x1_0000_0000 && |f.payload| < 0x1_0000_0000
  }

  ghost predicate Silent(api: Api, frames: seq<Frame>) {
    forall i :: 0 <= i < |frames| ==> Reply(api, frames[i]) == 0
  }

  /** Only frame `k` will be answered, with `n` bytes. */
  ghost predicate Answered(api: Api, frames: seq<Frame>, k: nat, n: nat) {
    k < |frames| && forall i :: 0 <= i < |frames| ==> Reply(api, frames[i]) == if i == k then n else 0
  }

  /** The frames that are played next are those that were sent next, byte for byte. */
  ghost predicate InSync(s: State) {
    && |s.played| <= |s.sent| && s.played == s.sent[..|s.played|]
    && s.toCore == Stream(Pending(s)) && forall i :: 0 <= i < |Pending(s)| ==> FrameOk(Pending(s)[i])
  }

  /** A client that waits has exactly one answer coming or there, of the size it waits for; one that
      does not wait has none. */
  ghost predicate RepliesOk(api: Api, s: State)
    requires |s.played| <= |s.sent|
  {
    match s.client
    case Idle => s.toClient == [] && Silent(api, Pending(s))
    case Waiting(n) =>
      || (|s.toClient| == n && Silent(api, Pending(s)))
      || (s.toClient == [] && exists k :: Answered(api, Pending(s), k, n))
  }

  ghost predicate Inv(api: Api, s: State) {
    InSync(s) && RepliesOk(api, s)
  }

  lemma {:induction false} StreamAppend(frames: seq<Frame>, f: Frame)
    ensures Stream(frames + [f]) == Stream(frames) + FrameBytes(f.cmdID, f.payload)
  {
    if |frames| > 0 {
      assert (frames + [f])[1..] == frames[1..] + [f];
      StreamAppend(frames[1..], f);
    }
  }

  /** What is at the front of the queue is what was sent. */
  lemma FrontIsFirst(s: State, f: Frame, rest: seq<Byte>)
    requires FrameOk(f) && s.toCore == FrameBytes(f.cmdID, f.payload) + rest
    ensures CanPlay(s) && Front(s) == f && s.toCore[HEADER + |f.payload|..] == rest
  {
    Pow256Values();
    RoundTrip(f.cmdID, 4);
    RoundTrip(|f.payload|, 4);
    assert Slice(s.toCore, 0, 4) == LE(f.cmdID, 4);
    assert Slice(s.toCore, 4, 4) == LE(|f.payload|, 4);
    assert Slice(s.toCore, HEADER, |f.payload|) == f.payload;
  }

  /** Appending a frame keeps the queues in sync. */
  lemma SendInSync(s: State, s': State, f: Frame)
    requires InSync(s) && FrameOk(f)
    requires s'.toCore == s.toCore + FrameBytes(f.cmdID, f.payload) && s'.sent == s.sent + [f] && s'.played == s.played
    ensures InSync(s') && Pending(s') == Pending(s) + [f]
  {
    var before, after := Pending(s), Pending(s');
    assert after == before + [f];
    StreamAppend(before, f);
    forall i | 0 <= i < |after| ensures FrameOk(after[i]) {}
  }

  lemma SilentAppend(api: Api, frames: seq<Frame>, f: Frame)
    requires Silent(api, frames)
    ensures if Reply(api, f) == 0 then Silent(api, frames + [f])
        else Answered(api, frames + [f], |frames|, Reply(api, f))
  {
  }

  /** The reply of a frame that carries a call is what the caller waits for. */
  lemma CallReply(api: Api, ev: Event)
    requires ApiOk(api) && ev.Call? && 1 <= ev.cmdID <= |api.entries|
    requires Carries(ev.payload, api.entries[ev.cmdID - 1], ev.args, ev.mem)
    ensures Reply(api, Frame(ev.cmdID, ev.payload)) == SenderWaits(api.entries[ev.cmdID - 1], ev.args)
    ensures FrameOk(Frame(ev.cmdID, ev.payload))
  {
    FrameFits(api.entries[ev.cmdID - 1], ev.args);
    ReplyAgreement(ev.payload, api.entries[ev.cmdID - 1], ev.args, ev.mem);
  }

  lemma CallInv(api: Api, s: State, ev: Event, s': State)
    requires ApiOk(api) && Inv(api, s) && ev.Call? && Next(api, s, ev, s')
    ensures Inv(api, s')
  {
    var f := Frame(ev.cmdID, ev.payload);
    CallReply(api, ev);
    SendInSync(s, s', f);
    SilentAppend(api, Pending(s), f);
  }

  lemma DestroySilent(api: Api, ptr: nat)
    requires ApiOk(api)
    ensures Reply(api, Frame(api.destroy, LE(ptr, WORD))) == 0
  {
    var d := Decl(false, 0, WORD);
    var params := [Param(false, 0, WORD)];
    assert Lengths(0) == [];
    assert [d][..0] == [];
    assert Expand([d]) == Expand([d][..0]) + params + Lengths(0) == params;
    assert params[..0] == [];
    assert NeedFlush(params) == 0;
  }

  lemma DestroyInv(api: Api, s: State, ev: Event, s': State)
    requires ApiOk(api) && Inv(api, s) && ev.Destroy? && Next(api, s, ev, s')
    ensures Inv(api, s')
  {
    var f := Frame(api.destroy, LE(ev.ptr, WORD));
    SendInSync(s, s', f);
    DestroySilent(api, ev.ptr);
    if k: nat :| s.client.Waiting? && Answered(api, Pending(s), k, s.client.bytes) {
      assert Answered(api, Pending(s'), k, s.client.bytes);
    }
  }

  /** A frame can be played exactly when one is pending, and it is the first. */
  lemma PlayFirst(s: State)
    requires InSync(s)
    ensures CanPlay(s) <==> |Pending(s)| > 0
    ensures CanPlay(s) ==>
        Front(s) == Pending(s)[0] && s.toCore[HEADER + |Front(s).payload|..] == Stream(Pending(s)[1..])
  {
    if |Pending(s)| > 0 { FrontIsFirst(s, Pending(s)[0], Stream(Pending(s)[1..])); }
  }

  lemma PlayInSync(api: Api, s: State, ev: Event, s': State)
    requires InSync(s) && ev.Play? && Next(api, s, ev, s')
    ensures InSync(s') && Pending(s') == Pending(s)[1..] && |Pending(s)| > 0 && |ev.reply| == Reply(api, Pending(s)[0])
  {
    PlayFirst(s);
    assert Pending(s') == Pending(s)[1..];
    assert s'.played == s'.sent[..|s'.played|];
  }

  lemma AnsweredRest(api: Api, frames: seq<Frame>, k: nat, n: nat)
    requires Answered(api, frames, k, n)
    ensures k == 0 ==> Reply(api, frames[0]) == n && Silent(api, frames[1..])
    ensures k > 0 ==> Reply(api, frames[0]) == 0 && Answered(api, frames[1..], k - 1, n)
  {
  }

  lemma PlayInv(api: Api, s: State, ev: Event, s': State)
    requires ApiOk(api) && Inv(api, s) && ev.Play? && Next(api, s, ev, s')
    ensures Inv(api, s') && Pending(s') == Pending(s)[1..]
  {
    PlayInSync(api, s, ev, s');
    if k: nat :| s.client.Waiting? && s.toClient == [] && Answered(api, Pending(s), k, s.client.bytes) {
      AnsweredRest(api, Pending(s), k, s.client.bytes);
    }
  }

  lemma NextInv(api: Api, s: State, ev: Event, s': State)
    requires ApiOk(api) && Inv(api, s) && Next(api, s, ev, s')
    ensures Inv(api, s')
  {
    match ev
    case Call(_, _, _, _) => CallInv(api, s, ev, s');
    case Destroy(_) => DestroyInv(api, s, ev, s');
    case Play(_) => PlayInv(api, s, ev, s');
    case Receive =>
  }

  /** In every state of every run frames are in sync and replies match what is waited for. */
  lemma {:induction false} RunSafe(api: Api, states: seq<State>, i: nat)
    requires ApiOk(api) && Run(api, states) && i < |states|
    ensures Inv(api, states[i])
  {
    if i > 0 {
      RunSafe(api, states, i - 1);
      assert Steps(api, states[i - 1], states[i]);
      var ev :| Next(api, states[i - 1], ev, states[i]);
      NextInv(api, states[i - 1], ev, states[i]);
    }
  }

  /** How many frames have to be played until the answer is there. */
  ghost function Ahead(api: Api, frames: seq<Frame>): nat {
    if |frames| == 0 then 0 else if Reply(api, frames[0]) > 0 then 1 else 1 + Ahead(api, frames[1..])
  }

  lemma {:induction false} AheadAppend(api: Api, frames: seq<Frame>, k: nat, f: Frame)
    requires k < |frames| && Reply(api, frames[k]) > 0
    ensures Ahead(api, frames + [f]) == Ahead(api, frames)
  {
    assert (frames + [f])[1..] == frames[1..] + [f];
    if Reply(api, frames[0]) == 0 { AheadAppend(api, frames[1..], k - 1, f); }
  }

  /** A waiting client gets its answer: if it is not there yet, a frame can be played, and no step but
      playing changes how many have to be. */
  lemma WaitEnds(api: Api, s: State)
    requires ApiOk(api) && Inv(api, s) && s.client.Waiting? && |s.toClient| < s.client.bytes
    ensures CanPlay(s) && Ahead(api, Pending(s)) > 0
    ensures forall ev, s' :: Next(api, s, ev, s') ==> s'.client == s.client && Inv(api, s')
    ensures forall ev, s' :: Next(api, s, ev, s') && ev.Destroy? ==> Ahead(api, Pending(s')) == Ahead(api, Pending(s))
    ensures forall ev, s' :: Next(api, s, ev, s') && ev.Play? ==>
      |s'.toClient| == s.client.bytes || Ahead(api, Pending(s')) == Ahead(api, Pending(s)) - 1
  {
    var k :| Answered(api, Pending(s), k, s.client.bytes);
    PlayFirst(s);
    forall ev, s' | Next(api, s, ev, s')
      ensures s'.client == s.client && Inv(api, s')
      ensures ev.Destroy? ==> Ahead(api, Pending(s')) == Ahead(api, Pending(s))
      ensures ev.Play? ==> |s'.toClient| == s.client.bytes || Ahead(api, Pending(s')) == Ahead(api, Pending(s)) - 1
    {
      NextInv(api, s, ev, s');
      if ev.Destroy? {
        var f := Frame(api.destroy, LE(ev.ptr, WORD));
        SendInSync(s, s', f);
        AheadAppend(api, Pending(s), k, f);
      } else {
        PlayInv(api, s, ev, s');
      }
    }
  }
}
