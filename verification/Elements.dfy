/** Elements are shared: asking for an element that exists returns the existing object.  The model has
    the cache of live elements, the two creation functions, and writing elements to and reading them
    from streams. */
module Elements {

  import opened Bytes
  import opened Common
  import opened Streams

  // ---------------------------------------------------------------------------------------------
  // Components

  /** Codes of data types and kinds (`RsDataType`, `RsDataKind`). */
  const TYPE_NONE := 0
  const TYPE_565 := 13
  const TYPE_5551 := 14
  const TYPE_4444 := 15
  const TYPE_ELEMENT := 1000
  const KIND_USER := 0

  /** `RS_A3D_CLASS_ID_ELEMENT`. */
  const CLASS_ELEMENT := 3

  datatype Component = Component(dataType: nat, kind: nat, norm: bool, vec: nat)

  /** What `Component::set` keeps of its arguments: packed pixel types force their vector size and
      normalization. */
  function Canon(c: Component): Component {
    if c.dataType == TYPE_565 then c.(vec := 3, norm := true)
    else if c.dataType == TYPE_5551 || c.dataType == TYPE_4444 then c.(vec := 4, norm := true)
    else c
  }

  /** The bits of the channels of the packed pixel types. */
  function PixelBits(dataType: nat): seq<nat> {
    if dataType == TYPE_565 then [5, 6, 5] else if dataType == TYPE_5551 then [5, 5, 5, 1]
    else if dataType == TYPE_4444 then [4, 4, 4, 4] else []
  }

  function BitSum(bits: seq<nat>): nat {
    if |bits| == 0 then 0 else BitSum(bits[..|bits| - 1]) + bits[|bits| - 1]
  }

  /** Packed pixels have a vector size of one for each channel, in two bytes, and are normalized; all else is kept. */
  lemma CanonIs(c: Component)
    ensures PixelBits(c.dataType) != [] ==> Canon(c).vec == |PixelBits(c.dataType)| && Canon(c).norm
    ensures PixelBits(c.dataType) != [] ==> BitSum(PixelBits(c.dataType)) == 16
    ensures PixelBits(c.dataType) == [] ==> Canon(c) == c
    ensures Canon(c).dataType == c.dataType && Canon(c).kind == c.kind && Canonical(Canon(c))
  {
    BitSums(5, 6, 5, 0);
    BitSums(5, 5, 5, 1);
    BitSums(4, 4, 4, 4);
  }

  lemma BitSums(a: nat, b: nat, c: nat, d: nat)
    ensures BitSum([a, b, c]) == a + b + c && BitSum([a, b, c, d]) == a + b + c + d
  {
    assert [a, b, c, d][..3] == [a, b, c] && [a, b, c][..2] == [a, b] && [a, b][..1] == [a] && [a][..0] == [];
    assert BitSum([a]) == a;
    assert BitSum([a, b]) == a + b;
  }

  predicate Canonical(c: Component) {
    Canon(c) == c
  }

  // ---------------------------------------------------------------------------------------------
  // Names

  /** What the string functions of C see of a name: it ends at the first zero byte. */
  function CStr(name: seq<Byte>): (r: seq<Byte>)
    ensures |r| <= |name| && (|r| == |name| ==> r == name)
  {
    if |name| == 0 || name[0] == 0 then [] else [name[0]] + CStr(name[1..])
  }

  predicate Plain(name: seq<Byte>) {
    CStr(name) == name
  }

  lemma {:induction false} CStrPlain(name: seq<Byte>)
    ensures Plain(CStr(name))
    ensures Plain(name) <==> 0 !in name
  {
    if |name| > 0 && name[0] != 0 {
      CStrPlain(name[1..]);
      assert CStr(name)[1..] == CStr(name[1..]);
      assert name == [name[0]] + name[1..];
    }
  }

  // ---------------------------------------------------------------------------------------------
  // Elements and the cache

  /** The identity of an element object. */
  type Ref = nat

  datatype Field = Field(e: Ref, name: seq<Byte>, arraySize: nat)

  /** What is stored of fields: the copy of a name has the length that was given, but is read as a C string. */
  function Cut(fields: seq<Field>): (r: seq<Field>)
    ensures |r| == |fields| && forall i :: 0 <= i < |r| ==> r[i] == fields[i].(name := CStr(fields[i].name))
  {
    seq(|fields|, i requires 0 <= i < |fields| => fields[i].(name := CStr(fields[i].name)))
  }

  predicate AllPlain(fields: seq<Field>) {
    forall i :: 0 <= i < |fields| ==> Plain(fields[i].name)
  }

  lemma PlainMore(fields: seq<Field>, f: Field)
    requires AllPlain(fields) && Plain(f.name)
    ensures AllPlain(fields + [f])
  {
  }

  lemma CutPlain(fields: seq<Field>)
    ensures AllPlain(Cut(fields)) && (AllPlain(fields) ==> Cut(fields) == fields)
  {
    forall i | 0 <= i < |fields| ensures Plain(Cut(fields)[i].name) { CStrPlain(fields[i].name); }
  }

  /** An element: a component, or fields with components of their own. */
  datatype Elem = Elem(comp: Component, fields: seq<Field>)

  type Heap = map<Ref, Elem>

  /** The component of an element with fields. */
  const PLAIN := Component(TYPE_NONE, KIND_USER, false, 1)

  /** Fields refer to older live elements; an element with fields has the component `PLAIN`. */
  ghost predicate HeapOk(h: Heap) {
    forall r :: r in h ==> ElemOk(h, r)
  }

  predicate ElemOk(h: Heap, r: Ref)
    requires r in h
  {
    Canonical(h[r].comp) && (|h[r].fields| > 0 ==> h[r].comp == PLAIN) && AllPlain(h[r].fields) &&
    forall i :: 0 <= i < |h[r].fields| ==> h[r].fields[i].e in h && h[r].fields[i].e < r
  }

  /** The live elements are those in the cache, each once. */
  ghost predicate CacheOk(h: Heap, cache: seq<Ref>, next: Ref) {
    && HeapOk(h) && (forall r :: r in h ==> r < next && r in cache)
    && (forall i :: 0 <= i < |cache| ==> cache[i] in h)
    && (forall i, j :: 0 <= i < j < |cache| ==> cache[i] != cache[j])
  }

  /** No two elements have the same component and the same fields. */
  ghost predicate Distinct(h: Heap) {
    forall a, b :: a in h && b in h && a != b ==> h[a] != h[b]
  }

  /** An element all the way down. */
  datatype Tree = Leaf(comp: Component) | Struct(fields: seq<Branch>)

  datatype Branch = Branch(name: seq<Byte>, arraySize: nat, tree: Tree)

  ghost function Unfold(h: Heap, r: Ref): Tree
    requires HeapOk(h) && r in h
    decreases r
  {
    assert ElemOk(h, r);
    if |h[r].fields| == 0 then Leaf(h[r].comp)
    else Struct(seq(|h[r].fields|, i requires 0 <= i < |h[r].fields| =>
      Branch(h[r].fields[i].name, h[r].fields[i].arraySize, Unfold(h, h[r].fields[i].e))))
  }

  /** No two elements are the same all the way down. */
  ghost predicate Consed(h: Heap)
    requires HeapOk(h)
  {
    forall a, b :: a in h && b in h && Unfold(h, a) == Unfold(h, b) ==> a == b
  }

  lemma {:induction false} UnfoldDistinct(h: Heap, a: Ref, b: Ref)
    requires HeapOk(h) && Distinct(h) && a in h && b in h && Unfold(h, a) == Unfold(h, b)
    ensures a == b
    decreases a
  {
    assert ElemOk(h, a) && ElemOk(h, b);
    var fa, fb := h[a].fields, h[b].fields;
    if |fa| > 0 {
      var ta, tb := Unfold(h, a), Unfold(h, b);
      assert |ta.fields| == |fa| && |tb.fields| == |fb|;
      forall i | 0 <= i < |fa| ensures fa[i] == fb[i] {
        assert ta.fields[i] == tb.fields[i];
        UnfoldDistinct(h, fa[i].e, fb[i].e);
      }
      assert fa == fb;
    }
  }

  /** Comparing one level, as the creation functions do, is enough. */
  lemma ConsedIffDistinct(h: Heap)
    requires HeapOk(h)
    ensures Consed(h) <==> Distinct(h)
  {
    if Distinct(h) {
      forall a, b | a in h && b in h && Unfold(h, a) == Unfold(h, b) ensures a == b { UnfoldDistinct(h, a, b); }
    }
    if Consed(h) {
      forall a, b | a in h && b in h && h[a] == h[b] ensures a == b { assert Unfold(h, a) == Unfold(h, b); }
    }
  }

  /** Elements stay as they are while others are added. */
  ghost predicate Kept(h: Heap, h': Heap) {
    forall r :: r in h ==> r in h' && h'[r] == h[r]
  }

  lemma {:induction false} UnfoldKept(h: Heap, h': Heap, r: Ref)
    requires HeapOk(h) && HeapOk(h') && Kept(h, h') && r in h
    ensures Unfold(h', r) == Unfold(h, r)
    decreases r
  {
    assert ElemOk(h, r);
    var f := h[r].fields;
    if |f| > 0 {
      forall i | 0 <= i < |f| ensures Unfold(h', r).fields[i] == Unfold(h, r).fields[i] { UnfoldKept(h, h', f[i].e); }
      assert Unfold(h', r).fields == Unfold(h, r).fields;
    }
  }

  // ---------------------------------------------------------------------------------------------
  // Creation

  lemma CacheGrows(h: Heap, cache: seq<Ref>, next: Ref, e: Elem)
    requires CacheOk(h, cache, next) && AllPlain(e.fields) && Canonical(e.comp) && (|e.fields| > 0 ==> e.comp == PLAIN)
    requires forall i :: 0 <= i < |e.fields| ==> e.fields[i].e in h
    ensures next !in h && CacheOk(h[next := e], cache + [next], next + 1)
  {
    var h' := h[next := e];
    forall r | r in h' ensures ElemOk(h', r) {
      if r != next { assert ElemOk(h, r); }
    }
  }

  /** The elements with fields `fields`, or all without fields if there are none. */
  ghost predicate HasFields(h: Heap, fields: seq<Field>) {
    exists r :: r in h && h[r].fields == fields
  }

  ghost predicate HasElem(h: Heap, e: Elem) {
    exists r :: r in h && h[r] == e
  }

  /** The comparison of fields in `createRef`: names agree if the stored one has the given length, and both are
      the same C string. */
  method SameFields(a: seq<Field>, b: seq<Field>) returns (same: bool)
    requires |a| == |b| && AllPlain(a)
    ensures same == (a == b)
  {
    var i := 0;
    while i < |b|
      invariant 0 <= i <= |b|
      invariant forall j :: 0 <= j < i ==> a[j] == b[j]
    {
      if a[i].e != b[i].e || |a[i].name| != |b[i].name| || a[i].name != CStr(b[i].name) ||
        a[i].arraySize != b[i].arraySize { return false; }
      i := i + 1;
    }
    return true;
  }

  // ---------------------------------------------------------------------------------------------
  // Reading

  /** What the head of an element says. */
  datatype Head = Head(comp: Component, count: nat)

  /** Reading the head, with `loadFromStream` of the component; wrong classes are refused. */
  function ReadHead(data: seq<Byte>, pos: nat): (r: Got<Head>)
    ensures r.Got? ==> pos < r.next <= |data| && Canonical(r.value.comp)
  {
    AlignUpAbove(pos, 4);
    var id := ReadNum(data, pos, 4);
    if id.Short? || id.value != CLASS_ELEMENT then Short else
      var name := ReadStr(data, id.next);
      if name.Short? then Short else
        ReadStrMoves(data, id.next, name);
        ReadComponent(data, name.next)
  }

  function ReadComponent(data: seq<Byte>, pos: nat): (r: Got<Head>)
    ensures r.Got? ==> pos < r.next <= |data| && Canonical(r.value.comp)
  {
    var t := ReadNum(data, pos, 1);
    if t.Short? then Short else
      var k := ReadNum(data, t.next, 1);
      if k.Short? then Short else
        var n := ReadNum(data, k.next, 1);
        if n.Short? then Short else
          AlignUpAbove(n.next, 4);
          var v := ReadNum(data, n.next, 4);
          if v.Short? then Short else
            AlignUpAbove(v.next, 4);
            var c := ReadNum(data, v.next, 4);
            if c.Short? then Short else Got(Head(Canon(Component(t.value, k.value, n.value != 0, v.value)), c.value),
                c.next)
  }

  lemma ReadStrMoves(data: seq<Byte>, pos: nat, r: Got<seq<Byte>>)
    requires r.Got? && r == ReadStr(data, pos)
    ensures pos < r.next <= |data|
  {
    AlignUpAbove(pos, 4);
  }

  function Left(data: seq<Byte>, pos: nat): nat {
    if pos <= |data| then |data| - pos else 0
  }

  /** The element that the bytes describe. */
  function ReadTree(data: seq<Byte>, pos: nat): (r: Got<Tree>)
    ensures r.Got? ==> pos < r.next <= |data|
    decreases Left(data, pos), 0
  {
    match ReadHead(data, pos)
    case Short => Short
    case Got(head, p) =>
      if head.count == 0 then Got(Leaf(head.comp), p) else
        match ReadFields(data, p, head.count)
        case Short => Short
        case Got(fields, q) => Got(Struct(fields), q)
  }

  function ReadFields(data: seq<Byte>, pos: nat, n: nat): (r: Got<seq<Branch>>)
    requires pos <= |data|
    ensures r.Got? ==> pos <= r.next <= |data| && |r.value| == n
    decreases Left(data, pos), n + 1
  {
    if n == 0 then Got([], pos) else
      match ReadFields(data, pos, n - 1)
      case Short => Short
      case Got(front, p) =>
        match ReadBranch(data, p)
        case Short => Short
        case Got(b, q) => Got(front + [b], q)
  }

  function ReadBranch(data: seq<Byte>, pos: nat): (r: Got<Branch>)
    ensures r.Got? ==> pos < r.next <= |data|
    decreases Left(data, pos), 1
  {
    var name := ReadStr(data, pos);
    if name.Short? then Short else
      ReadStrMoves(data, pos, name);
      AlignUpAbove(name.next, 4);
      var arraySize := ReadNum(data, name.next, 4);
      if arraySize.Short? then Short else
        match ReadTree(data, arraySize.next)
        case Short => Short
        case Got(t, q) => Got(Branch(CStr(name.value), arraySize.value, t), q)
  }

  lemma {:induction false} ReadFieldsShort(data: seq<Byte>, pos: nat, n: nat, count: nat)
    requires pos <= |data| && n <= count && ReadFields(data, pos, n).Short?
    ensures ReadFields(data, pos, count).Short?
    decreases count
  {
    if n < count { ReadFieldsShort(data, pos, n, count - 1); }
  }

  /** The branches that fields stand for. */
  ghost function Branches(h: Heap, fs: seq<Field>): seq<Branch>
    requires HeapOk(h) && forall i :: 0 <= i < |fs| ==> fs[i].e in h
  {
    seq(|fs|, i requires 0 <= i < |fs| => Branch(fs[i].name, fs[i].arraySize, Unfold(h, fs[i].e)))
  }

  lemma BranchesKept(h: Heap, h': Heap, fs: seq<Field>)
    requires HeapOk(h) && HeapOk(h') && Kept(h, h') && forall i :: 0 <= i < |fs| ==> fs[i].e in h
    ensures Branches(h', fs) == Branches(h, fs)
  {
    forall i | 0 <= i < |fs| ensures Branches(h', fs)[i] == Branches(h, fs)[i] { UnfoldKept(h, h', fs[i].e); }
  }

  // The steps of reading, one at a time.

  lemma TreeStep(data: seq<Byte>, pos: nat, c: Component, n: nat, p: nat)
    requires ReadHead(data, pos) == Got(Head(c, n), p)
    ensures n == 0 ==> ReadTree(data, pos) == Got(Leaf(c), p)
    ensures n > 0 ==> p <= |data| && forall bs, q :: ReadFields(data, p, n) == Got(bs, q) ==>
        ReadTree(data, pos) == Got(Struct(bs), q)
  {
  }

  lemma FieldStep(data: seq<Byte>, pos: nat, n: nat, bs: seq<Branch>, p: nat, b: Branch, q: nat)
    requires pos <= |data| && n > 0 && ReadFields(data, pos, n - 1) == Got(bs, p) && ReadBranch(data, p) == Got(b, q)
    ensures ReadFields(data, pos, n) == Got(bs + [b], q)
  {
  }

  lemma BranchStep(data: seq<Byte>, pos: nat, name: seq<Byte>, p: nat, arraySize: nat, q: nat, t: Tree, end: nat)
    requires ReadStr(data, pos) == Got(name, p) && ReadNum(data, p, 4) == Got(arraySize, q) &&
        ReadTree(data, q) == Got(t, end)
    ensures ReadBranch(data, pos) == Got(Branch(CStr(name), arraySize, t), end)
  {
  }

  lemma UnfoldIs(h: Heap, r: Ref)
    requires HeapOk(h) && r in h
    ensures |h[r].fields| == 0 ==> Unfold(h, r) == Leaf(h[r].comp)
    ensures forall i :: 0 <= i < |h[r].fields| ==> h[r].fields[i].e in h
    ensures |h[r].fields| > 0 ==> Unfold(h, r) == Struct(Branches(h, h[r].fields))
  {
    assert ElemOk(h, r);
    if |h[r].fields| > 0 { assert Unfold(h, r).fields == Branches(h, h[r].fields); }
  }

  lemma BranchesStep(h: Heap, h': Heap, fs: seq<Field>, f: Field)
    requires HeapOk(h) && HeapOk(h') && Kept(h, h') && f.e in h' && forall i :: 0 <= i < |fs| ==> fs[i].e in h
    ensures Branches(h', fs + [f]) == Branches(h, fs) + [Branch(f.name, f.arraySize, Unfold(h', f.e))]
  {
    BranchesKept(h, h', fs);
    var b := Branch(f.name, f.arraySize, Unfold(h', f.e));
    forall i | 0 <= i < |fs| + 1 ensures Branches(h', fs + [f])[i] == (Branches(h', fs) + [b])[i] {}
  }

  /** The fields `fs` are what has been read from `from` up to `pos`. */
  ghost predicate FieldsLoaded(h: Heap, data: seq<Byte>, from: nat, fs: seq<Field>, pos: nat) {
    && HeapOk(h) && from <= |data| && (forall i :: 0 <= i < |fs| ==> fs[i].e in h)
    && ReadFields(data, from, |fs|) == Got(Branches(h, fs), pos)
  }

  lemma LoadedMore(h: Heap, h': Heap, data: seq<Byte>, from: nat, fs: seq<Field>, f: Field, p: nat, q: nat,
      all: seq<Field>)
    requires FieldsLoaded(h, data, from, fs, p) && HeapOk(h') && Kept(h, h') && f.e in h' && all == fs + [f]
    requires ReadBranch(data, p) == Got(Branch(f.name, f.arraySize, Unfold(h', f.e)), q)
    ensures FieldsLoaded(h', data, from, all, q)
  {
    FieldsStep(h, h', data, from, fs, f, p, q);
    assert |all| == |fs| + 1;
  }

  lemma FieldMissing(data: seq<Byte>, from: nat, n: nat, p: nat)
    requires from <= |data| && ReadFields(data, from, n).Got? && ReadFields(data, from, n).next == p
    requires ReadBranch(data, p).Short?
    ensures ReadFields(data, from, n + 1).Short?
  {
  }

  lemma FieldsStep(h: Heap, h': Heap, data: seq<Byte>, from: nat, fs: seq<Field>, f: Field, p: nat, q: nat)
    requires HeapOk(h) && HeapOk(h') && Kept(h, h') && from <= |data| && f.e in h' && forall i :: 0 <= i < |fs| ==>
        fs[i].e in h
    requires ReadFields(data, from, |fs|) == Got(Branches(h, fs), p)
    requires ReadBranch(data, p) == Got(Branch(f.name, f.arraySize, Unfold(h', f.e)), q)
    ensures (forall i :: 0 <= i < |fs + [f]| ==> (fs + [f])[i].e in h') &&
        ReadFields(data, from, |fs| + 1) == Got(Branches(h', fs + [f]), q)
  {
    BranchesStep(h, h', fs, f);
    FieldStep(data, from, |fs| + 1, Branches(h, fs), p, Branch(f.name, f.arraySize, Unfold(h', f.e)), q);
  }

  method LoadHead(s: IStream) returns (head: Got<Head>)
    modifies s`pos
    ensures head == ReadHead(s.data, old(s.pos)) && (head.Got? ==> s.pos == head.next)
  {
    var id := s.LoadNum(4);
    if id.Short? || id.value != CLASS_ELEMENT { return Short; }
    var name := s.LoadString();
    if name.Short? { return Short; }
    head := LoadComponent(s);
  }

  /** `Component::loadFromStream`, and the number of fields. */
  method LoadComponent(s: IStream) returns (head: Got<Head>)
    modifies s`pos
    ensures head == ReadComponent(s.data, old(s.pos)) && (head.Got? ==> s.pos == head.next)
  {
    var t := s.LoadNum(1);
    if t.Short? { return Short; }
    var k := s.LoadNum(1);
    if k.Short? { return Short; }
    var n := s.LoadNum(1);
    if n.Short? { return Short; }
    var v := s.LoadNum(4);
    if v.Short? { return Short; }
    var c := s.LoadNum(4);
    if c.Short? { return Short; }
    return Got(Head(Canon(Component(t.value, k.value, n.value != 0, v.value)), c.value), s.pos);
  }

  class ElementState {
    var heap: Heap
    var cache: seq<Ref>
    /** The next new object. */
    var next: Ref

    ghost predicate Valid()
      reads this
    {
      CacheOk(heap, cache, next)
    }

    constructor ()
      ensures Valid() && Distinct(heap) && heap == map[]
    {
      heap, cache, next := map[], [], 0;
    }

    /** `createRef` for a component.  It looks for the arguments as they are given, but stores what
        `Component::set` makes of them. */
    method CreateLeaf(c: Component) returns (r: Ref)
      requires Valid()
      modifies this
      ensures Valid() && r in heap
      ensures HasElem(old(heap), Elem(c, [])) ==>
          heap == old(heap) && cache == old(cache) && next == old(next) && heap[r] == Elem(c, [])
      ensures !HasElem(old(heap), Elem(c, [])) ==> r == old(next) && heap == old(heap)[r := Elem(Canon(c), [])]
      ensures Distinct(old(heap)) ==> (Distinct(heap) <==>
          HasElem(old(heap), Elem(c, [])) || !HasElem(old(heap), Elem(Canon(c), [])))
      ensures Distinct(old(heap)) && Canonical(c) ==> Distinct(heap)
      ensures forall x :: x in old(heap) ==> x in heap && heap[x] == old(heap)[x]
    {
      var found := FindLeaf(c);
      if found.Some? { return found.value; }
      r := Insert(Elem(Canon(c), []));
      if Distinct(old(heap)) { LeafDistinct(old(heap), r, c); }
    }

    /** A new object, at the end of the cache. */
    method Insert(e: Elem) returns (r: Ref)
      requires Valid() && Canonical(e.comp) && (|e.fields| > 0 ==> e.comp == PLAIN) && AllPlain(e.fields)
      requires forall i :: 0 <= i < |e.fields| ==> e.fields[i].e in heap
      modifies this
      ensures Valid() && r == old(next) && r !in old(heap) && heap == old(heap)[r := e]
    {
      CacheGrows(heap, cache, next, e);
      r := next;
      heap, cache, next := heap[r := e], cache + [r], next + 1;
    }

    /** The search over the cache for a component. */
    method FindLeaf(c: Component) returns (r: Option<Ref>)
      requires Valid()
      ensures r.None? <==> !HasElem(heap, Elem(c, []))
      ensures r.Some? ==> r.value in heap && heap[r.value] == Elem(c, [])
    {
      var ct := 0;
      while ct < |cache|
        invariant 0 <= ct <= |cache|
        invariant forall i :: 0 <= i < ct ==> heap[cache[i]] != Elem(c, [])
      {
        if |heap[cache[ct]].fields| == 0 && heap[cache[ct]].comp == c { return Some(cache[ct]); }
        ct := ct + 1;
      }
      assert forall i :: i in heap ==> i in cache;
      return None;
    }

    /** `createRef` for fields.  It looks for names as they are given, but stores what C sees of them. */
    method CreateStruct(fields: seq<Field>) returns (r: Ref)
      requires Valid() && forall i :: 0 <= i < |fields| ==> fields[i].e in heap
      modifies this
      ensures Valid() && r in heap
      ensures HasFields(old(heap), fields) ==>
          heap == old(heap) && cache == old(cache) && next == old(next) && heap[r].fields == fields
      ensures !HasFields(old(heap), fields) ==> r == old(next) && heap == old(heap)[r := Elem(PLAIN, Cut(fields))]
      ensures Distinct(old(heap)) ==> (Distinct(heap) <==>
          HasFields(old(heap), fields) || !HasFields(old(heap), Cut(fields)))
      ensures Distinct(old(heap)) && AllPlain(fields) ==> Distinct(heap)
      ensures forall x :: x in old(heap) ==> x in heap && heap[x] == old(heap)[x]
    {
      var found := FindStruct(fields);
      if found.Some? { return found.value; }
      CutPlain(fields);
      r := Insert(Elem(PLAIN, Cut(fields)));
      if Distinct(old(heap)) { StructDistinct(old(heap), r, fields); }
    }

    /** The search over the cache for fields. */
    method FindStruct(fields: seq<Field>) returns (r: Option<Ref>)
      requires Valid()
      ensures r.None? <==> !HasFields(heap, fields)
      ensures r.Some? ==> r.value in heap && heap[r.value].fields == fields
    {
      var ct := 0;
      while ct < |cache|
        invariant 0 <= ct <= |cache|
        invariant forall i :: 0 <= i < ct ==> heap[cache[i]].fields != fields
      {
        if |heap[cache[ct]].fields| == |fields| {
          assert ElemOk(heap, cache[ct]);
          var same := SameFields(heap[cache[ct]].fields, fields);
          if same { return Some(cache[ct]); }
        }
        ct := ct + 1;
      }
      assert forall i :: i in heap ==> i in cache;
      return None;
    }

    /** `createFromStream`: an element that is what the bytes describe, all the way down.  Reading never
        makes two elements that are the same, since components come out of it in canonical form. */
    method CreateFromStream(s: IStream) returns (e: Option<Ref>)
      requires Valid() && Distinct(heap)
      modifies this, s`pos
      ensures Valid() && Distinct(heap) && Kept(old(heap), heap)
      ensures e.None? <==> ReadTree(s.data, old(s.pos)).Short?
      ensures e.Some? ==> e.value in heap && ReadTree(s.data, old(s.pos)) == Got(Unfold(heap, e.value), s.pos)
      decreases Left(s.data, s.pos), 0
    {
      var head := LoadHead(s);
      if head.Short? { return None; }
      if head.value.count == 0 {
        var leaf := CreateLeaf(head.value.comp);
        return Some(leaf);
      }
      var fields := LoadFields(s, head.value.count);
      if fields.None? { return None; }
      ghost var h := heap;
      CutPlain(fields.value);
      var elem := CreateStruct(fields.value);
      BranchesKept(h, heap, fields.value);
      assert Unfold(heap, elem).fields == Branches(heap, fields.value);
      return Some(elem);
    }

    /** The loop over the fields in `createFromStream`. */
    method LoadFields(s: IStream, count: nat) returns (fields: Option<seq<Field>>)
      requires Valid() && Distinct(heap) && s.pos <= |s.data| && count > 0
      modifies this, s`pos
      ensures Valid() && Distinct(heap) && Kept(old(heap), heap)
      ensures fields.None? <==> ReadFields(s.data, old(s.pos), count).Short?
      ensures fields.Some? ==> |fields.value| == count && (forall i :: 0 <= i < count ==> fields.value[i].e in heap)
      ensures fields.Some? ==> AllPlain(fields.value)
      ensures fields.Some? ==> ReadFields(s.data, old(s.pos), count) == Got(Branches(heap, fields.value), s.pos)
      decreases Left(s.data, s.pos), 3
    {
      var fs: seq<Field> := [];
      ghost var from := s.pos;
      assert Branches(heap, fs) == [];
      while |fs| < count
        invariant |fs| <= count && Valid() && Distinct(heap) && Kept(old(heap), heap)
        invariant FieldsLoaded(heap, s.data, from, fs, s.pos) && AllPlain(fs)
        decreases count - |fs|
      {
        var more := LoadNext(s, fs, from);
        if more.None? {
          ReadFieldsShort(s.data, from, |fs| + 1, count);
          return None;
        }
        fs := more.value;
      }
      return Some(fs);
    }

    /** One field more. */
    method LoadNext(s: IStream, fs: seq<Field>, ghost from: nat) returns (more: Option<seq<Field>>)
      requires Valid() && Distinct(heap) && FieldsLoaded(heap, s.data, from, fs, s.pos) && AllPlain(fs)
      modifies this, s`pos
      ensures Valid() && Distinct(heap) && Kept(old(heap), heap)
      ensures more.None? ==> from <= |s.data| && ReadFields(s.data, from, |fs| + 1).Short?
      ensures more.Some? ==> |more.value| == |fs| + 1 && FieldsLoaded(heap, s.data, from, more.value, s.pos)
      ensures more.Some? ==> AllPlain(more.value)
      decreases Left(s.data, s.pos), 2
    {
      ghost var h, at := heap, s.pos;
      var f := LoadField(s);
      if f.None? {
        FieldMissing(s.data, from, |fs|, at);
        return None;
      }
      var all := fs + [f.value];
      LoadedMore(h, heap, s.data, from, fs, f.value, at, s.pos, all);
      PlainMore(fs, f.value);
      return Some(all);
    }

    method LoadField(s: IStream) returns (f: Option<Field>)
      requires Valid() && Distinct(heap)
      modifies this, s`pos
      ensures Valid() && Distinct(heap) && Kept(old(heap), heap)
      ensures f.None? <==> ReadBranch(s.data, old(s.pos)).Short?
      ensures f.Some? ==> f.value.e in heap && Plain(f.value.name)
      ensures f.Some? ==>
          ReadBranch(s.data, old(s.pos)) == Got(Branch(f.value.name, f.value.arraySize, Unfold(heap, f.value.e)), s.pos)
      decreases Left(s.data, s.pos), 1
    {
      var name := s.LoadString();
      if name.Short? { return None; }
      ReadStrMoves(s.data, old(s.pos), name);
      AlignUpAbove(name.next, 4);
      var arraySize := s.LoadNum(4);
      if arraySize.Short? { return None; }
      var sub := CreateFromStream(s);
      if sub.None? { return None; }
      CStrPlain(name.value);
      return Some(Field(sub.value, CStr(name.value), arraySize.value));
    }

    /** `preDestroy`, for an element that no other refers to. */
    method PreDestroy(r: Ref)
      requires Valid() && r in heap && forall a, i :: a in heap && 0 <= i < |heap[a].fields| ==>
          heap[a].fields[i].e != r
      modifies this
      ensures Valid() && heap == old(heap) - {r} && next == old(next) && (Distinct(old(heap)) ==> Distinct(heap))
    {
      var ct := 0;
      while ct < |cache|
        invariant 0 <= ct <= |cache| && cache == old(cache) && heap == old(heap) && next == old(next)
        invariant forall i :: 0 <= i < ct ==> cache[i] != r
      {
        if cache[ct] == r {
          cache := cache[..ct] + cache[ct + 1..];
          break;
        }
        ct := ct + 1;
      }
      heap := heap - {r};
      Removed(old(heap), old(cache), next, r, ct);
    }
  }

  lemma Removed(h: Heap, cache: seq<Ref>, next: Ref, r: Ref, ct: nat)
    requires CacheOk(h, cache, next) && ct < |cache| && cache[ct] == r
    requires forall a, i :: a in h && 0 <= i < |h[a].fields| ==> h[a].fields[i].e != r
    ensures CacheOk(h - {r}, cache[..ct] + cache[ct + 1..], next)
  {
    var h', rest := h - {r}, cache[..ct] + cache[ct + 1..];
    assert forall i :: 0 <= i < |rest| ==> rest[i] == cache[if i < ct then i else i + 1];
    forall a | a in h' ensures a in rest && ElemOk(h', a) {
      assert a in cache && ElemOk(h, a);
      var i :| 0 <= i < |cache| && cache[i] == a;
      assert rest[if i < ct then i else i - 1] == a;
    }
  }

  /** Creating an element without fields keeps elements distinct exactly if it is found as asked for,
      or nothing has the component that is stored instead. */
  lemma LeafDistinct(h: Heap, next: Ref, c: Component)
    requires Distinct(h) && next !in h && !HasElem(h, Elem(c, []))
    ensures Distinct(h[next := Elem(Canon(c), [])]) <==> !HasElem(h, Elem(Canon(c), []))
  {
    var h' := h[next := Elem(Canon(c), [])];
    if r :| r in h && h[r] == Elem(Canon(c), []) { assert h'[r] == h'[next] && r != next; }
  }

  lemma StructDistinct(h: Heap, next: Ref, fields: seq<Field>)
    requires HeapOk(h) && Distinct(h) && next !in h && !HasFields(h, fields)
    ensures Distinct(h[next := Elem(PLAIN, Cut(fields))]) <==> !HasFields(h, Cut(fields))
  {
    var h' := h[next := Elem(PLAIN, Cut(fields))];
    if r :| r in h && h[r].fields == Cut(fields) {
      assert ElemOk(h, r);
      CutPlain(fields);
      assert fields != [];
      assert h'[r] == h'[next] && r != next;
    } else {
      forall r | r in h ensures h[r] != Elem(PLAIN, Cut(fields)) { assert h[r].fields != Cut(fields); }
    }
  }

  /** Asking twice for a field whose name has a zero byte in it makes two elements that are the same. */
  lemma ZeroInName(e: Ref, name: seq<Byte>)
    requires 0 in name
    ensures var fields := [Field(e, name, 1)];
      var h: Heap := map[e + 1 := Elem(PLAIN, Cut(fields))];
      !HasFields(map[], fields) && !HasFields(h, fields) && HasFields(h, Cut(fields))
  {
    CStrPlain(name);
    var fields := [Field(e, name, 1)];
    var h: Heap := map[e + 1 := Elem(PLAIN, Cut(fields))];
    assert h[e + 1].fields == Cut(fields) && Cut(fields)[0].name != fields[0].name;
  }

  /** Asking twice for 5-6-5 pixels with vector size 1 makes two elements that are the same. */
  lemma NotCanonicalTwice()
    ensures var c := Component(TYPE_565, 10, true, 1);
      var h := map[0 := Elem(Canon(c), [])];
      !HasElem(map[], Elem(c, [])) && !HasElem(h, Elem(c, [])) && !Distinct(h[1 := Elem(Canon(c), [])])
  {
    var c := Component(TYPE_565, 10, true, 1);
    var h: Heap := map[0 := Elem(Canon(c), [])];
    var h' := h[1 := Elem(Canon(c), [])];
    assert h'[0] == h'[1];
  }

  // ---------------------------------------------------------------------------------------------
  // Writing

  /** The items before the fields: class, name, component and number of fields. */
  const HEAD := 7

  function HeadItems(c: Component, name: seq<Byte>, count: nat): seq<Item> {
    [Num(U32, CLASS_ELEMENT), StrItem(name), Num(U8, c.dataType % 256), Num(U8, c.kind % 256),
        Num(U8, if c.norm then 1 else 0),
     Num(U32, c.vec), Num(U32, count)]
  }

  type Names = Ref -> seq<Byte>

  /** `serialize`. */
  ghost function Items(h: Heap, names: Names, r: Ref): (items: seq<Item>)
    requires HeapOk(h) && r in h
    decreases r, |h[r].fields| + 1
  {
    HeadItems(h[r].comp, names(r), |h[r].fields|) + FieldItems(h, names, r, |h[r].fields|)
  }

  ghost function FieldItems(h: Heap, names: Names, r: Ref, n: nat): seq<Item>
    requires HeapOk(h) && r in h && n <= |h[r].fields|
    decreases r, n
  {
    if n == 0 then [] else
      assert ElemOk(h, r);
      var f := h[r].fields[n - 1];
      FieldItems(h, names, r, n - 1) + BranchItems(h, names, f)
  }

  ghost function BranchItems(h: Heap, names: Names, f: Field): seq<Item>
    requires HeapOk(h) && f.e in h
    decreases f.e, |h[f.e].fields| + 2
  {
    [StrItem(f.name), Num(U32, f.arraySize)] + Items(h, names, f.e)
  }

  /** One byte each for type and kind can hold the component, so it is no reference. */
  predicate Fits(c: Component) {
    c.dataType < 256 && c.kind < 256
  }

  /** The components that `r` is made of fit. */
  ghost predicate Writable(h: Heap, r: Ref)
    requires HeapOk(h) && r in h
    decreases r
  {
    assert ElemOk(h, r);
    Fits(h[r].comp) && forall i :: 0 <= i < |h[r].fields| ==> Writable(h, h[r].fields[i].e)
  }

  predicate Small(t: Tree) {
    match t
    case Leaf(c) => Fits(c)
    case Struct(fields) => forall i :: 0 <= i < |fields| ==> Small(fields[i].tree)
  }

  lemma {:induction false} SmallIffWritable(h: Heap, r: Ref)
    requires HeapOk(h) && r in h
    ensures Small(Unfold(h, r)) <==> Writable(h, r)
    decreases r
  {
    assert ElemOk(h, r);
    var f := h[r].fields;
    UnfoldIs(h, r);
    forall i | 0 <= i < |f| ensures Small(Unfold(h, f[i].e)) <==> Writable(h, f[i].e) { SmallIffWritable(h, f[i].e); }
    if |f| > 0 {
      assert forall i :: 0 <= i < |f| ==> Unfold(h, r).fields[i].tree == Unfold(h, f[i].e);
    }
  }

  lemma ByteRead(data: seq<Byte>, pos: nat)
    ensures ReadNum(data, pos, 1).Got? ==> ReadNum(data, pos, 1).value < 256
  {
    Pow256Values();
    if ReadNum(data, pos, 1).Got? { BytesBack(Slice(data, AlignUp(pos, 1), 1)); }
  }

  lemma HeadFits(data: seq<Byte>, pos: nat)
    ensures ReadComponent(data, pos).Got? ==> Fits(ReadComponent(data, pos).value.comp)
  {
    ByteRead(data, pos);
    var t := ReadNum(data, pos, 1);
    if t.Got? { ByteRead(data, t.next); }
  }

  /** What is read fits. */
  lemma {:induction false} TreeSmall(data: seq<Byte>, pos: nat)
    ensures ReadTree(data, pos).Got? ==> Small(ReadTree(data, pos).value)
    decreases Left(data, pos), 0
  {
    var head := ReadHead(data, pos);
    if head.Got? {
      var id := ReadNum(data, pos, 4);
      HeadFits(data, ReadStr(data, id.next).next);
      if head.value.count > 0 { FieldsSmall(data, head.next, head.value.count); }
    }
  }

  lemma {:induction false} FieldsSmall(data: seq<Byte>, pos: nat, n: nat)
    requires pos <= |data|
    ensures var r := ReadFields(data, pos, n); r.Got? ==> forall i :: 0 <= i < n ==> Small(r.value[i].tree)
    decreases Left(data, pos), n + 1
  {
    if n > 0 {
      FieldsSmall(data, pos, n - 1);
      var front := ReadFields(data, pos, n - 1);
      if front.Got? { BranchSmall(data, front.next); }
    }
  }

  lemma {:induction false} BranchSmall(data: seq<Byte>, pos: nat)
    ensures ReadBranch(data, pos).Got? ==> Small(ReadBranch(data, pos).value.tree)
    decreases Left(data, pos), 1
  {
    var name := ReadStr(data, pos);
    if name.Got? {
      ReadStrMoves(data, pos, name);
      AlignUpAbove(name.next, 4);
      var arraySize := ReadNum(data, name.next, 4);
      if arraySize.Got? { TreeSmall(data, arraySize.next); }
    }
  }

  predicate ItemsAt(items: seq<Item>, m: nat, sub: seq<Item>) {
    m + |sub| <= |items| && items[m..m + |sub|] == sub
  }

  lemma ItemsSplit(items: seq<Item>, m: nat, a: seq<Item>, b: seq<Item>)
    requires ItemsAt(items, m, a + b)
    ensures ItemsAt(items, m, a) && ItemsAt(items, m + |a|, b)
  {
    assert items[m..m + |a|] == items[m..m + |a + b|][..|a|];
    assert items[m + |a|..m + |a| + |b|] == items[m..m + |a + b|][|a|..];
  }

  lemma ItemAt(items: seq<Item>, m: nat, sub: seq<Item>, i: nat)
    requires ItemsAt(items, m, sub) && i < |sub|
    ensures items[m + i] == sub[i]
  {
    assert items[m..m + |sub|][i] == sub[i];
  }

  lemma HeadNum(data: seq<Byte>, items: seq<Item>, ends: seq<nat>, m: nat, head: seq<Item>, i: nat, k: Kind, v: nat)
    requires Log(data, false, items, |items|, ends) && ItemsAt(items, m, head) && i < |head| &&
        head[i] == Num(k, v) && !k.Raw? && !k.Str?
    ensures ReadNum(data, ends[m + i], Width(k, false)) == Got(v, ends[m + i + 1])
  {
    ItemAt(items, m, head, i);
    NumAt(data, items, ends, m + i, k, v);
  }

  lemma ComponentBack(data: seq<Byte>, items: seq<Item>, ends: seq<nat>, m: nat, c: Component, name: seq<Byte>,
      count: nat)
    requires Log(data, false, items, |items|, ends) && ItemsAt(items, m, HeadItems(c, name, count))
    requires Canonical(c) && c.dataType < 256 && c.kind < 256
    ensures ReadComponent(data, ends[m + 2]) == Got(Head(c, count), ends[m + HEAD])
  {
    var head := HeadItems(c, name, count);
    HeadNum(data, items, ends, m, head, 2, U8, c.dataType);
    HeadNum(data, items, ends, m, head, 3, U8, c.kind);
    HeadNum(data, items, ends, m, head, 4, U8, if c.norm then 1 else 0);
    HeadNum(data, items, ends, m, head, 5, U32, c.vec);
    HeadNum(data, items, ends, m, head, 6, U32, count);
  }

  /** A component in the data: a byte each for type, kind and normalization, then the vector size. */
  lemma ComponentFormat(data: seq<Byte>, items: seq<Item>, ends: seq<nat>, m: nat, c: Component, name: seq<Byte>,
      count: nat, p: nat)
    requires Log(data, false, items, |items|, ends) && ItemsAt(items, m, HeadItems(c, name, count))
    requires Fits(c) && p == ends[m + 2]
    ensures p + 3 <= |data| && data[p] as int == c.dataType && data[p + 1] as int == c.kind
    ensures data[p + 2] as int == (if c.norm then 1 else 0) && ReadNum(data, p + 3, 4) == Got(c.vec, ends[m + 6])
  {
    var head := HeadItems(c, name, count);
    HeadNum(data, items, ends, m, head, 2, U8, c.dataType);
    HeadNum(data, items, ends, m, head, 3, U8, c.kind);
    HeadNum(data, items, ends, m, head, 4, U8, if c.norm then 1 else 0);
    HeadNum(data, items, ends, m, head, 5, U32, c.vec);
    OneByte(data, p, c.dataType, ends[m + 3]);
    OneByte(data, p + 1, c.kind, ends[m + 4]);
    OneByte(data, p + 2, if c.norm then 1 else 0, ends[m + 5]);
  }

  lemma OneByte(data: seq<Byte>, pos: nat, v: nat, q: nat)
    requires ReadNum(data, pos, 1) == Got(v, q)
    ensures pos < |data| && data[pos] as int == v && q == pos + 1
  {
    assert Slice(data, pos, 1) == [data[pos]];
    assert FromLE([data[pos]]) == data[pos] as int + 256 * FromLE([]);
  }

  lemma HeadBack(data: seq<Byte>, items: seq<Item>, ends: seq<nat>, m: nat, c: Component, name: seq<Byte>, count: nat)
    requires Log(data, false, items, |items|, ends) && ItemsAt(items, m, HeadItems(c, name, count))
    requires Canonical(c) && c.dataType < 256 && c.kind < 256
    ensures ReadHead(data, ends[m]) == Got(Head(c, count), ends[m + HEAD])
  {
    var head := HeadItems(c, name, count);
    HeadNum(data, items, ends, m, head, 0, U32, CLASS_ELEMENT);
    ItemAt(items, m, head, 1);
    StrAt(data, items, ends, m + 1, name);
    ComponentBack(data, items, ends, m, c, name, count);
  }

  ghost predicate Written(h: Heap, data: seq<Byte>, items: seq<Item>, ends: seq<nat>) {
    HeapOk(h) && Log(data, false, items, |items|, ends)
  }

  /** What an element wrote describes it. */
  lemma {:induction false} TreeBack(h: Heap, names: Names, r: Ref, data: seq<Byte>, items: seq<Item>, ends: seq<nat>,
      m: nat) returns (q: nat)
    requires Written(h, data, items, ends) && r in h && Writable(h, r) && ItemsAt(items, m, Items(h, names, r))
    ensures q == m + |Items(h, names, r)| && q <= |items| && ReadTree(data, ends[m]) == Got(Unfold(h, r), ends[q])
    decreases r, |h[r].fields| + 1
  {
    assert ElemOk(h, r);
    var c, n := h[r].comp, |h[r].fields|;
    var fields := FieldItems(h, names, r, n);
    ItemsSplit(items, m, HeadItems(c, names(r), n), fields);
    HeadBack(data, items, ends, m, c, names(r), n);
    TreeStep(data, ends[m], c, n, ends[m + HEAD]);
    UnfoldIs(h, r);
    q := m + HEAD;
    if n > 0 {
      q := FieldsBack(h, names, r, n, data, items, ends, m + HEAD);
      assert h[r].fields[..n] == h[r].fields;
    }
  }

  lemma FieldsJoin(h: Heap, r: Ref, n: nat, data: seq<Byte>, from: nat, p: nat, q: nat)
    requires HeapOk(h) && r in h && 0 < n <= |h[r].fields| && (forall i :: 0 <= i < n ==> h[r].fields[i].e in h) &&
        from <= |data|
    requires ReadFields(data, from, n - 1) == Got(Branches(h, h[r].fields[..n - 1]), p)
    requires var f := h[r].fields[n - 1]; ReadBranch(data, p) == Got(Branch(f.name, f.arraySize, Unfold(h, f.e)), q)
    ensures ReadFields(data, from, n) == Got(Branches(h, h[r].fields[..n]), q)
  {
    var f := h[r].fields[n - 1];
    BranchesPrefix(h, h[r].fields, n);
    FieldStep(data, from, n, Branches(h, h[r].fields[..n - 1]), p, Branch(f.name, f.arraySize, Unfold(h, f.e)), q);
  }

  lemma BranchesPrefix(h: Heap, fs: seq<Field>, n: nat)
    requires HeapOk(h) && 0 < n <= |fs| && forall i :: 0 <= i < n ==> fs[i].e in h
    ensures Branches(h, fs[..n]) == Branches(h,
        fs[..n - 1]) + [Branch(fs[n - 1].name, fs[n - 1].arraySize, Unfold(h, fs[n - 1].e))]
  {
  }

  lemma {:induction false} FieldsBack(h: Heap, names: Names, r: Ref, n: nat, data: seq<Byte>, items: seq<Item>,
      ends: seq<nat>, m: nat) returns (q: nat)
    requires Written(h, data, items, ends) && r in h && Writable(h, r) && n <= |h[r].fields| &&
        (forall i :: 0 <= i < n ==> h[r].fields[i].e in h)
    requires ItemsAt(items, m, FieldItems(h, names, r, n)) && ends[m] <= |data|
    ensures q == m + |FieldItems(h, names, r, n)| && q <= |items|
    ensures ReadFields(data, ends[m], n) == Got(Branches(h, h[r].fields[..n]), ends[q])
    decreases r, n
  {
    q := m;
    if n == 0 {
      assert Branches(h, h[r].fields[..0]) == [];
    } else {
      assert ElemOk(h, r);
      var f := h[r].fields[n - 1];
      ItemsSplit(items, m, FieldItems(h, names, r, n - 1), BranchItems(h, names, f));
      var p := FieldsBack(h, names, r, n - 1, data, items, ends, m);
      q := BranchBack(h, names, f, data, items, ends, p);
      FieldsJoin(h, r, n, data, ends[m], ends[p], ends[q]);
    }
  }

  lemma {:induction false} BranchBack(h: Heap, names: Names, f: Field, data: seq<Byte>, items: seq<Item>,
      ends: seq<nat>, m: nat) returns (q: nat)
    requires Written(h, data, items, ends) && f.e in h && Writable(h, f.e) && Plain(f.name) &&
        ItemsAt(items, m, BranchItems(h, names, f))
    ensures q == m + |BranchItems(h, names, f)| && q <= |items|
    ensures ReadBranch(data, ends[m]) == Got(Branch(f.name, f.arraySize, Unfold(h, f.e)), ends[q])
    decreases f.e, |h[f.e].fields| + 2
  {
    var two := [StrItem(f.name), Num(U32, f.arraySize)];
    ItemsSplit(items, m, two, Items(h, names, f.e));
    ItemAt(items, m, two, 0);
    StrAt(data, items, ends, m, f.name);
    HeadNum(data, items, ends, m, two, 1, U32, f.arraySize);
    q := TreeBack(h, names, f.e, data, items, ends, m + 2);
    BranchStep(data, ends[m], f.name, ends[m + 1], f.arraySize, ends[m + 2], Unfold(h, f.e), ends[q]);
  }

  /** Reading an element back in the same context gives the identical object, exactly if all that it is
      made of fits. */
  lemma SameObject(h: Heap, h': Heap, names: Names, r: Ref, e: Ref, data: seq<Byte>, ends: seq<nat>)
    requires HeapOk(h) && r in h && Written(h, data, Items(h, names, r), ends)
    requires HeapOk(h') && Distinct(h') && Kept(h, h') && e in h'
    requires ReadTree(data, ends[0]).Got? && ReadTree(data, ends[0]).value == Unfold(h', e)
    ensures e == r <==> Writable(h, r)
  {
    UnfoldKept(h, h', r);
    if Writable(h, r) {
      var items := Items(h, names, r);
      assert items[0..0 + |items|] == items;
      var _ := TreeBack(h, names, r, data, items, ends, 0);
      UnfoldDistinct(h', e, r);
    } else {
      TreeSmall(data, ends[0]);
      SmallIffWritable(h, r);
    }
  }

  /** `serialize` an element and `createFromStream` from the result, in one context. */
  method WriteAndRead(state: ElementState, ghost names: Names, r: Ref, s: IStream, ghost ends: seq<nat>)
      returns (e: Option<Ref>)
    requires state.Valid() && Distinct(state.heap) && r in state.heap && s.pos == 0
    requires Log(s.data, false, Items(state.heap, names, r), |Items(state.heap, names, r)|, ends) && ends[0] == 0
    modifies state, s`pos
    ensures state.Valid() && Distinct(state.heap) && Kept(old(state.heap), state.heap)
    ensures e == Some(r) <==> Writable(old(state.heap), r)
  {
    ghost var h, items := state.heap, Items(state.heap, names, r);
    assert items[0..0 + |items|] == items;
    if Writable(h, r) { ghost var _ := TreeBack(h, names, r, s.data, items, ends, 0); }
    e := state.CreateFromStream(s);
    if e.Some? { SameObject(h, state.heap, names, r, e.value, s.data, ends); }
  }

  /** References have types from 1000 on, which a byte cuts. */
  lemma ReferenceNotWritable(c: Component)
    requires Canonical(c) && c.dataType >= TYPE_ELEMENT
    ensures var h: Heap := map[0 := Elem(c, [])]; HeapOk(h) && !Writable(h, 0)
  {
    var h: Heap := map[0 := Elem(c, [])];
    assert ElemOk(h, 0);
  }
}
