/** Object lifetime: user and system reference counts, the list of all objects from `mObjHead`,
    `checkDelete` and the deletes it cascades into, `ObjectBaseRef`, `rsrSetObject`, and the teardown
    loop `zeroAllUserRef`.

    Objects live in an explicit store, so that an object that has been deleted is gone from it: every
    access below has to show that the object it touches is still there. */
module ObjectLifetime {

  /** An address; 0 is NULL. */
  type Ref = nat

  /** An object: its counts, its list links and the `ObjectBaseRef` members it holds. */
  datatype Obj = Obj(user: int, sys: int, prev: Ref, next: Ref, fields: seq<Ref>)

  type Heap = map<Ref, Obj>

  /** A place that holds a counted reference: a root (script global or C++ local) or a member. */
  datatype Slot = NoSlot | Root(i: nat) | Field(owner: Ref, i: nat)

  // ---------------------------------------------------------------------------------------------
  // The references there are.  While a slot is being cleared it still holds its old value, which no
  // longer counts: that slot is `stale`.

  function FieldsOf(h: Heap, stale: Slot, o: Ref): seq<Ref>
    requires o in h
  {
    if stale.Field? && stale.owner == o && stale.i < |h[o].fields| then h[o].fields[stale.i := 0] else h[o].fields
  }

  function RootsOf(roots: seq<Ref>, stale: Slot): seq<Ref> {
    if stale.Root? && stale.i < |roots| then roots[stale.i := 0] else roots
  }

  ghost predicate In(order: seq<Ref>, h: Heap) {
    forall i :: 0 <= i < |order| ==> order[i] in h
  }

  /** How often `r` occurs in `s`. */
  function CountIn(s: seq<Ref>, r: Ref): nat {
    if |s| == 0 then 0 else CountIn(s[..|s| - 1], r) + (if s[|s| - 1] == r then 1 else 0)
  }

  /** How many members of `o` refer to `r`. */
  function Members(h: Heap, stale: Slot, o: Ref, r: Ref): nat
    requires o in h
  {
    CountIn(FieldsOf(h, stale, o), r)
  }

  function Sum(c: seq<nat>): nat {
    if |c| == 0 then 0 else Sum(c[..|c| - 1]) + c[|c| - 1]
  }

  ghost function Counts(order: seq<Ref>, h: Heap, stale: Slot, r: Ref): (c: seq<nat>)
    requires In(order, h)
    ensures |c| == |order|
  {
    seq(|order|, i requires 0 <= i < |order| => Members(h, stale, order[i], r))
  }

  /** How many members of the objects in `order` refer to `r`. */
  ghost function Slots(order: seq<Ref>, h: Heap, stale: Slot, r: Ref): nat
    requires In(order, h)
  {
    Sum(Counts(order, h, stale, r))
  }

  /** All references to `r`, with those pending in `extra`. */
  ghost function Refs(h: Heap, order: seq<Ref>, roots: seq<Ref>, extra: multiset<Ref>, stale: Slot, r: Ref): nat
    requires In(order, h)
  {
    Slots(order, h, stale, r) + CountIn(RootsOf(roots, stale), r) + extra[r]
  }

  // ---------------------------------------------------------------------------------------------
  // Invariant

  /** The links from `head` form a doubly linked list of exactly the live objects. */
  ghost predicate Linked(h: Heap, head: Ref, order: seq<Ref>) {
    && 0 !in h
    && Lists(h, order) && Distinct(order)
    && head == At(order, 0)
    && (forall i :: 0 <= i < |order| ==> LinkOk(h, order, i))
  }

  /** `order` lists exactly the live objects. */
  ghost predicate Lists(h: Heap, order: seq<Ref>) {
    In(order, h) && forall o :: o in h ==> o in order
  }

  ghost predicate Distinct(order: seq<Ref>) {
    forall i, j :: 0 <= i < j < |order| ==> order[i] != order[j]
  }

  predicate LinkOk(h: Heap, order: seq<Ref>, i: int)
    requires 0 <= i < |order|
  {
    order[i] in h && h[order[i]].prev == At(order, i - 1) && h[order[i]].next == At(order, i + 1)
  }

  function At(order: seq<Ref>, i: int): Ref {
    if 0 <= i < |order| then order[i] else 0
  }

  /** Every system count is the number of references to that object, and no reference dangles. */
  ghost predicate Counted(h: Heap, order: seq<Ref>, roots: seq<Ref>, extra: multiset<Ref>, stale: Slot) {
    In(order, h) && forall r: Ref :: CountOk(h, order, roots, extra, stale, r)
  }

  ghost predicate CountOk(h: Heap, order: seq<Ref>, roots: seq<Ref>, extra: multiset<Ref>, stale: Slot, r: Ref)
    requires In(order, h)
  {
    if r in h then h[r].user >= 0 && h[r].sys == Refs(h, order, roots, extra, stale, r)
    else r == 0 || Refs(h, order, roots, extra, stale, r) == 0
  }

  // ---------------------------------------------------------------------------------------------
  // Lemmas about the multiset of references

  /** A sequence without its element `k`. */
  function Without<T>(s: seq<T>, k: nat): seq<T>
    requires k < |s|
  {
    s[..k] + s[k + 1..]
  }

  lemma {:induction false} SumWithout(c: seq<nat>, k: nat)
    requires k < |c|
    ensures Sum(c) == Sum(Without(c, k)) + c[k]
    decreases |c|
  {
    var n := |c| - 1;
    if k == n {
      assert Without(c, k) == c[..n];
    } else {
      SumWithout(c[..n], k);
      assert Without(c, k)[..n - 1] == Without(c[..n], k);
      assert Without(c, k)[n - 1] == c[n];
    }
  }

  lemma SumUpdate(c: seq<nat>, k: nat, v: nat)
    requires k < |c|
    ensures Sum(c[k := v]) == Sum(c) - c[k] + v
  {
    SumWithout(c, k);
    SumWithout(c[k := v], k);
    assert Without(c, k) == Without(c[k := v], k);
  }

  lemma {:induction false} SumPositive(c: seq<nat>) returns (k: nat)
    requires Sum(c) > 0
    ensures k < |c| && c[k] > 0
    decreases |c|
  {
    if c[|c| - 1] > 0 { k := |c| - 1; } else { k := SumPositive(c[..|c| - 1]); }
  }

  lemma {:induction false} CountMember(s: seq<Ref>, r: Ref)
    ensures CountIn(s, r) > 0 <==> r in s
    ensures CountIn(s, r) == multiset(s)[r]
  {
    if |s| > 0 {
      CountMember(s[..|s| - 1], r);
      assert s == s[..|s| - 1] + [s[|s| - 1]];
    }
  }

  lemma {:induction false} UpdateCount(s: seq<Ref>, i: nat, v: Ref, r: Ref)
    requires i < |s|
    ensures CountIn(s[i := v], r) == CountIn(s, r) - (if s[i] == r then 1 else 0) + (if v == r then 1 else 0)
  {
    var n := |s| - 1;
    if i == n { assert s[i := v][..n] == s[..n]; } else {
      assert s[i := v][..n] == s[..n][i := v];
      UpdateCount(s[..n], i, v, r);
    }
  }

  /** Two stores with the same members. */
  lemma SlotsSame(order: seq<Ref>, h: Heap, h': Heap, stale: Slot, stale': Slot, r: Ref)
    requires In(order, h) && In(order, h')
    requires forall i :: 0 <= i < |order| ==> Members(h, stale, order[i], r) == Members(h', stale', order[i], r)
    ensures Slots(order, h, stale, r) == Slots(order, h', stale', r)
  {
    assert Counts(order, h, stale, r) == Counts(order, h', stale', r);
  }

  /** Removing an object takes its members out of the count. */
  lemma SlotsWithout(order: seq<Ref>, h: Heap, stale: Slot, k: nat, r: Ref)
    requires k < |order| && In(order, h) && In(Without(order, k), h)
    ensures Slots(order, h, stale, r) == Slots(Without(order, k), h, stale, r) + Members(h, stale, order[k], r)
  {
    var a, b := Counts(order, h, stale, r), Counts(Without(order, k), h, stale, r);
    SumWithout(a, k);
    forall i | 0 <= i < |b| ensures Without(a, k)[i] == b[i] {
      WithoutAt(order, k, i);
      WithoutAt(a, k, i);
    }
    SameSum(Without(a, k), b);
  }

  lemma WithoutAt(s: seq<nat>, k: nat, i: nat)
    requires k < |s| && i < |s| - 1
    ensures |Without(s, k)| == |s| - 1 && Without(s, k)[i] == s[Back(k, i)]
  {
  }

  lemma SameSum(a: seq<nat>, b: seq<nat>)
    requires |a| == |b| && forall i :: 0 <= i < |a| ==> a[i] == b[i]
    ensures Sum(a) == Sum(b)
  {
    assert a == b;
  }

  lemma SlotFound(order: seq<Ref>, h: Heap, stale: Slot, r: Ref) returns (k: nat)
    requires In(order, h) && Slots(order, h, stale, r) > 0
    ensures k < |order| && r in FieldsOf(h, stale, order[k])
  {
    k := SumPositive(Counts(order, h, stale, r));
    CountMember(FieldsOf(h, stale, order[k]), r);
  }

  lemma SlotCounts(order: seq<Ref>, h: Heap, stale: Slot, k: nat, r: Ref)
    requires In(order, h) && k < |order| && r in FieldsOf(h, stale, order[k])
    ensures Slots(order, h, stale, r) > 0
  {
    SumWithout(Counts(order, h, stale, r), k);
    CountMember(FieldsOf(h, stale, order[k]), r);
  }

  /** Changing the members of one object changes the count by exactly that. */
  lemma SlotsUpdate(order: seq<Ref>, h: Heap, h': Heap, stale: Slot, stale': Slot, k: nat, r: Ref)
    requires In(order, h) && In(order, h') && k < |order|
    requires forall i :: 0 <= i < |order| && i != k ==>
        Members(h, stale, order[i], r) == Members(h', stale', order[i], r)
    ensures Slots(order, h', stale', r) ==
            Slots(order, h, stale, r) - Members(h, stale, order[k], r) + Members(h', stale', order[k], r)
  {
    SumUpdate(Counts(order, h, stale, r), k, Members(h', stale', order[k], r));
    assert Counts(order, h', stale', r) == Counts(order, h, stale, r)[k := Members(h', stale', order[k], r)];
  }

  // ---------------------------------------------------------------------------------------------
  // What survives a drop

  /** `k` is held by something other than the reference being dropped: a user, a root or pending
      reference, or a member of an object in `keep`; or nothing refers to it, so nothing drops it. */
  ghost predicate Held(h: Heap, roots: seq<Ref>, extra: multiset<Ref>, stale: Slot, keep: set<Ref>, k: Ref)
    requires k in h && keep <= h.Keys
  {
    h[k].user > 0 || h[k].sys <= 0 || k in RootsOf(roots, stale) || extra[k] > 0 ||
        (exists m :: m in keep && k in FieldsOf(h, stale, m))
  }

  ghost predicate Supported(h: Heap, roots: seq<Ref>, extra: multiset<Ref>, stale: Slot, keep: set<Ref>) {
    keep <= h.Keys && forall k :: k in keep ==> Held(h, roots, extra, stale, keep, k)
  }

  /** The largest supported set without `gone`. */
  ghost function Survivors(h: Heap, roots: seq<Ref>, extra: multiset<Ref>, stale: Slot, gone: set<Ref>): set<Ref> {
    set k | k in h.Keys && exists keep :: Supported(h, roots, extra, stale, keep) && keep !! gone && k in keep
  }

  lemma SurvivorsSupported(h: Heap, roots: seq<Ref>, extra: multiset<Ref>, stale: Slot, gone: set<Ref>)
    ensures Supported(h, roots, extra, stale, Survivors(h, roots, extra, stale, gone))
    ensures Survivors(h, roots, extra, stale, gone) !! gone
  {
    var all := Survivors(h, roots, extra, stale, gone);
    forall k | k in all ensures k !in gone && Held(h, roots, extra, stale, all, k) {
      var keep :| Supported(h, roots, extra, stale, keep) && keep !! gone && k in keep;
      assert Held(h, roots, extra, stale, keep, k);
      assert keep <= all;
    }
  }

  /** What a drop may do to the store: objects only leave, the others keep their user count and
      members, and none is left behind that the drop brought to zero in both counts. */
  ghost predicate Shrunk(h: Heap, h': Heap) {
    h'.Keys <= h.Keys && forall k :: k in h' ==> Reduced(h[k], h'[k])
  }

  predicate Reduced(a: Obj, b: Obj) {
    b.user == a.user && b.fields == a.fields && b.sys <= a.sys && (b.sys < a.sys ==> b.sys > 0 || b.user > 0)
  }

  lemma ShrunkTransitive(h: Heap, h': Heap, h'': Heap)
    requires Shrunk(h, h') && Shrunk(h', h'')
    ensures Shrunk(h, h'')
  {
    forall k | k in h'' ensures Reduced(h[k], h''[k]) {
      assert Reduced(h[k], h'[k]) && Reduced(h'[k], h''[k]);
    }
  }

  // ---------------------------------------------------------------------------------------------
  // List operations on the store

  /** `remove`, on a store whose list is `order`: unlink `o` and free it. */
  function Unlink(h: Heap, o: Ref): Heap
    requires o in h
  {
    var prev, next := h[o].prev, h[o].next;
    var h1 := if prev in h then h[prev := h[prev].(next := next)] else h;
    var h2 := if next in h1 then h1[next := h1[next].(prev := prev)] else h1;
    h2 - {o}
  }

  /** Position in `order` of element `i` of `Without(order, k)`. */
  function Back(k: nat, i: int): int {
    if i < k then i else i + 1
  }

  lemma UnlinkAt(h: Heap, head: Ref, order: seq<Ref>, k: nat, i: int)
    requires Linked(h, head, order) && k < |order| && 0 <= i < |order| - 1
    ensures LinkOk(Unlink(h, order[k]), Without(order, k), i)
  {
    var j := Back(k, i);
    assert LinkOk(h, order, k) && LinkOk(h, order, j);
    assert Without(order, k)[i] == order[j] != order[k];
    assert At(Without(order, k), i - 1) == if j == k + 1 then At(order, k - 1) else At(order, j - 1);
    assert At(Without(order, k), i + 1) == if j + 1 == k then At(order, k + 1) else At(order, j + 1);
    UnlinkLinks(h, order[k], order[j]);
    OnlyNeighbours(h, head, order, k, j);
  }

  /** What unlinking `o` does to the links of another object. */
  lemma UnlinkLinks(h: Heap, o: Ref, p: Ref)
    requires o in h && p in h && p != o
    ensures p in Unlink(h, o) && SameButLinks(h[p], Unlink(h, o)[p])
    ensures Unlink(h, o)[p].next == if p == h[o].prev then h[o].next else h[p].next
    ensures Unlink(h, o)[p].prev == if p == h[o].next then h[o].prev else h[p].prev
  {
  }

  lemma OnlyNeighbours(h: Heap, head: Ref, order: seq<Ref>, k: int, j: int)
    requires Linked(h, head, order) && 0 <= k < |order| && 0 <= j < |order|
    ensures order[j] == h[order[k]].prev <==> j == k - 1
    ensures order[j] == h[order[k]].next <==> j == k + 1
  {
    assert LinkOk(h, order, k);
    assert order[j] in h && order[j] != 0;
  }

  lemma WithoutLists(h: Heap, order: seq<Ref>, k: nat)
    requires Lists(h, order) && Distinct(order) && k < |order|
    ensures Lists(h - {order[k]}, Without(order, k)) && Distinct(Without(order, k))
  {
    var rest := Without(order, k);
    forall i | 0 <= i < |rest| ensures rest[i] == order[Back(k, i)] { WithoutAt(order, k, i); }
    forall p | p in h - {order[k]} ensures p in rest { StillListed(order, k, p); }
  }

  lemma StillListed(order: seq<Ref>, k: nat, p: Ref)
    requires k < |order| && p in order && p != order[k]
    ensures p in Without(order, k)
  {
    var j :| 0 <= j < |order| && order[j] == p;
    WithoutAt(order, k, if j < k then j else j - 1);
  }

  lemma UnlinkLinked(h: Heap, head: Ref, order: seq<Ref>, k: nat)
    requires Linked(h, head, order) && k < |order|
    ensures Linked(Unlink(h, order[k]), if head == order[k] then h[order[k]].next else head, Without(order, k))
    ensures Unlink(h, order[k]).Keys == h.Keys - {order[k]}
    ensures forall o :: o in Unlink(h, order[k]) ==> SameButLinks(h[o], Unlink(h, order[k])[o])
  {
    var o, h' := order[k], Unlink(h, order[k]);
    WithoutLists(h, order, k);
    assert h'.Keys == h.Keys - {o} == (h - {o}).Keys;
    forall i | 0 <= i < |order| - 1 ensures LinkOk(h', Without(order, k), i) { UnlinkAt(h, head, order, k, i); }
    forall p | p in h' ensures SameButLinks(h[p], h'[p]) { UnlinkLinks(h, o, p); }
    assert LinkOk(h, order, k);
  }

  predicate SameButLinks(a: Obj, b: Obj) {
    a.user == b.user && a.sys == b.sys && a.fields == b.fields
  }

  /** `add`: a new object becomes the head of the list. */
  function Push(h: Heap, head: Ref, o: Ref, members: nat): Heap
    requires o !in h
  {
    var h1 := if head in h then h[head := h[head].(prev := o)] else h;
    h1[o := Obj(0, 0, 0, head, seq(members, i => 0))]
  }

  lemma PushAt(h: Heap, head: Ref, order: seq<Ref>, o: Ref, members: nat, i: int)
    requires Linked(h, head, order) && o !in h && o != 0 && 0 <= i <= |order|
    ensures LinkOk(Push(h, head, o, members), [o] + order, i)
  {
    if i > 0 {
      assert LinkOk(h, order, i - 1);
      assert order[i - 1] == head <==> i == 1;
    }
  }

  lemma PushLinked(h: Heap, head: Ref, order: seq<Ref>, o: Ref, members: nat)
    requires Linked(h, head, order) && o !in h && o != 0
    ensures Linked(Push(h, head, o, members), o, [o] + order)
    ensures forall p :: p in h ==> SameButLinks(h[p], Push(h, head, o, members)[p])
  {
    var h', order' := Push(h, head, o, members), [o] + order;
    assert h'.Keys == h.Keys + {o};
    assert Lists(h', order') && Distinct(order');
    forall i | 0 <= i < |order'| ensures LinkOk(h', order', i) { PushAt(h, head, order, o, members, i); }
  }

  // ---------------------------------------------------------------------------------------------
  // How each change of the store changes the counts

  predicate SameLinks(a: Obj, b: Obj) {
    a.prev == b.prev && a.next == b.next
  }

  lemma LinkedSame(h: Heap, h': Heap, head: Ref, order: seq<Ref>)
    requires Linked(h, head, order) && h'.Keys == h.Keys && forall o :: o in h ==> SameLinks(h[o], h'[o])
    ensures Linked(h', head, order)
  {
    forall i | 0 <= i < |order| ensures LinkOk(h', order, i) { assert LinkOk(h, order, i); }
  }

  lemma CountedSame(h: Heap, h': Heap, order: seq<Ref>, roots: seq<Ref>, extra: multiset<Ref>, stale: Slot)
    requires Counted(h, order, roots, extra, stale) && h'.Keys == h.Keys
    requires forall o :: o in h ==> h'[o].fields == h[o].fields && h'[o].sys == h[o].sys && h'[o].user >= 0
    ensures Counted(h', order, roots, extra, stale)
  {
    assert In(order, h');
    forall r: Ref ensures CountOk(h', order, roots, extra, stale, r) {
      assert CountOk(h, order, roots, extra, stale, r);
      SlotsSame(order, h, h', stale, stale, r);
    }
  }

  /** The system count of `o` and the pending references to it change together. */
  lemma CountedStep(h: Heap, o: Ref, c: int, order: seq<Ref>, roots: seq<Ref>, extra: multiset<Ref>,
      extra': multiset<Ref>, stale: Slot)
    requires Counted(h, order, roots, extra, stale) && o in h && c == h[o].sys + extra'[o] - extra[o]
    requires forall r: Ref :: r != o ==> extra'[r] == extra[r]
    ensures Counted(h[o := h[o].(sys := c)], order, roots, extra', stale)
  {
    var h' := h[o := h[o].(sys := c)];
    assert In(order, h');
    forall r: Ref ensures CountOk(h', order, roots, extra', stale, r) {
      assert CountOk(h, order, roots, extra, stale, r);
      SlotsSame(order, h, h', stale, stale, r);
    }
  }

  lemma RefsDelete(h: Heap, h': Heap, order: seq<Ref>, roots: seq<Ref>, extra: multiset<Ref>, stale: Slot, k: nat,
      r: Ref)
    requires k < |order| && In(order, h) && In(Without(order, k), h) && In(Without(order, k), h') &&
        (stale.Field? ==> stale.owner != order[k])
    requires forall o :: o in h' ==> o in h && h'[o].fields == h[o].fields
    ensures Refs(h', Without(order, k), roots, extra + multiset(h[order[k]].fields), stale, r) ==
        Refs(h, order, roots, extra, stale, r)
  {
    SlotsWithout(order, h, stale, k, r);
    SlotsSame(Without(order, k), h, h', stale, stale, r);
    CountMember(h[order[k]].fields, r);
  }

  /** Deleting an object nobody refers to leaves its members as pending references. */
  lemma CountedDelete(h: Heap, head: Ref, order: seq<Ref>, roots: seq<Ref>, extra: multiset<Ref>, stale: Slot, k: nat)
    requires Linked(h, head, order) && Counted(h, order, roots, extra, stale) && k < |order|
    requires h[order[k]].sys == 0 && (stale.Field? ==> stale.owner != order[k])
    ensures Counted(Unlink(h, order[k]), Without(order, k), roots, extra + multiset(h[order[k]].fields), stale)
  {
    var h', rest, extra' := Unlink(h, order[k]), Without(order, k), extra + multiset(h[order[k]].fields);
    UnlinkLinked(h, head, order, k);
    WithoutLists(h, order, k);
    forall r: Ref ensures CountOk(h', rest, roots, extra', stale, r) {
      assert CountOk(h, order, roots, extra, stale, r);
      RefsDelete(h, h', order, roots, extra, stale, k, r);
    }
  }

  function Read(h: Heap, roots: seq<Ref>, s: Slot): Ref
    requires SlotOk(h, roots, s)
  {
    match s case Root(i) => roots[i] case Field(o, i) => h[o].fields[i] case NoSlot => 0
  }

  predicate SlotOk(h: Heap, roots: seq<Ref>, s: Slot) {
    match s case Root(i) => i < |roots| case Field(o, i) => o in h && i < |h[o].fields| case NoSlot => true
  }

  lemma RefsStale(h: Heap, order: seq<Ref>, roots: seq<Ref>, extra: multiset<Ref>, s: Slot, r: Ref)
    requires Lists(h, order) && Distinct(order) && SlotOk(h, roots, s) && r != 0
    ensures Refs(h, order, roots, extra + multiset{Read(h, roots, s)}, s, r) == Refs(h, order, roots, extra, NoSlot, r)
  {
    match s
    case NoSlot => SlotsSame(order, h, h, s, NoSlot, r);
    case Root(i) =>
      UpdateCount(roots, i, 0, r);
      SlotsSame(order, h, h, s, NoSlot, r);
    case Field(o, i) =>
      var k :| 0 <= k < |order| && order[k] == o;
      UpdateCount(h[o].fields, i, 0, r);
      SlotsUpdate(order, h, h, NoSlot, s, k, r);
  }

  /** From the moment a slot is being cleared its old value is a pending reference. */
  lemma CountedStale(h: Heap, order: seq<Ref>, roots: seq<Ref>, extra: multiset<Ref>, s: Slot)
    requires Counted(h, order, roots, extra, NoSlot) && 0 !in h && Lists(h, order) && Distinct(order) &&
        SlotOk(h, roots, s)
    ensures Counted(h, order, roots, extra + multiset{Read(h, roots, s)}, s)
  {
    var extra' := extra + multiset{Read(h, roots, s)};
    forall r: Ref ensures CountOk(h, order, roots, extra', s, r) {
      assert CountOk(h, order, roots, extra, NoSlot, r);
      if r != 0 { RefsStale(h, order, roots, extra, s, r); }
    }
  }

  function Write(h: Heap, s: Slot, v: Ref): Heap
    requires s.Field? ==> s.owner in h && s.i < |h[s.owner].fields|
  {
    if s.Field? then h[s.owner := h[s.owner].(fields := h[s.owner].fields[s.i := v])] else h
  }

  function WriteRoot(roots: seq<Ref>, s: Slot, v: Ref): seq<Ref>
    requires s.Root? ==> s.i < |roots|
  {
    if s.Root? then roots[s.i := v] else roots
  }

  lemma RefsWrite(h: Heap, order: seq<Ref>, roots: seq<Ref>, extra: multiset<Ref>, s: Slot, v: Ref, r: Ref)
    requires Lists(h, order) && Distinct(order) && SlotOk(h, roots, s) && (s.NoSlot? ==> v == 0) && r != 0
    ensures In(order, Write(h, s, v))
    ensures Refs(Write(h, s, v), order, WriteRoot(roots, s, v), extra, NoSlot, r) ==
        Refs(h, order, roots, extra + multiset{v}, s, r)
  {
    var h' := Write(h, s, v);
    match s
    case NoSlot => SlotsSame(order, h, h', s, NoSlot, r);
    case Root(i) =>
      assert roots[i := 0][i := v] == roots[i := v];
      UpdateCount(roots[i := 0], i, v, r);
      SlotsSame(order, h, h', s, NoSlot, r);
    case Field(o, i) =>
      var k :| 0 <= k < |order| && order[k] == o;
      assert h[o].fields[i := 0][i := v] == h[o].fields[i := v];
      UpdateCount(h[o].fields[i := 0], i, v, r);
      SlotsUpdate(order, h, h', s, NoSlot, k, r);
  }

  /** Storing a pending reference in the stale slot makes it an ordinary one again. */
  lemma CountedWrite(h: Heap, order: seq<Ref>, roots: seq<Ref>, extra: multiset<Ref>, s: Slot, v: Ref)
    requires Counted(h, order, roots, extra + multiset{v}, s) && 0 !in h && Lists(h, order) && Distinct(order)
    requires SlotOk(h, roots, s) && (s.NoSlot? ==> v == 0)
    ensures Counted(Write(h, s, v), order, WriteRoot(roots, s, v), extra, NoSlot)
  {
    var h', roots' := Write(h, s, v), WriteRoot(roots, s, v);
    assert In(order, h');
    forall r: Ref ensures CountOk(h', order, roots', extra, NoSlot, r) {
      assert CountOk(h, order, roots, extra + multiset{v}, s, r);
      if r != 0 { RefsWrite(h, order, roots, extra, s, v, r); }
    }
  }

  lemma CountedZero(h: Heap, order: seq<Ref>, roots: seq<Ref>, extra: multiset<Ref>, extra': multiset<Ref>, stale: Slot)
    requires Counted(h, order, roots, extra, stale) && 0 !in h && forall r: Ref :: r != 0 ==> extra'[r] == extra[r]
    ensures Counted(h, order, roots, extra', stale)
  {
    forall r: Ref ensures CountOk(h, order, roots, extra', stale,
        r) { assert CountOk(h, order, roots, extra, stale, r); }
  }

  /** A supported set stays supported while its own objects keep their user counts and members. */
  lemma SupportedKept(h: Heap, h': Heap, roots: seq<Ref>, extra: multiset<Ref>, extra': multiset<Ref>, stale: Slot,
      keep: set<Ref>)
    requires Supported(h, roots, extra, stale, keep) && keep <= h'.Keys
    requires forall k :: k in keep ==> h'[k].user == h[k].user && h'[k].fields == h[k].fields && (h[k].sys <= 0 ==>
        h'[k].sys <= 0)
    requires forall r: Ref :: extra[r] <= extra'[r]
    ensures Supported(h', roots, extra', stale, keep)
  {
    forall k | k in keep ensures Held(h', roots, extra', stale, keep, k) {
      assert Held(h, roots, extra, stale, keep, k);
      if m :| m in keep && k in FieldsOf(h, stale, m) { assert k in FieldsOf(h', stale, m); }
    }
  }

  /** An object whose last reference is being dropped, without a user, is in no supported set. */
  lemma LastReference(h: Heap, order: seq<Ref>, roots: seq<Ref>, extra: multiset<Ref>, stale: Slot, keep: set<Ref>,
      o: Ref)
    requires Counted(h, order, roots, extra + multiset{o}, stale) && Lists(h, order) && o in h && h[o].user == 0 &&
        h[o].sys == 1
    requires Supported(h, roots, extra, stale, keep)
    ensures o !in keep
  {
    assert CountOk(h, order, roots, extra + multiset{o}, stale, o);
    if o in keep {
      assert Held(h, roots, extra, stale, keep, o);
      CountMember(RootsOf(roots, stale), o);
      if m :| m in keep && o in FieldsOf(h, stale, m) {
        var k :| 0 <= k < |order| && order[k] == m;
        SlotCounts(order, h, stale, k, o);
      }
    }
  }

  /** The store, its list and its counts agree. */
  ghost predicate Sound(h: Heap, head: Ref, order: seq<Ref>, roots: seq<Ref>, extra: multiset<Ref>, stale: Slot) {
    Linked(h, head, order) && Counted(h, order, roots, extra, stale) && SlotOk(h, roots, stale)
  }

  /** `keep` is supported, and has the object whose member is being cleared. */
  ghost predicate Kept(h: Heap, roots: seq<Ref>, extra: multiset<Ref>, stale: Slot, keep: set<Ref>) {
    Supported(h, roots, extra, stale, keep) && (stale.Field? ==> stale.owner in keep)
  }

  function Dropped(h: Heap, o: Ref): Heap
    requires o in h
  {
    h[o := h[o].(sys := h[o].sys - 1)]
  }

  /** Taking one off a system count, for a reference that is pending. */
  lemma DropStep(h: Heap, head: Ref, order: seq<Ref>, roots: seq<Ref>, extra: multiset<Ref>, stale: Slot,
      keep: set<Ref>, o: Ref)
    requires o in h && Sound(h, head, order, roots, extra + multiset{o}, stale) && Kept(h, roots, extra, stale, keep)
    ensures Sound(Dropped(h, o), head, order, roots, extra, stale) && h[o].sys > 0 && h[o].user >= 0
    ensures h[o].sys == 1 && h[o].user == 0 ==> o !in keep && Kept(Dropped(h, o), roots, extra, stale, keep)
  {
    assert CountOk(h, order, roots, extra + multiset{o}, stale, o);
    CountedStep(h, o, h[o].sys - 1, order, roots, extra + multiset{o}, extra, stale);
    LinkedSame(h, Dropped(h, o), head, order);
    if h[o].sys == 1 && h[o].user == 0 {
      LastReference(h, order, roots, extra, stale, keep, o);
      SupportedKept(h, Dropped(h, o), roots, extra, extra, stale, keep);
    }
  }

  lemma StaleStep(h: Heap, head: Ref, order: seq<Ref>, roots: seq<Ref>, extra: multiset<Ref>, s: Slot)
    requires Sound(h, head, order, roots, extra, NoSlot) && SlotOk(h, roots, s)
    ensures Sound(h, head, order, roots, extra + multiset{Read(h, roots, s)}, s)
  {
    CountedStale(h, order, roots, extra, s);
  }

  lemma WriteStep(h: Heap, head: Ref, order: seq<Ref>, roots: seq<Ref>, extra: multiset<Ref>, s: Slot, v: Ref)
    requires Sound(h, head, order, roots, extra + multiset{v}, s) && (s.NoSlot? ==> v == 0)
    ensures Sound(Write(h, s, v), head, order, WriteRoot(roots, s, v), extra, NoSlot)
  {
    CountedWrite(h, order, roots, extra, s, v);
    LinkedSame(h, Write(h, s, v), head, order);
  }

  lemma DropShrinks(h: Heap, h': Heap, o: Ref)
    requires o in h && o !in h' && Shrunk(Dropped(h, o), h')
    ensures Shrunk(h, h')
  {
    forall k | k in h' ensures Reduced(h[k], h'[k]) { assert Reduced(Dropped(h, o)[k], h'[k]); }
  }

  /** Taking an object that nothing refers to out of the list and freeing it. */
  lemma DeleteStep(h: Heap, head: Ref, order: seq<Ref>, roots: seq<Ref>, extra: multiset<Ref>, stale: Slot,
      keep: set<Ref>, k: nat)
    requires Sound(h, head, order, roots, extra, stale) && Kept(h, roots, extra, stale, keep)
    requires k < |order| && order[k] !in keep && h[order[k]].sys == 0
    ensures Sound(Unlink(h, order[k]), if head == order[k] then h[order[k]].next else head, Without(order, k), roots,
                  extra + multiset(h[order[k]].fields), stale)
    ensures Kept(Unlink(h, order[k]), roots, extra, stale, keep)
    ensures |Unlink(h, order[k])| < |h| && order[k] !in Unlink(h, order[k])
  {
    CountedDelete(h, head, order, roots, extra, stale, k);
    UnlinkLinked(h, head, order, k);
    SupportedKept(h, Unlink(h, order[k]), roots, extra, extra, stale, keep);
    assert Unlink(h, order[k]).Keys == h.Keys - {order[k]};
  }

  lemma DeleteShrinks(h: Heap, h': Heap, head: Ref, order: seq<Ref>, k: nat)
    requires Linked(h, head, order) && k < |order| && Shrunk(Unlink(h, order[k]), h')
    ensures Shrunk(h, h')
  {
    UnlinkLinked(h, head, order, k);
    forall p | p in h' ensures Reduced(h[p], h'[p]) { assert Reduced(Unlink(h, order[k])[p], h'[p]); }
  }

  lemma Neighbours(h: Heap, head: Ref, order: seq<Ref>, k: nat)
    requires Linked(h, head, order) && k < |order|
    ensures Linkable(h, order[k])
  {
    assert LinkOk(h, order, k);
    OnlyNeighbours(h, head, order, k, k);
  }

  /** The links of `o` lead to other objects. */
  predicate Linkable(h: Heap, o: Ref) {
    && o in h && h[o].prev != o && h[o].next != o && 0 !in h
    && (h[o].prev == 0 || h[o].prev in h) && (h[o].next == 0 || h[o].next in h)
  }

  /** After a drop the kept set is still supported, and pending references still refer to objects. */
  lemma KeptAfter(h: Heap, h': Heap, head: Ref, order: seq<Ref>, roots: seq<Ref>, extra: multiset<Ref>,
      extra': multiset<Ref>, stale: Slot, keep: set<Ref>)
    requires Kept(h, roots, extra, stale, keep) && Shrunk(h, h') && keep <= h'.Keys && extra <= extra'
    ensures Kept(h', roots, extra', stale, keep) && |h'| <= |h|
  {
    forall k | k in keep ensures Reduced(h[k], h'[k]) {}
    SupportedKept(h, h', roots, extra, extra', stale, keep);
    SubsetSize(h'.Keys, h.Keys);
  }

  /** What is left after a drop was supported before it, so no object outlives its last holder. */
  lemma LeftSupported(h: Heap, h': Heap, head: Ref, order: seq<Ref>, roots: seq<Ref>, extra: multiset<Ref>, stale: Slot)
    requires Shrunk(h, h') && Linked(h', head, order) && Counted(h', order, roots, extra, stale)
    ensures Supported(h, roots, extra, stale, h'.Keys)
  {
    forall k | k in h' ensures Held(h, roots, extra, stale, h'.Keys, k) {
      assert Reduced(h[k], h'[k]) && CountOk(h', order, roots, extra, stale, k);
      if h[k].user == 0 && h[k].sys > 0 && k !in RootsOf(roots, stale) && extra[k] == 0 {
        CountMember(RootsOf(roots, stale), k);
        var i := SlotFound(order, h', stale, k);
        var m := order[i];
        assert m in h' && Reduced(h[m], h'[m]);
        assert k in FieldsOf(h, stale, m);
      }
    }
  }

  /** A drop that keeps the survivors leaves exactly them. */
  lemma ExactlySurvivors(h: Heap, h': Heap, head: Ref, order: seq<Ref>, roots: seq<Ref>, extra: multiset<Ref>,
      stale: Slot, gone: set<Ref>)
    requires Shrunk(h, h') && Sound(h', head, order, roots, extra, stale) && h'.Keys !! gone
    requires Survivors(h, roots, extra, stale, gone) <= h'.Keys
    ensures h'.Keys == Survivors(h, roots, extra, stale, gone)
  {
    LeftSupported(h, h', head, order, roots, extra, stale);
  }

  /** No outcome of a drop whose list and counts are right has the object that holds the slot, if it is no
      survivor. */
  lemma HolderGoes(h: Heap, h': Heap, head: Ref, order: seq<Ref>, roots: seq<Ref>, extra: multiset<Ref>, slot: Slot)
    requires Shrunk(h, h') && Linked(h', head, order) && Counted(h', order, roots, extra, slot) && slot.Field?
    requires slot.owner !in Survivors(h, roots, extra, slot, {})
    ensures slot.owner !in h'
  {
    LeftSupported(h, h', head, order, roots, extra, slot);
  }

  class Context {
    var heap: Heap
    var head: Ref
    var roots: seq<Ref>
    ghost var order: seq<Ref>

    ghost predicate Valid(extra: multiset<Ref>, stale: Slot)
      reads this
    {
      Sound(heap, head, order, roots, extra, stale)
    }

    /** `remove`: unlinks `o` from the list. */
    method Remove(o: Ref)
      requires Linkable(heap, o)
      modifies this`heap, this`head
      ensures heap.Keys == old(heap.Keys) && heap - {o} == Unlink(old(heap), o)
      ensures head == if old(head) == o then old(heap[o].next) else old(head)
    {
      if head == o { head := heap[o].next; }
      if heap[o].prev != 0 { heap := heap[heap[o].prev := heap[heap[o].prev].(next := heap[o].next)]; }
      if heap[o].next != 0 { heap := heap[heap[o].next := heap[heap[o].next].(prev := heap[o].prev)]; }
      heap := heap[o := heap[o].(prev := 0, next := 0)];
    }

    /** `decSysRef` for a reference to `o` that is counted but no longer held by a slot.  The object
        goes exactly when this brings both counts to zero, and with it everything that only it held:
        of the objects, `keep` stays, for any set that is supported without the dropped reference. */
    method DecSysRef(o: Ref, ghost extra: multiset<Ref>, ghost stale: Slot, ghost keep: set<Ref>)
        returns (deleted: bool)
      requires o in heap && Valid(extra + multiset{o}, stale) && Kept(heap, roots, extra, stale, keep)
      modifies this
      ensures Valid(extra, stale) && roots == old(roots)
      ensures Shrunk(old(heap), heap) && keep <= heap.Keys
      ensures deleted <==> o !in heap
      ensures deleted <==> old(heap[o].sys == 1 && heap[o].user == 0)
      ensures !deleted ==> heap == Dropped(old(heap), o)
      decreases |heap|, 2
    {
      ghost var h0 := heap;
      DropStep(h0, head, order, roots, extra, stale, keep, o);
      heap := heap[o := heap[o].(sys := heap[o].sys - 1)];
      deleted := false;
      if heap[o].sys + 1 <= 1 && heap[o].user <= 0 {
        deleted := CheckDelete(o, extra, stale, keep);
        DropShrinks(h0, heap, o);
      }
    }

    /** `checkDelete`: an object with both counts zero leaves the list and is destroyed. */
    method CheckDelete(o: Ref, ghost extra: multiset<Ref>, ghost stale: Slot, ghost keep: set<Ref>)
        returns (deleted: bool)
      requires o in heap && Valid(extra, stale) && Kept(heap, roots, extra, stale, keep) && o !in keep
      modifies this
      ensures Valid(extra, stale) && roots == old(roots)
      ensures Shrunk(old(heap), heap) && keep <= heap.Keys
      ensures deleted <==> o !in heap
      ensures deleted <==> old(heap[o].sys == 0 && heap[o].user == 0)
      ensures !deleted ==> heap == old(heap)
      decreases |heap|, 1
    {
      if heap[o].user != 0 || heap[o].sys != 0 { return false; }
      ghost var h0, head0, order0 := heap, head, order;
      ghost var k :| 0 <= k < |order| && order[k] == o;
      Neighbours(h0, head, order, k);
      DeleteStep(h0, head, order, roots, extra, stale, keep, k);
      var members := heap[o].fields;
      Remove(o);
      heap := heap - {o};
      order := Without(order, k);
      Release(members, extra, stale, keep);
      DeleteShrinks(h0, heap, head0, order0, k);
      return true;
    }

    /** The member destructors: every reference an object held is dropped, last member first. */
    method Release(members: seq<Ref>, ghost extra: multiset<Ref>, ghost stale: Slot, ghost keep: set<Ref>)
      requires Valid(extra + multiset(members), stale) && Kept(heap, roots, extra, stale, keep)
      modifies this
      ensures Valid(extra, stale) && roots == old(roots)
      ensures Shrunk(old(heap), heap) && keep <= heap.Keys
      decreases |heap|, 3, |members|
    {
      if |members| == 0 {
        assert extra + multiset(members) == extra;
        return;
      }
      ghost var h0 := heap;
      var rest, m := members[..|members| - 1], members[|members| - 1];
      ghost var pending := extra + multiset(rest);
      assert members == rest + [m];
      assert extra + multiset(members) == pending + multiset{m};
      if m != 0 {
        assert CountOk(heap, order, roots, pending + multiset{m}, stale, m);
        KeptAfter(heap, heap, head, order, roots, extra, pending, stale, keep);
        var _ := DecSysRef(m, pending, stale, keep);
        KeptAfter(h0, heap, head, order, roots, extra, extra, stale, keep);
      } else {
        CountedZero(heap, order, roots, pending + multiset{m}, pending, stale);
      }
      ghost var h1 := heap;
      Release(rest, extra, stale, keep);
      ShrunkTransitive(h0, h1, heap);
    }

    /** The drop both `ObjectBaseRef::clear` and `rsrSetObject` make: the reference in a slot goes, the
        slot still holds the old value.  Exactly the objects held without that slot are left.  If the
        slot is a member, its owner has to be one of them. */
    method DropSlot(slot: Slot, ghost extra: multiset<Ref>)
      requires Valid(extra, NoSlot) && SlotOk(heap, roots, slot)
      requires slot.Field? ==> slot.owner in Survivors(heap, roots, extra, slot, {})
      modifies this
      ensures Valid(extra, slot) && roots == old(roots) && Shrunk(old(heap), heap)
      ensures heap.Keys == old(Survivors(heap, roots, extra, slot, {}))
    {
      ghost var h0, keep := heap, Survivors(heap, roots, extra, slot, {});
      SurvivorsSupported(heap, roots, extra, slot, {});
      StaleStep(heap, head, order, roots, extra, slot);
      var v := Read(heap, roots, slot);
      if v != 0 {
        PendingLive(heap, head, order, roots, extra, slot, v);
        var _ := DecSysRef(v, extra, slot, keep);
      } else {
        CountedZero(heap, order, roots, extra + multiset{v}, extra, slot);
      }
      ExactlySurvivors(h0, heap, head, order, roots, extra, slot, {});
    }

    /** `ObjectBaseRef::clear`, and `rsrClearObject`: the slot drops its reference and becomes NULL. */
    method RefClear(slot: Slot)
      requires Valid(multiset{}, NoSlot) && SlotOk(heap, roots, slot)
      requires slot.Field? ==> slot.owner in Survivors(heap, roots, multiset{}, slot, {})
      modifies this
      ensures Valid(multiset{}, NoSlot) && SlotOk(heap, roots, slot) && Read(heap, roots, slot) == 0
      ensures heap.Keys == old(Survivors(heap, roots, multiset{}, slot, {}))
      ensures roots == WriteRoot(old(roots), slot, 0) && Rewritten(old(heap), heap, slot, 0)
    {
      ghost var h0 := heap;
      DropSlot(slot, multiset{});
      ghost var h1 := heap;
      CountedZero(heap, order, roots, multiset{}, multiset{} + multiset{0}, slot);
      WriteStep(heap, head, order, roots, multiset{}, slot, 0);
      Store(slot, 0);
      ShrunkWrite(h0, h1, slot, 0);
    }

    /** `ObjectBaseRef::set`.  Clearing comes first, so `ref` has to survive it: the result says whether
        it did.  If not, the next step of the original would touch a deleted object. */
    method RefSet(slot: Slot, ref: Ref) returns (alive: bool)
      requires Valid(multiset{}, NoSlot) && SlotOk(heap, roots, slot) && !slot.NoSlot? && (ref == 0 || ref in heap)
      requires slot.Field? ==> slot.owner in Survivors(heap, roots, multiset{}, slot, {})
      modifies this
      ensures Valid(multiset{}, NoSlot) && SlotOk(heap, roots, slot)
      ensures alive <==>
          ref == 0 || old(Read(heap, roots, slot)) == ref || ref in old(Survivors(heap, roots, multiset{}, slot, {}))
      ensures alive ==> Read(heap, roots, slot) == ref
      ensures old(Read(heap, roots, slot)) == ref ==> heap == old(heap) && roots == old(roots)
      ensures old(Read(heap, roots, slot)) != ref ==> heap.Keys == old(Survivors(heap, roots, multiset{}, slot, {}))
      ensures old(Read(heap, roots, slot)) != ref && alive ==>
        roots == WriteRoot(old(roots), slot, ref) && Rewritten(old(heap), heap, slot, ref)
    {
      if Read(heap, roots, slot) == ref { return true; }
      ghost var h0 := heap;
      RefClear(slot);
      if ref == 0 { return true; }
      if ref !in heap { return false; }
      ghost var h1 := heap;
      Fill(slot, ref);
      RewrittenTwice(h0, h1, heap, slot, ref);
      return true;
    }

    /** The second half of `ObjectBaseRef::set`, and its constructors: a NULL slot takes `ref`. */
    method Fill(slot: Slot, ref: Ref)
      requires Valid(multiset{}, NoSlot) && SlotOk(heap, roots, slot) && !slot.NoSlot? && ref in heap &&
          Read(heap, roots, slot) == 0
      modifies this
      ensures Valid(multiset{}, NoSlot) && SlotOk(heap, roots, slot) && Read(heap, roots, slot) == ref
      ensures heap.Keys == old(heap.Keys)
      ensures roots == WriteRoot(old(roots), slot, ref) && Rewritten(old(heap), heap, slot, ref)
    {
      ghost var h1, r1 := Write(heap, slot, ref), WriteRoot(roots, slot, ref);
      FillStep(heap, head, order, roots, slot, ref);
      FillWrites(heap, roots, slot, ref);
      Store(slot, ref);
      assert heap == h1 && roots == r1;
      heap := Raised(heap, ref);
    }

    /** `incSysRef` on a reference that may be NULL: one more reference is pending. */
    method IncSysRef(o: Ref)
      requires Valid(multiset{}, NoSlot) && (o == 0 || o in heap)
      modifies this`heap
      ensures Valid(Pending(o), NoSlot) && heap == RaisedIf(old(heap), o)
    {
      if o != 0 {
        CountedStep(heap, o, heap[o].sys + 1, order, roots, multiset{}, Pending(o), NoSlot);
        LinkedSame(heap, Raised(heap, o), head, order);
        heap := heap[o := heap[o].(sys := heap[o].sys + 1)];
      }
    }

    /** `rsrSetObject`.  The new reference is counted first, so whatever the old one held, `src` stays. */
    method RsrSetObject(dst: Slot, src: Ref)
      requires Valid(multiset{}, NoSlot) && SlotOk(heap, roots, dst) && !dst.NoSlot? && (src == 0 || src in heap)
      requires dst.Field? ==> dst.owner in Survivors(heap, roots, Pending(src), dst, {})
      modifies this
      ensures Valid(multiset{}, NoSlot) && SlotOk(heap, roots, dst) && Read(heap, roots, dst) == src
      ensures heap.Keys == old(Survivors(heap, roots, Pending(src), dst, {}))
      ensures roots == WriteRoot(old(roots), dst, src) && Rewritten(old(heap), heap, dst, src)
    {
      ghost var h0 := heap;
      CountThenDrop(dst, src);
      SetWrites(h0, heap, dst, src);
      Settle(dst, src);
    }

    method CountThenDrop(dst: Slot, src: Ref)
      requires Valid(multiset{}, NoSlot) && SlotOk(heap, roots, dst) && (src == 0 || src in heap)
      requires dst.Field? ==> dst.owner in Survivors(heap, roots, Pending(src), dst, {})
      modifies this
      ensures Valid(Pending(src), dst) && roots == old(roots) && Shrunk(RaisedIf(old(heap), src), heap)
      ensures heap.Keys == old(Survivors(heap, roots, Pending(src), dst, {}))
    {
      RaisedSurvivors(heap, roots, dst, src);
      IncSysRef(src);
      DropSlot(dst, Pending(src));
    }

    /** The pending reference to `v` moves into the slot whose old value has been dropped. */
    method Settle(slot: Slot, v: Ref)
      requires Valid(Pending(v), slot) && !slot.NoSlot?
      modifies this`heap, this`roots
      ensures Valid(multiset{}, NoSlot) && SlotOk(heap, roots, slot) && Read(heap, roots, slot) == v
      ensures heap == Write(old(heap), slot, v) && roots == WriteRoot(old(roots), slot, v)
    {
      CountedZero(heap, order, roots, Pending(v), multiset{} + multiset{v}, slot);
      WriteStep(heap, head, order, roots, multiset{}, slot, v);
      Store(slot, v);
    }

    /** `*dst = v`. */
    method Store(slot: Slot, v: Ref)
      requires SlotOk(heap, roots, slot)
      modifies this`heap, this`roots
      ensures heap == Write(old(heap), slot, v) && roots == WriteRoot(old(roots), slot, v)
      ensures SlotOk(heap, roots, slot) && (slot.NoSlot? || Read(heap, roots, slot) == v)
      ensures forall t :: t != slot && SlotOk(old(heap), old(roots), t) ==>
        SlotOk(heap, roots, t) && Read(heap, roots, t) == Read(old(heap), old(roots), t)
    {
      match slot
      case NoSlot =>
      case Root(i) => roots := roots[i := v];
      case Field(o, i) => heap := heap[o := heap[o].(fields := heap[o].fields[i := v])];
    }

    constructor ()
      ensures Valid(multiset{}, NoSlot) && heap == map[] && head == 0 && roots == []
    {
      heap, head, roots, order := map[], 0, [], [];
      new;
      EmptySound();
    }

    /** A new slot outside the objects: a script global or a local `ObjectBaseRef`, NULL at first. */
    method AddRoot() returns (slot: Slot)
      requires Valid(multiset{}, NoSlot)
      modifies this`roots
      ensures Valid(multiset{}, NoSlot) && roots == old(roots) + [0] && slot == Root(|old(roots)|)
    {
      RootStep(heap, head, order, roots);
      slot := Root(|roots|);
      roots := roots + [0];
    }

    /** `ObjectBase` construction and `add`: a new object with no references, at the head of the list. */
    method Create(o: Ref, members: nat)
      requires Valid(multiset{}, NoSlot) && o != 0 && o !in heap
      modifies this
      ensures Valid(multiset{}, NoSlot) && roots == old(roots) && head == o
      ensures heap.Keys == old(heap.Keys) + {o} && heap[o].user == 0 && heap[o].sys == 0
      ensures forall k :: k in old(heap) ==> SameButLinks(old(heap)[k], heap[k])
    {
      PushLinked(heap, head, order, o, members);
      PushCounted(heap, head, order, roots, o, members);
      assert head in heap <==> head != 0;
      ghost var h' := Push(heap, head, o, members);
      if head != 0 { heap := heap[head := heap[head].(prev := o)]; }
      heap := heap[o := Obj(0, 0, 0, head, seq(members, i => 0))];
      assert heap == h';
      head := o;
      order := [o] + order;
    }

    /** `incUserRef`. */
    method IncUserRef(o: Ref)
      requires Valid(multiset{}, NoSlot) && o in heap
      modifies this`heap
      ensures Valid(multiset{}, NoSlot) && heap == WithUser(old(heap), o, old(heap[o].user) + 1)
    {
      assert CountOk(heap, order, roots, multiset{}, NoSlot, o);
      UserStep(heap, head, order, roots, o, heap[o].user + 1);
      heap := heap[o := heap[o].(user := heap[o].user + 1)];
    }

    /** `decUserRef`: the object goes exactly when both counts are zero then, and with it exactly the
        objects not held without it. */
    method DecUserRef(o: Ref) returns (deleted: bool)
      requires Valid(multiset{}, NoSlot) && o in heap && heap[o].user > 0
      modifies this
      ensures Valid(multiset{}, NoSlot) && roots == old(roots)
      ensures deleted <==> old(heap[o].user == 1 && heap[o].sys == 0)
      ensures !deleted ==> heap == WithUser(old(heap), o, old(heap[o].user) - 1)
      ensures deleted ==>
          Shrunk(old(heap), heap) && heap.Keys == old(Survivors(WithUser(heap, o, 0), roots, multiset{}, NoSlot, {o}))
    {
      assert CountOk(heap, order, roots, multiset{}, NoSlot, o);
      UserStep(heap, head, order, roots, o, heap[o].user - 1);
      ghost var h0 := heap;
      heap := heap[o := heap[o].(user := heap[o].user - 1)];
      if heap[o].user + 1 <= 1 && heap[o].sys <= 0 {
        ghost var h1, keep := heap, Survivors(heap, roots, multiset{}, NoSlot, {o});
        SurvivorsSupported(heap, roots, multiset{}, NoSlot, {o});
        deleted := CheckDelete(o, multiset{}, NoSlot, keep);
        ExactlySurvivors(h1, heap, head, order, roots, multiset{}, NoSlot, {o});
        UserShrinks(h0, heap, o, 0);
      } else {
        deleted := false;
      }
    }

    /** `zeroUserRef`. */
    method ZeroUserRef(o: Ref, ghost keep: set<Ref>) returns (deleted: bool)
      requires Valid(multiset{}, NoSlot) && o in heap && Anchor(heap, roots, keep)
      modifies this
      ensures Valid(multiset{}, NoSlot) && roots == old(roots) && Anchor(heap, roots, keep) &&
          SameMembers(old(heap), heap)
      ensures deleted <==> o !in heap
      ensures deleted <==> old(heap[o].sys) == 0
      ensures !deleted ==>
          heap == WithUser(old(heap), o, 0) && heap[o].sys > 0 && head == old(head) && order == old(order)
    {
      ghost var h0 := heap;
      assert CountOk(heap, order, roots, multiset{}, NoSlot, o);
      UserStep(heap, head, order, roots, o, 0);
      AnchorKept(heap, head, order, roots, keep, o);
      heap := heap[o := heap[o].(user := 0)];
      deleted := false;
      if heap[o].sys <= 0 {
        deleted := CheckDelete(o, multiset{}, NoSlot, keep);
        UserShrinks(h0, heap, o, 0);
      }
      AnchorSame(h0, heap, roots, keep);
    }

    /** `zeroAllUserRef`: the walk ends although it starts over after every delete, and what it leaves is
        exactly what the roots, or cycles, still hold. */
    method ZeroAllUserRef()
      requires Valid(multiset{}, NoSlot)
      modifies this
      ensures Valid(multiset{}, NoSlot) && roots == old(roots) && SameMembers(old(heap), heap)
      ensures forall k :: k in heap ==> heap[k].user == 0 && heap[k].sys > 0
      ensures heap.Keys == old(Anchored(heap, roots))
    {
      ghost var keep, h0 := Anchored(heap, roots), heap;
      AnchoredAnchor(heap, roots);
      var o := head;
      ghost var i := 0;
      while o != 0
        invariant Valid(multiset{}, NoSlot) && roots == old(roots) && Anchor(heap, roots, keep) && SameMembers(h0, heap)
        invariant 0 <= i <= |order| && o == At(order, i)
        invariant ZeroedUpTo(heap, order, i)
        decreases |heap|, |order| - i
      {
        assert LinkOk(heap, order, i);
        ghost var h1 := heap;
        var deleted := ZeroUserRef(o, keep);
        MembersTwice(h0, h1, heap);
        if deleted {
          Smaller(h1.Keys, heap.Keys, o);
          o, i := head, 0;
        } else {
          ZeroedNext(h1, head, order, i);
          o, i := heap[o].next, i + 1;
        }
      }
      AllZeroed(h0, heap, head, order, roots);
    }
  }

  /** Members other than `slot` are as they were, and so are the user counts. */
  ghost predicate Rewritten(h: Heap, h': Heap, slot: Slot, v: Ref) {
    h'.Keys <= h.Keys && forall k :: k in h' ==> OnlySlot(h[k], h'[k], slot, k, v)
  }

  predicate OnlySlot(a: Obj, b: Obj, slot: Slot, k: Ref, v: Ref) {
    && b.user == a.user
    && b.fields == if slot.Field? && slot.owner == k && slot.i < |a.fields| then a.fields[slot.i := v] else a.fields
  }

  lemma ShrunkWrite(h: Heap, h': Heap, slot: Slot, v: Ref)
    requires Shrunk(h, h') && (slot.Field? ==> slot.owner in h' && slot.i < |h'[slot.owner].fields|)
    ensures Rewritten(h, Write(h', slot, v), slot, v)
  {
    forall k | k in h' ensures OnlySlot(h[k], Write(h', slot, v)[k], slot, k, v) { assert Reduced(h[k], h'[k]); }
  }

  lemma PendingLive(h: Heap, head: Ref, order: seq<Ref>, roots: seq<Ref>, extra: multiset<Ref>, stale: Slot, v: Ref)
    requires Sound(h, head, order, roots, extra + multiset{v}, stale) && v != 0
    ensures v in h
  {
    assert CountOk(h, order, roots, extra + multiset{v}, stale, v);
  }

  /** The reference to `src` that is counted before a slot holds it. */
  function Pending(src: Ref): multiset<Ref> {
    if src == 0 then multiset{} else multiset{src}
  }

  function Raised(h: Heap, o: Ref): Heap
    requires o in h
  {
    h[o := h[o].(sys := h[o].sys + 1)]
  }

  /** Storing a reference in a NULL slot and counting it. */
  lemma FillStep(h: Heap, head: Ref, order: seq<Ref>, roots: seq<Ref>, s: Slot, v: Ref)
    requires Sound(h, head, order, roots, multiset{}, NoSlot) && SlotOk(h, roots, s) && !s.NoSlot? && v in h &&
        Read(h, roots, s) == 0
    ensures v in Write(h, s, v) && Sound(Raised(Write(h, s, v), v), head, order, WriteRoot(roots, s, v), multiset{},
        NoSlot)
  {
    StaleStep(h, head, order, roots, multiset{}, s);
    CountedZero(h, order, roots, multiset{} + multiset{0}, multiset{}, s);
    CountedStep(h, v, h[v].sys + 1, order, roots, multiset{}, multiset{} + multiset{v}, s);
    LinkedSame(h, Raised(h, v), head, order);
    WriteStep(Raised(h, v), head, order, roots, multiset{}, s, v);
    assert Raised(Write(h, s, v), v) == Write(Raised(h, v), s, v);
  }

  lemma FillWrites(h: Heap, roots: seq<Ref>, s: Slot, v: Ref)
    requires SlotOk(h, roots, s) && !s.NoSlot? && v in h
    ensures v in Write(h, s, v) && Rewritten(h, Raised(Write(h, s, v), v), s, v)
    ensures SlotOk(Raised(Write(h, s, v), v), WriteRoot(roots, s, v), s)
    ensures Read(Raised(Write(h, s, v), v), WriteRoot(roots, s, v), s) == v
    ensures Raised(Write(h, s, v), v).Keys == h.Keys
  {
    var h' := Raised(Write(h, s, v), v);
    assert h'.Keys == h.Keys;
    forall k | k in h' ensures OnlySlot(h[k], h'[k], s, k, v) {}
  }

  lemma RewrittenTwice(h: Heap, h': Heap, h'': Heap, s: Slot, v: Ref)
    requires Rewritten(h, h', s, 0) && Rewritten(h', h'', s, v)
    ensures Rewritten(h, h'', s, v)
  {
    forall k | k in h'' ensures OnlySlot(h[k], h''[k], s, k, v) {
      assert OnlySlot(h[k], h'[k], s, k, 0) && OnlySlot(h'[k], h''[k], s, k, v);
    }
  }

  function RaisedIf(h: Heap, o: Ref): Heap {
    if o in h then Raised(h, o) else h
  }

  lemma SetWrites(h: Heap, h': Heap, s: Slot, v: Ref)
    requires Shrunk(RaisedIf(h, v), h') && (s.Field? ==> s.owner in h' && s.i < |h'[s.owner].fields|)
    ensures Rewritten(h, Write(h', s, v), s, v)
  {
    ShrunkWrite(RaisedIf(h, v), h', s, v);
    forall k | k in h' ensures OnlySlot(h[k], Write(h', s, v)[k], s, k, v) {
      assert OnlySlot(RaisedIf(h, v)[k], Write(h', s, v)[k], s, k, v);
    }
  }

  /** Counting a pending reference does not change what survives. */
  lemma RaisedSurvivors(h: Heap, roots: seq<Ref>, stale: Slot, v: Ref)
    requires 0 !in h && (v == 0 || v in h)
    ensures Survivors(RaisedIf(h, v), roots, Pending(v), stale, {}) == Survivors(h, roots, Pending(v), stale, {})
  {
    var h', extra := RaisedIf(h, v), Pending(v);
    if v != 0 {
      forall keep ensures Supported(h', roots, extra, stale, keep) <==> Supported(h, roots, extra, stale, keep) {
        if Supported(h, roots, extra, stale, keep) { SupportedRaise(h, h', roots, stale, v, keep); }
        if Supported(h', roots, extra, stale, keep) { SupportedRaise(h', h, roots, stale, v, keep); }
      }
    }
  }

  lemma SupportedRaise(h: Heap, h': Heap, roots: seq<Ref>, stale: Slot, v: Ref, keep: set<Ref>)
    requires Supported(h, roots, multiset{v}, stale, keep) && h'.Keys == h.Keys
    requires forall k :: k in h ==> h'[k].user == h[k].user && h'[k].fields == h[k].fields && (k != v ==>
        h'[k].sys == h[k].sys)
    ensures Supported(h', roots, multiset{v}, stale, keep)
  {
    forall k | k in keep ensures Held(h', roots, multiset{v}, stale, keep, k) {
      assert Held(h, roots, multiset{v}, stale, keep, k);
      if m :| m in keep && k in FieldsOf(h, stale, m) { assert k in FieldsOf(h', stale, m); }
    }
  }

  // ---------------------------------------------------------------------------------------------
  // Creation and user counts

  lemma EmptySound()
    ensures Sound(map[], 0, [], [], multiset{}, NoSlot)
  {
    forall r: Ref ensures CountOk(map[], [], [], multiset{}, NoSlot, r) {
      assert Counts([], map[], NoSlot, r) == [];
    }
  }

  lemma RootStep(h: Heap, head: Ref, order: seq<Ref>, roots: seq<Ref>)
    requires Sound(h, head, order, roots, multiset{}, NoSlot)
    ensures Sound(h, head, order, roots + [0], multiset{}, NoSlot)
  {
    forall r: Ref ensures CountOk(h, order, roots + [0], multiset{}, NoSlot, r) {
      assert CountOk(h, order, roots, multiset{}, NoSlot, r);
      assert (roots + [0])[..|roots|] == roots;
    }
  }

  lemma {:induction false} NoCount(n: nat, r: Ref)
    requires r != 0
    ensures CountIn(seq(n, i => 0), r) == 0
  {
    if n > 0 {
      assert seq(n, i => 0)[..n - 1] == seq(n - 1, i => 0);
      NoCount(n - 1, r);
    }
  }

  lemma RefsPush(h: Heap, h': Heap, order: seq<Ref>, roots: seq<Ref>, o: Ref, members: nat, r: Ref)
    requires In(order, h) && o !in h && r != 0 && In([o] + order, h') && o in h'
    requires h'[o].fields == seq(members, i => 0) && forall p :: p in h ==> p in h' && h'[p].fields == h[p].fields
    ensures Refs(h', [o] + order, roots, multiset{}, NoSlot, r) == Refs(h, order, roots, multiset{}, NoSlot, r)
  {
    assert Without([o] + order, 0) == order;
    SlotsWithout([o] + order, h', NoSlot, 0, r);
    SlotsSame(order, h, h', NoSlot, NoSlot, r);
    NoCount(members, r);
  }

  lemma PushCounted(h: Heap, head: Ref, order: seq<Ref>, roots: seq<Ref>, o: Ref, members: nat)
    requires Sound(h, head, order, roots, multiset{}, NoSlot) && o !in h && o != 0
    ensures Counted(Push(h, head, o, members), [o] + order, roots, multiset{}, NoSlot)
  {
    var h', order' := Push(h, head, o, members), [o] + order;
    PushLinked(h, head, order, o, members);
    forall r: Ref ensures CountOk(h', order', roots, multiset{}, NoSlot, r) {
      assert CountOk(h, order, roots, multiset{}, NoSlot, r);
      if r != 0 { RefsPush(h, h', order, roots, o, members, r); }
    }
  }

  function WithUser(h: Heap, o: Ref, c: int): Heap
    requires o in h
  {
    h[o := h[o].(user := c)]
  }

  lemma UserStep(h: Heap, head: Ref, order: seq<Ref>, roots: seq<Ref>, o: Ref, c: int)
    requires Sound(h, head, order, roots, multiset{}, NoSlot) && o in h && c >= 0
    ensures Sound(WithUser(h, o, c), head, order, roots, multiset{}, NoSlot)
  {
    var h' := WithUser(h, o, c);
    forall p | p in h ensures h'[p].user >= 0 { assert CountOk(h, order, roots, multiset{}, NoSlot, p); }
    CountedSame(h, h', order, roots, multiset{}, NoSlot);
    LinkedSame(h, h', head, order);
  }

  lemma UserShrinks(h: Heap, h': Heap, o: Ref, c: int)
    requires o in h && o !in h' && Shrunk(WithUser(h, o, c), h')
    ensures Shrunk(h, h') && SameMembers(h, h')
  {
    forall k | k in h' ensures Reduced(h[k], h'[k]) { assert Reduced(WithUser(h, o, c)[k], h'[k]); }
  }

  // ---------------------------------------------------------------------------------------------
  // Teardown

  /** Every object in `keep` is held by a root or by a member of an object in `keep`. */
  ghost predicate Anchor(h: Heap, roots: seq<Ref>, keep: set<Ref>) {
    keep <= h.Keys && forall k :: k in keep ==> k in roots || exists m :: m in keep && k in h[m].fields
  }

  /** The objects held by roots or by cycles, whatever their user counts. */
  ghost function Anchored(h: Heap, roots: seq<Ref>): set<Ref> {
    set k | k in h.Keys && exists keep :: Anchor(h, roots, keep) && k in keep
  }

  ghost predicate SameMembers(h: Heap, h': Heap) {
    h'.Keys <= h.Keys && forall k :: k in h' ==> h'[k].fields == h[k].fields
  }

  predicate Zeroed(h: Heap, o: Ref) {
    o in h && h[o].user == 0 && h[o].sys > 0
  }

  /** The walk has passed the first `i` objects. */
  predicate ZeroedUpTo(h: Heap, order: seq<Ref>, i: nat) {
    i <= |order| && forall j :: 0 <= j < i ==> Zeroed(h, order[j])
  }

  lemma ZeroedNext(h: Heap, head: Ref, order: seq<Ref>, i: nat)
    requires Linked(h, head, order) && i < |order| && ZeroedUpTo(h, order, i) && h[order[i]].sys > 0
    ensures ZeroedUpTo(WithUser(h, order[i], 0), order, i + 1)
    ensures WithUser(h, order[i], 0)[order[i]].next == At(order, i + 1)
  {
    assert LinkOk(h, order, i);
    forall j | 0 <= j < i + 1 ensures Zeroed(WithUser(h, order[i], 0), order[j]) {
      if j < i { assert Zeroed(h, order[j]); }
    }
  }

  lemma AnchoredAnchor(h: Heap, roots: seq<Ref>)
    ensures Anchor(h, roots, Anchored(h, roots))
  {
    var all := Anchored(h, roots);
    forall k | k in all && k !in roots ensures exists m :: m in all && k in h[m].fields {
      var keep :| Anchor(h, roots, keep) && k in keep;
      assert keep <= all;
      var m :| m in keep && k in h[m].fields;
    }
  }

  lemma AnchorSame(h: Heap, h': Heap, roots: seq<Ref>, keep: set<Ref>)
    requires Anchor(h, roots, keep) && SameMembers(h, h') && keep <= h'.Keys
    ensures Anchor(h', roots, keep)
  {
    forall k | k in keep && k !in roots ensures exists m :: m in keep && k in h'[m].fields {
      var m :| m in keep && k in h[m].fields;
    }
  }

  lemma MembersTwice(h: Heap, h': Heap, h'': Heap)
    requires SameMembers(h, h') && SameMembers(h', h'')
    ensures SameMembers(h, h'')
  {
  }

  lemma Smaller(a: set<Ref>, b: set<Ref>, o: Ref)
    requires b <= a && o in a && o !in b
    ensures |b| < |a|
  {
    SubsetSize(b, a - {o});
  }

  lemma AnchorKept(h: Heap, head: Ref, order: seq<Ref>, roots: seq<Ref>, keep: set<Ref>, o: Ref)
    requires Sound(h, head, order, roots, multiset{}, NoSlot) && Anchor(h, roots, keep) && o in h
    ensures Kept(WithUser(h, o, 0), roots, multiset{}, NoSlot, keep)
    ensures h[o].sys == 0 ==> o !in keep
  {
    var h' := WithUser(h, o, 0);
    forall k | k in keep ensures Held(h', roots, multiset{}, NoSlot, keep, k) {
      if k !in roots {
        var m :| m in keep && k in h[m].fields;
        assert k in FieldsOf(h', NoSlot, m);
      }
    }
    if o in keep {
      assert CountOk(h, order, roots, multiset{}, NoSlot, o);
      CountMember(roots, o);
      if o !in roots {
        var m :| m in keep && o in h[m].fields;
        var k :| 0 <= k < |order| && order[k] == m;
        SlotCounts(order, h, NoSlot, k, o);
      }
    }
  }

  lemma AllZeroed(h: Heap, h': Heap, head: Ref, order: seq<Ref>, roots: seq<Ref>)
    requires Sound(h', head, order, roots, multiset{}, NoSlot) && SameMembers(h, h')
    requires ZeroedUpTo(h', order, |order|)
    ensures forall k :: k in h' ==> Zeroed(h', k)
    ensures h'.Keys <= Anchored(h, roots)
  {
    forall k | k in h' ensures Zeroed(h', k) && (k in roots || exists m :: m in h'.Keys && k in h[m].fields) {
      var j :| 0 <= j < |order| && order[j] == k;
      assert CountOk(h', order, roots, multiset{}, NoSlot, k);
      CountMember(roots, k);
      if k !in roots {
        var i := SlotFound(order, h', NoSlot, k);
        assert order[i] in h'.Keys && k in h[order[i]].fields;
      }
    }
    assert Anchor(h, roots, h'.Keys);
  }

  /** Nothing is anchored without roots and without cycles: teardown then leaves nothing. */
  lemma {:induction false} NothingAnchored(h: Heap, roots: seq<Ref>, rank: Ref -> nat)
    requires 0 !in h && forall i :: 0 <= i < |roots| ==> roots[i] == 0
    requires forall m, k :: m in h && k in h[m].fields && k in h ==> rank(k) < rank(m)
    ensures Anchored(h, roots) == {}
  {
    AnchoredAnchor(h, roots);
    var all := Anchored(h, roots);
    if all != {} {
      var k := Topmost(all, rank);
      var _ := Higher(h, roots, rank, all, k);
    }
  }

  lemma Higher(h: Heap, roots: seq<Ref>, rank: Ref -> nat, keep: set<Ref>, k: Ref) returns (m: Ref)
    requires Anchor(h, roots, keep) && k in keep && k !in roots
    requires forall m, k :: m in h && k in h[m].fields && k in h ==> rank(k) < rank(m)
    ensures m in keep && rank(m) > rank(k)
  {
    m :| m in keep && k in h[m].fields;
  }

  lemma {:induction false} Topmost(s: set<Ref>, rank: Ref -> nat) returns (k: Ref)
    requires s != {}
    ensures k in s && forall m :: m in s ==> rank(m) <= rank(k)
  {
    k :| k in s;
    if s != {k} {
      var t := Topmost(s - {k}, rank);
      if rank(t) > rank(k) { k := t; }
    }
  }

  // ---------------------------------------------------------------------------------------------
  // A target that only the cleared slot held

  /** 1 holds 2, 2 holds 3, and a script global holds 1. */
  function Chain(): Heap {
    map[1 := Obj(0, 1, 2, 0, [2]), 2 := Obj(0, 1, 3, 1, [3]), 3 := Obj(0, 1, 0, 2, [])]
  }

  lemma ChainSound()
    ensures Sound(Chain(), 3, [3, 2, 1], [1], multiset{}, NoSlot)
  {
    var h, order := Chain(), [3, 2, 1];
    assert forall i :: 0 <= i < |order| ==> LinkOk(h, order, i);
    forall r: Ref ensures CountOk(h, order, [1], multiset{}, NoSlot, r) {
      var c := Counts(order, h, NoSlot, r);
      assert [1][..0] == [] && [2][..0] == [] && [3][..0] == [];
      assert Sum(c) == Sum(c[..2]) + c[2] && Sum(c[..2]) == Sum(c[..2][..1]) + c[1] && Sum(c[..2][..1]) == c[0];
    }
  }

  lemma NeedsHolder(h: Heap, roots: seq<Ref>, stale: Slot, keep: set<Ref>, k: Ref)
    requires Supported(h, roots, multiset{}, stale, keep) && k in h && h[k].user == 0 && h[k].sys > 0 &&
        k !in RootsOf(roots, stale)
    ensures k in keep ==> exists m :: m in keep && k in FieldsOf(h, stale, m)
  {
    if k in keep { assert Held(h, roots, multiset{}, stale, keep, k); }
  }

  /** Setting the member of 1 to 3 clears it first, which deletes 2 and with it 3. */
  lemma SetDeletesItsTarget()
    ensures 3 in Chain() && 1 in Survivors(Chain(), [1], multiset{}, Field(1, 0), {})
    ensures 3 !in Survivors(Chain(), [1], multiset{}, Field(1, 0), {})
  {
    var h, slot := Chain(), Field(1, 0);
    assert Held(h, [1], multiset{}, slot, {1}, 1);
    assert Supported(h, [1], multiset{}, slot, {1});
    forall keep | Supported(h, [1], multiset{}, slot, keep) ensures 3 !in keep && 2 !in keep {
      assert FieldsOf(h, slot, 1) == [0];
      NeedsHolder(h, [1], slot, keep, 2);
      NeedsHolder(h, [1], slot, keep, 3);
    }
  }

  /** 1 and 2 hold each other, and nothing else does. */
  function Ring(): Heap {
    map[1 := Obj(0, 1, 2, 0, [2]), 2 := Obj(0, 1, 0, 1, [1])]
  }

  lemma RingSound()
    ensures Sound(Ring(), 2, [2, 1], [], multiset{}, NoSlot)
  {
    var h, order := Ring(), [2, 1];
    assert forall i :: 0 <= i < |order| ==> LinkOk(h, order, i);
    forall r: Ref ensures CountOk(h, order, [], multiset{}, NoSlot, r) {
      var c := Counts(order, h, NoSlot, r);
      assert [1][..0] == [] && [2][..0] == [];
      assert Sum(c) == Sum(c[..1]) + c[1] && Sum(c[..1]) == c[0];
    }
  }

  /** Clearing the member of 1 deletes 2, and with it 1, whose member is being cleared: every outcome whose list
      and counts are right is without them, and there is one. */
  lemma ClearDeletesItsHolder(h': Heap, head: Ref, order: seq<Ref>)
    ensures SlotOk(Ring(), [], Field(1, 0))
    ensures RingOutcome(h', head, order) <==> h' == map[] && head == 0 && order == []
  {
    var slot := Field(1, 0);
    RingHeld();
    if RingOutcome(h', head, order) {
      LeftSupported(Ring(), h', head, order, [], multiset{}, slot);
      assert h'.Keys <= Survivors(Ring(), [], multiset{}, slot, {});
      NobodyListed(h', order);
    }
    if h' == map[] && head == 0 && order == [] {
      forall r: Ref ensures CountOk(h', order, [], multiset{}, slot, r) {}
    }
  }

  /** What clearing the member of 1 may leave. */
  ghost predicate RingOutcome(h': Heap, head: Ref, order: seq<Ref>) {
    Shrunk(Ring(), h') && Linked(h', head, order) && Counted(h', order, [], multiset{}, Field(1, 0))
  }

  lemma ListedLives(h: Heap, order: seq<Ref>)
    requires Lists(h, order) && order != []
    ensures h.Keys != {}
  {
    assert order[0] in h.Keys;
  }

  lemma NobodyListed(h: Heap, order: seq<Ref>)
    requires h.Keys == {} && Lists(h, order)
    ensures h == map[] && order == []
  {
    if order != [] { ListedLives(h, order); }
  }

  lemma RingHeld()
    ensures Survivors(Ring(), [], multiset{}, Field(1, 0), {}) == {}
  {
    var h, slot := Ring(), Field(1, 0);
    forall keep | Supported(h, [], multiset{}, slot, keep) ensures 1 !in keep && 2 !in keep {
      assert FieldsOf(h, slot, 1) == [0];
      NeedsHolder(h, [], slot, keep, 2);
      NeedsHolder(h, [], slot, keep, 1);
    }
  }

  lemma {:induction false} SubsetSize(a: set<Ref>, b: set<Ref>)
    requires a <= b
    ensures |a| <= |b|
  {
    if a != {} {
      var x :| x in a;
      SubsetSize(a - {x}, b - {x});
    }
  }
}
