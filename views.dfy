/** The typed views (None, Str, Int, Float, Tuple, List, Dict, Callable,
    Module): handles whose constructors and accessors pick, for each entry
    point, whether the new handle adopts a new reference or takes an
    increment of its own. A view is an `Object`; its type is the tag the
    runtime records for its referent. The accessors here take the ownership
    the entry point actually gives: a borrowed result is borrowed again, a
    stealing call is handed an increment of its own. */
module Views {
  import opened ObjectModel
  import opened Runtime
  import opened Handle

  /** None(): Object(Py_None) with the default `addref`, so the view takes
      an increment of its own on the interpreter's None. */
  method None(rt: Runtime) returns (o: Object)
    requires rt.Valid()
    modifies rt`tab, rt`acct
    ensures fresh(o) && o.Valid(rt) && o.ptr == NoneObject
    ensures rt.acct == Borrow(old(rt.acct), o, NoneObject)
    ensures rt.tab == old(rt.tab).(refcnt := rt.acct.refcnt)
    ensures rt.terminated == old(rt.terminated)
  {
    assert rt.acct.refcnt[NoneObject] == Tally(rt.acct, NoneObject);
    o := new Object.FromPointer(rt, NoneObject, true);
  }

  /** Py_ObjectWrap / Py_ObjWrap around a factory (Str from text, Float and
      Int from numbers, Tuple::FromSize, List(), List::FromSize, Dict(),
      Callable): the view adopts the factory's new reference, so it is the
      only owner of a new, empty object. A failed factory leaves an empty
      view. */
  method Wrap(rt: Runtime, tag: Tag, size: nat, ok: bool) returns (o: Object)
    requires rt.Valid() && tag != NoneType && (size == 0 || tag == TupleType || tag == ListType)
    modifies rt`tab, rt`acct
    ensures fresh(o) && o.Valid(rt) && o.ptr == (if ok then old(rt.tab.next) else Null)
    ensures ok ==> rt.acct == ObjectModel.Claim(Fresh(old(rt.acct), o.ptr), o, o.ptr)
    ensures ok ==> rt.tab == old(rt.tab).(refcnt := old(rt.tab.refcnt)[o.ptr := 1], types := old(rt.tab.types)[o.ptr := tag],
                                          lengths := old(rt.tab.lengths)[o.ptr := size], next := o.ptr + 1)
    ensures !ok ==> rt.acct == old(rt.acct) && rt.tab == old(rt.tab)
    ensures rt.terminated == old(rt.terminated)
  {
    var p := rt.New(tag, size, ok);
    o := new Object.FromPointer(rt, p, false);
  }

  /** Tuple::GetItem / List::GetItem (and so operator[] and the iterator's
      operator*): PyTuple_GetItem and PyList_GetItem return a borrowed
      reference, which the result view takes an increment on. Out of range
      or on the wrong type, the view is empty. */
  method GetItem(rt: Runtime, c: Object, kind: SeqKind, i: nat) returns (o: Object)
    requires c.Valid(rt) && c.ptr != Null
    modifies rt`tab, rt`acct
    ensures fresh(o) && o.Valid(rt) && c.Valid(rt)
    ensures o.ptr == if old(rt.tab.types[c.ptr]) == KindTag(kind) && i < |old(rt.Items(c.ptr))|
                     then old(rt.Items(c.ptr))[i] else Null
    ensures rt.acct == Borrow(old(rt.acct), o, o.ptr)
    ensures rt.tab == old(rt.tab).(refcnt := rt.acct.refcnt)
    ensures rt.terminated == old(rt.terminated)
  {
    HeldIsLive(rt.acct, c);
    var r := rt.SeqGetItem(kind, c.ptr, i);
    o := new Object.FromPointer(rt, r, true);
  }

  /** Tuple::SetItem / List::SetItem: PyTuple_SetItem and PyList_SetItem
      steal the item, so the view hands over an increment of its own and
      `obj` keeps its reference. Success replaces slot `i` (releasing the old
      item); on failure the entry point releases the stolen reference and
      everything is as before. A tuple accepts the store only while its count
      is one, counted after the increment. */
  method SetItem(rt: Runtime, c: Object, kind: SeqKind, i: nat, obj: Object) returns (ok: bool)
    requires c.Valid(rt) && obj.Valid(rt) && c.ptr != Null
    modifies rt`tab, rt`acct
    ensures c.Valid(rt) && obj.Valid(rt)
    ensures ok <==> old(rt.tab.types[c.ptr] == KindTag(kind) && i < rt.tab.lengths[c.ptr]
                        && (kind == TupleKind ==> rt.tab.refcnt[c.ptr] + (if obj.ptr == c.ptr then 1 else 0) == 1))
    ensures ok ==> rt.acct == Replace(ObjectModel.IncRef(old(rt.acct), obj.ptr), Slot(c.ptr, i), obj.ptr)
    ensures ok ==> rt.tab == old(rt.tab).(refcnt := rt.acct.refcnt, cells := rt.acct.cells)
    ensures !ok ==> rt.acct == old(rt.acct) && rt.tab == old(rt.tab)
    ensures rt.terminated == old(rt.terminated)
  {
    ghost var a0 := rt.acct;
    HeldIsLive(rt.acct, c);
    if obj.ptr != Null {
      HeldIsLive(rt.acct, obj);
    }
    obj.AddRef(rt);
    assert rt.IsLive(c.ptr) && (obj.ptr == Null || Pending(rt.acct, obj.ptr));
    var status := rt.SeqSetItem(kind, c.ptr, i, obj.ptr);
    ok := status == 0;
    if !ok {
      IncRefThenDispose(a0, obj.ptr);
    }
  }

  /** Tuple::SetItemInit / List::SetItemInit: PyTuple_SET_ITEM and
      PyList_SET_ITEM store into a slot of a brand-new container without any
      check and steal the item; with the view's own increment handed over,
      the container ends up with a reference of its own. */
  method SetItemInit(rt: Runtime, c: Object, i: nat, obj: Object)
    requires c.Valid(rt) && obj.Valid(rt) && c.ptr != Null
    requires i < |rt.Items(c.ptr)| && rt.Items(c.ptr)[i] == Null
    modifies rt`tab, rt`acct
    ensures c.Valid(rt) && obj.Valid(rt)
    ensures rt.Items(c.ptr) == old(rt.Items(c.ptr))[i := obj.ptr]
    ensures rt.acct == Share(old(rt.acct), Slot(c.ptr, i), obj.ptr)
    ensures rt.tab == old(rt.tab).(refcnt := rt.acct.refcnt, cells := rt.acct.cells)
    ensures rt.terminated == old(rt.terminated)
  {
    ghost var a0 := rt.acct;
    NullSlotIsEmpty(rt.tab, rt.acct, c.ptr, i);
    obj.AddRef(rt);
    rt.SeqSetItemInit(c.ptr, i, obj.ptr);
    if obj.ptr != Null {
      HeldIsLive(a0, obj);
      IncRefThenSteal(a0, Slot(c.ptr, i), obj.ptr);
    }
  }

  /** Table `t` is `t0` with list `p` added at the lowest unused address,
      holding `values` and counted once; every other object keeps its count,
      type and items, and every dictionary its mapping. */
  ghost predicate ListAdded(t0: Table, t: Table, p: Ptr, values: seq<Ptr>) {
    && p == t0.next && p !in t0.refcnt
    && t == t0.(refcnt := t0.refcnt[p := 1], types := t0.types[p := ListType],
                lengths := t0.lengths[p := |values|], cells := t.cells, next := p + 1)
    && SlotItems(t.cells, p, |values|) == values
    && (forall c :: c in t0.refcnt && c in t0.lengths ==> SlotItems(t.cells, c, t0.lengths[c]) == SlotItems(t0.cells, c, t0.lengths[c]))
    && (forall e :: DictOf(t.cells, e) == DictOf(t0.cells, e))
  }

  /** List::FromValues: PyList_New(n), then PyList_SET_ITEM of value `i`
      into slot `i`, then the view adopts the list. The values are new
      references the caller gives away; the list steals each of them. */
  method ListFromValues(rt: Runtime, values: seq<Ptr>, ok: bool) returns (o: Object)
    requires rt.Valid() && Covers(rt.acct.pending, values)
    requires forall j :: 0 <= j < |values| ==> values[j] in rt.tab.refcnt
    requires ok || |values| == 0
    modifies rt`tab, rt`acct
    ensures fresh(o) && o.Valid(rt)
    ensures ok ==> ListAdded(old(rt.tab), rt.tab, o.ptr, values)
    ensures ok ==> rt.acct.pending == Spend(old(rt.acct.pending), values)[o.ptr := 0]
    ensures ok ==> rt.acct.held == old(rt.acct.held)[o := o.ptr] && rt.acct.ext == old(rt.acct.ext)[o.ptr := 0]
    ensures !ok ==> o.ptr == Null && rt.acct == old(rt.acct) && rt.tab == old(rt.tab)
    ensures rt.terminated == old(rt.terminated)
  {
    var p := NewList(rt, values, ok);
    ghost var a1, t1 := rt.acct, rt.tab;
    o := new Object.FromPointer(rt, p, false);
    if ok {
      assert rt.acct == a1.(held := a1.held[o := p], pending := Dec(a1.pending, p)) && rt.tab == t1;
      DecAfterOne(Spend(old(rt.acct.pending), values), p);
    }
  }

  /** The part of List::FromValues before the wrap: the new list with value
      `i` in slot `i`, and one new reference to it that the caller owns. */
  method NewList(rt: Runtime, values: seq<Ptr>, ok: bool) returns (p: Ptr)
    requires rt.Valid() && Covers(rt.acct.pending, values)
    requires forall j :: 0 <= j < |values| ==> values[j] in rt.tab.refcnt
    requires ok || |values| == 0
    modifies rt`tab, rt`acct
    ensures rt.Valid() && rt.acct.held == old(rt.acct.held)
    ensures ok ==> ListAdded(old(rt.tab), rt.tab, p, values) && Pending(rt.acct, p)
    ensures ok ==> rt.acct.pending == Spend(old(rt.acct.pending), values)[p := 1]
    ensures ok ==> rt.acct.ext == old(rt.acct.ext)[p := 0]
    ensures !ok ==> p == Null && rt.acct == old(rt.acct) && rt.tab == old(rt.tab)
    ensures rt.terminated == old(rt.terminated)
  {
    ghost var t0 := rt.tab;
    p := EmptyList(rt, |values|, ok);
    if ok {
      ghost var t1 := rt.tab;
      assert p !in values;
      SpendElsewhere(old(rt.acct.pending), values, p, 1);
      FillStep(values, 0);
      FillSlots(rt, p, values);
      AddedThenFilled(t0, t1, rt.tab, p, values);
    }
  }

  /** Table `t` is `t0` with the slots of list `p` filled with `values`;
      every other list or tuple keeps its items and every dictionary its
      mapping. */
  ghost predicate Refilled(t0: Table, t: Table, p: Ptr, values: seq<Ptr>) {
    && t == t0.(cells := t.cells)
    && p in t0.lengths && t0.lengths[p] == |values| && SlotItems(t.cells, p, |values|) == values
    && (forall c :: c in t0.lengths && c != p ==> SlotItems(t.cells, c, t0.lengths[c]) == SlotItems(t0.cells, c, t0.lengths[c]))
    && (forall e :: DictOf(t.cells, e) == DictOf(t0.cells, e))
  }

  /** Adding an empty list and then filling its slots adds the filled list. */
  lemma AddedThenFilled(t0: Table, t1: Table, t: Table, p: Ptr, values: seq<Ptr>)
    requires ListAdded(t0, t1, p, seq(|values|, _ => Null)) && Refilled(t1, t, p, values)
    ensures ListAdded(t0, t, p, values)
  {
    forall c | c in t0.refcnt && c in t0.lengths
      ensures SlotItems(t.cells, c, t0.lengths[c]) == SlotItems(t0.cells, c, t0.lengths[c])
    {
      assert c != p && t1.lengths[c] == t0.lengths[c];
    }
  }

  /** PyList_New(n): a new list of `n` empty slots, and one new reference to
      it that the caller owns; every other object is as it was. */
  method EmptyList(rt: Runtime, n: nat, ok: bool) returns (p: Ptr)
    requires rt.Valid()
    modifies rt`tab, rt`acct
    ensures rt.Valid() && rt.terminated == old(rt.terminated)
    ensures ok ==> p == old(rt.tab.next) && p !in old(rt.tab.refcnt) && rt.acct == Fresh(old(rt.acct), p)
    ensures ok ==> ListAdded(old(rt.tab), rt.tab, p, seq(n, _ => Null)) && rt.tab.cells == old(rt.tab.cells)
    ensures !ok ==> p == Null && rt.acct == old(rt.acct) && rt.tab == old(rt.tab)
  {
    UnknownHoldsNothing(rt.tab, rt.acct, rt.tab.next, n);
    p := rt.New(ListType, n, ok);
  }

  /** The loop of List::FromValues: value `i` goes into the empty slot `i`
      of list `p`, which steals it. */
  method FillSlots(rt: Runtime, p: Ptr, values: seq<Ptr>)
    requires rt.Valid() && p in rt.tab.refcnt && rt.tab.lengths[p] == |values|
    requires rt.Items(p) == Filled(values, 0)
    requires Covers(rt.acct.pending, values) && forall j :: 0 <= j < |values| ==> values[j] in rt.tab.refcnt
    modifies rt`tab, rt`acct
    ensures rt.Valid() && Refilled(old(rt.tab), rt.tab, p, values)
    ensures rt.acct == old(rt.acct).(cells := rt.acct.cells, pending := Spend(old(rt.acct.pending), values))
    ensures rt.terminated == old(rt.terminated)
  {
    ghost var t0, a0 := rt.tab, rt.acct;
    RefilledStart(t0, p, values);
    var i := 0;
    while i < |values|
      invariant 0 <= i <= |values|
      invariant rt.Valid() && rt.terminated == old(rt.terminated) && Refilled(t0, rt.tab, p, Filled(values, i))
      invariant rt.acct == a0.(cells := rt.acct.cells, pending := Spend(a0.pending, values[..i]))
    {
      FillSlot(rt, p, values, i, t0, a0);
      i := i + 1;
    }
    FillStep(values, i);
  }

  /** Before the first pass, the list already holds the empty prefix. */
  lemma RefilledStart(t0: Table, p: Ptr, values: seq<Ptr>)
    requires p in t0.lengths && t0.lengths[p] == |values| && SlotItems(t0.cells, p, |values|) == Filled(values, 0)
    ensures Refilled(t0, t0, p, Filled(values, 0))
  {
  }

  /** One pass of that loop: PyList_SET_ITEM(list, i, values[i]). */
  method FillSlot(rt: Runtime, p: Ptr, values: seq<Ptr>, i: nat, ghost t0: Table, ghost a0: Account)
    requires i < |values| && rt.Valid() && p in rt.tab.refcnt && Refilled(t0, rt.tab, p, Filled(values, i))
    requires Covers(a0.pending, values) && forall j :: 0 <= j < |values| ==> values[j] in rt.tab.refcnt
    requires rt.acct == a0.(cells := rt.acct.cells, pending := Spend(a0.pending, values[..i]))
    modifies rt`tab, rt`acct
    ensures rt.Valid() && p in rt.tab.refcnt && Refilled(t0, rt.tab, p, Filled(values, i + 1))
    ensures rt.acct == a0.(cells := rt.acct.cells, pending := Spend(a0.pending, values[..i + 1]))
    ensures rt.terminated == old(rt.terminated)
  {
    ghost var t := rt.tab;
    SpendNext(a0.pending, values, i);
    FillStep(values, i);
    NullSlotIsEmpty(rt.tab, rt.acct, p, i);
    rt.SeqSetItemInit(p, i, values[i]);
    RefillStep(t0, t, rt.tab, p, values, i);
  }

  /** One step of the loop: storing value `i` into slot `i` touches no other
      list, tuple or dictionary. */
  lemma RefillStep(t0: Table, t: Table, t2: Table, p: Ptr, values: seq<Ptr>, i: nat)
    requires i < |values| && Refilled(t0, t, p, Filled(values, i))
    requires t2 == t.(cells := t2.cells) && SlotItems(t2.cells, p, |values|) == Filled(values, i + 1)
    requires t2.cells == t.cells || t2.cells == t.cells[Slot(p, i) := values[i]]
    ensures Refilled(t0, t2, p, Filled(values, i + 1))
  {
    SlotStoreElsewhere(t.cells, Slot(p, i), values[i]);
  }

  /** The first `i` values, then empty slots up to the length of `values`. */
  function Filled(values: seq<Ptr>, i: nat): (r: seq<Ptr>)
    requires i <= |values|
    ensures |r| == |values|
  {
    values[..i] + seq(|values| - i, _ => Null)
  }

  /** Filling slot `i` of a list whose first `i` slots hold the first `i`
      values and whose other slots are still empty. */
  lemma FillStep(values: seq<Ptr>, i: nat)
    requires i <= |values|
    ensures Filled(values, 0) == seq(|values|, _ => Null)
    ensures i == |values| ==> Filled(values, i) == values && values[..i] == values
    ensures i < |values| ==> Filled(values, i)[i] == Null
    ensures i < |values| ==> Filled(values, i + 1) == Filled(values, i)[i := values[i]]
    ensures i < |values| ==> values[..i + 1][..i] == values[..i]
  {
  }

  /** Import: PyImport_Import returns a new reference to the module, which
      the Module view adopts. `found` is the module the import finds. */
  method Import(rt: Runtime, name: Object, found: Ptr, ok: bool) returns (m: Object)
    requires name.Valid(rt) && name.ptr != Null && rt.IsLive(found)
    modifies rt`tab, rt`acct
    ensures fresh(m) && m.Valid(rt) && name.Valid(rt) && m.ptr == (if ok then found else Null)
    ensures rt.acct == Borrow(old(rt.acct), m, m.ptr)
    ensures rt.tab == old(rt.tab).(refcnt := rt.acct.refcnt)
    ensures rt.terminated == old(rt.terminated)
  {
    var p := rt.NewReference(found, ok);
    m := new Object.FromPointer(rt, p, false);
  }
}
