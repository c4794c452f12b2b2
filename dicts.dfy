/** Py::Dict's accessors and its two packing operations. A dictionary's
    contents are read off the runtime as `Dict(d)`, a map from key object to
    value object (keys compared by identity). */
module Dicts {
  import opened ObjectModel
  import opened Runtime
  import opened Handle
  import opened Pairs
  import Views

  /** Dict::GetItem: PyDict_GetItem returns a borrowed reference, or null
      for a missing key or a non-dictionary, and the result view takes an
      increment of its own on it. */
  method GetItem(rt: Runtime, d: Object, key: Object) returns (o: Object)
    requires d.Valid(rt) && key.Valid(rt) && d.ptr != Null && key.ptr != Null
    modifies rt`tab, rt`acct
    ensures fresh(o) && o.Valid(rt) && d.Valid(rt) && key.Valid(rt)
    ensures o.ptr == if old(rt.tab.types[d.ptr]) == DictType && key.ptr in old(rt.Dict(d.ptr))
                     then old(rt.Dict(d.ptr))[key.ptr] else Null
    ensures rt.acct == Borrow(old(rt.acct), o, o.ptr)
    ensures rt.tab == old(rt.tab).(refcnt := rt.acct.refcnt)
    ensures rt.terminated == old(rt.terminated)
  {
    HeldIsLive(rt.acct, d);
    HeldIsLive(rt.acct, key);
    var r := rt.DictGetItem(d.ptr, key.ptr);
    o := new Object.FromPointer(rt, r, true);
  }

  /** Dict::SetItem: PyDict_SetItem does not steal, so the dictionary takes
      references of its own; it refuses a non-dictionary and an unhashable
      key. */
  method SetItem(rt: Runtime, d: Object, key: Object, value: Object) returns (ok: bool)
    requires d.Valid(rt) && key.Valid(rt) && value.Valid(rt)
    requires d.ptr != Null && key.ptr != Null && value.ptr != Null
    modifies rt`tab, rt`acct
    ensures d.Valid(rt) && key.Valid(rt) && value.Valid(rt)
    ensures ok <==> old(rt.tab.types[d.ptr] == DictType && Hashable(rt.tab.types[key.ptr]))
    ensures rt.acct == if ok then PutEntry(old(rt.acct), d.ptr, key.ptr, value.ptr) else old(rt.acct)
    ensures rt.tab == old(rt.tab).(refcnt := rt.acct.refcnt, cells := rt.acct.cells)
    ensures forall e :: rt.Dict(e) == if ok && e == d.ptr then old(rt.Dict(e))[key.ptr := value.ptr] else old(rt.Dict(e))
    ensures rt.terminated == old(rt.terminated)
  {
    HeldIsLive(rt.acct, d);
    HeldIsLive(rt.acct, key);
    HeldIsLive(rt.acct, value);
    var status := rt.DictSetItem(d.ptr, key.ptr, value.ptr);
    ok := status == 0;
  }

  /** Dict::SetDefault: PyDict_SetDefault stores `def` under a missing key
      and returns a borrowed reference to the value now stored (null for a
      non-dictionary or an unhashable key); the result view takes an
      increment of its own on it. The only handle whose record changes is
      the result's. */
  method SetDefault(rt: Runtime, d: Object, key: Object, def: Object) returns (o: Object)
    requires d.Valid(rt) && key.Valid(rt) && def.Valid(rt)
    requires d.ptr != Null && key.ptr != Null && def.ptr != Null
    modifies rt`tab, rt`acct
    ensures fresh(o) && o.Valid(rt) && d.Valid(rt)
    ensures o.ptr == if old(rt.tab.types[d.ptr] == DictType && Hashable(rt.tab.types[key.ptr]))
                     then (if key.ptr in old(rt.Dict(d.ptr)) then old(rt.Dict(d.ptr))[key.ptr] else def.ptr) else Null
    ensures rt.acct == Borrow(if o.ptr != Null && key.ptr !in old(rt.Dict(d.ptr))
                              then PutEntry(old(rt.acct), d.ptr, key.ptr, def.ptr) else old(rt.acct), o, o.ptr)
    ensures rt.tab == old(rt.tab).(refcnt := rt.acct.refcnt, cells := rt.acct.cells)
    ensures forall e :: rt.Dict(e) == if e == d.ptr && o.ptr != Null && key.ptr !in old(rt.Dict(d.ptr))
                                      then old(rt.Dict(e))[key.ptr := def.ptr] else old(rt.Dict(e))
    ensures rt.terminated == old(rt.terminated)
  {
    HeldIsLive(rt.acct, d);
    HeldIsLive(rt.acct, key);
    HeldIsLive(rt.acct, def);
    var r := rt.DictSetDefault(d.ptr, key.ptr, def.ptr);
    ghost var a1 := rt.acct;
    o := new Object.FromPointer(rt, r, true);
    assert rt.acct == Borrow(a1, o, r);
  }

  /** Dict::SetItems: the flat list is read as (key, value) pairs, which
      PyDict_SetItem stores first to last; a refused pair is skipped. Every
      item must be kept alive by its caller (a reference it owns, or one a
      handle holds), and the count is even (an odd count would read past the
      end of the list). Each raw pointer is wrapped in a temporary handle for
      the call and the temporaries are destroyed right after it; by
      TemporaryAroundPut they leave no trace, so the loop here stores the
      pointers directly. */
  method SetItems(rt: Runtime, d: Object, items: seq<Ptr>)
    requires d.Valid(rt) && d.ptr != Null && |items| % 2 == 0
    requires forall j :: 0 <= j < |items| ==> Kept(rt.acct, items[j])
    modifies rt`tab, rt`acct
    ensures d.Valid(rt) && Stored(old(rt.tab), old(rt.acct), rt.tab, rt.acct, d.ptr, items)
    ensures rt.Dict(d.ptr) == if rt.tab.types[d.ptr] == DictType
                              then PutPairs(rt.tab.types, old(rt.Dict(d.ptr)), items) else old(rt.Dict(d.ptr))
    ensures forall e :: e != d.ptr ==> rt.Dict(e) == old(rt.Dict(e))
    ensures forall c :: c in old(rt.tab.lengths) ==> rt.Items(c) == old(rt.Items(c))
    ensures rt.terminated == old(rt.terminated)
  {
    var pairs := 0;
    while 2 * pairs < |items|
      invariant 2 * pairs <= |items|
      invariant d.Valid(rt) && rt.terminated == old(rt.terminated)
      invariant Stored(old(rt.tab), old(rt.acct), rt.tab, rt.acct, d.ptr, items[..2 * pairs])
    {
      assert 2 * pairs + 2 <= |items|;
      StoreNext(rt, d, items, pairs, old(rt.tab), old(rt.acct));
      pairs := pairs + 1;
    }
    assert items[..2 * pairs] == items;
    forall c | c in old(rt.tab.lengths)
      ensures rt.Items(c) == old(rt.Items(c))
    {
      OnlyEntriesItems(old(rt.tab.cells), rt.tab.cells, d.ptr, c, old(rt.tab.lengths[c]));
    }
    forall e | e != d.ptr
      ensures rt.Dict(e) == old(rt.Dict(e))
    {
      OnlyEntriesDicts(old(rt.tab.cells), rt.tab.cells, d.ptr, e);
    }
  }

  /** One turn of the SetItems loop, which extends Stored by the next pair. */
  method StoreNext(rt: Runtime, d: Object, items: seq<Ptr>, pairs: nat, ghost t0: Table, ghost a0: Account)
    requires d.Valid(rt) && d.ptr != Null && 2 * pairs + 2 <= |items|
    requires forall j :: 0 <= j < |items| ==> Kept(a0, items[j])
    requires Stored(t0, a0, rt.tab, rt.acct, d.ptr, items[..2 * pairs])
    modifies rt`tab, rt`acct
    ensures d.Valid(rt) && rt.terminated == old(rt.terminated)
    ensures Stored(t0, a0, rt.tab, rt.acct, d.ptr, items[..2 * pairs + 2])
  {
    ghost var t1, a1 := rt.tab, rt.acct;
    var k, v := items[2 * pairs], items[2 * pairs + 1];
    StoredKeeps(a0, a1, k);
    StoredKeeps(a0, a1, v);
    StorePair(rt, d, k, v);
    StoredSnoc(t0, a0, t1, a1, rt.tab, rt.acct, d.ptr, items, pairs);
  }

  /** The ledger after a run of PyDict_SetItem calls on dictionary `d`, one
      per pair, first to last: a dictionary takes every pair whose key can be
      hashed, anything else refuses them all. */
  ghost function PutAll(a: Account, isDict: bool, types: map<Ptr, Tag>, d: Ptr, items: seq<Ptr>): Account
    decreases |items|
  {
    if |items| < 2 || !isDict then a
    else
      var n := |items|;
      var before := PutAll(a, isDict, types, d, items[..n - 2]);
      if Accepted(types, items[n - 2]) then PutEntry(before, d, items[n - 2], items[n - 1]) else before
  }

  /** One more pair at the end is one more PyDict_SetItem. */
  lemma PutAllSnoc(a: Account, isDict: bool, types: map<Ptr, Tag>, d: Ptr, items: seq<Ptr>, k: Ptr, v: Ptr)
    ensures PutAll(a, isDict, types, d, items + [k, v]) ==
      if isDict && Accepted(types, k) then PutEntry(PutAll(a, isDict, types, d, items), d, k, v) else PutAll(a, isDict, types, d, items)
  {
    assert (items + [k, v])[..|items|] == items;
    if |items| < 2 && isDict {
      assert [] + [k, v] == [k, v] && [k, v][..0] == [];
    }
  }

  /** `t` and `a` are `t0` and `a0` after the pairs of `items` are stored
      into `d`: the ledger is PutAll's, every type, length and allocation is
      as it was, `d` maps the pairs it took, and every other dictionary,
      list and tuple is untouched. */
  ghost predicate Stored(t0: Table, a0: Account, t: Table, a: Account, d: Ptr, items: seq<Ptr>)
  {
    && d in t0.types
    && a == PutAll(a0, t0.types[d] == DictType, t0.types, d, items)
    && t == t0.(refcnt := a.refcnt, cells := a.cells) && a.refcnt.Keys == a0.refcnt.Keys
    && a.held == a0.held && a.pending == a0.pending && a.ext == a0.ext
    && DictOf(t.cells, d) == (if t0.types[d] == DictType then PutPairs(t0.types, DictOf(t0.cells, d), items) else DictOf(t0.cells, d))
    && OnlyEntriesOf(t0.cells, t.cells, d)
  }

  /** Storing the first `pairs` pairs of `items` and then the next one is
      storing the first `pairs + 1`. */
  lemma StoredSnoc(t0: Table, a0: Account, t1: Table, a1: Account, t2: Table, a2: Account,
                   d: Ptr, items: seq<Ptr>, pairs: nat)
    requires 2 * pairs + 2 <= |items|
    requires Stored(t0, a0, t1, a1, d, items[..2 * pairs])
    requires Stored(t1, a1, t2, a2, d, [items[2 * pairs], items[2 * pairs + 1]])
    ensures Stored(t0, a0, t2, a2, d, items[..2 * pairs + 2])
  {
    var front, k, v := items[..2 * pairs], items[2 * pairs], items[2 * pairs + 1];
    assert items[..2 * pairs + 2] == front + [k, v];
    var isDict := t0.types[d] == DictType;
    assert t1.types == t0.types;
    LedgerSnoc(a0, a1, a2, isDict, t0.types, d, front, k, v);
    OnlyEntriesTrans(t0.cells, t1.cells, t2.cells, d);
    if isDict {
      DictSnoc(t0.types, DictOf(t0.cells, d), DictOf(t1.cells, d), DictOf(t2.cells, d), front, pairs, k, v);
    }
  }

  /** A store moves no reference away from its owner: what the caller kept
      alive before, it still keeps. */
  lemma StoredKeeps(a0: Account, a: Account, p: Ptr)
    requires Kept(a0, p) && a.held == a0.held && a.pending == a0.pending && a.ext == a0.ext
    requires a.refcnt.Keys == a0.refcnt.Keys
    ensures Kept(a, p)
  {
  }

  /** The ledger half of StoredSnoc. */
  lemma LedgerSnoc(a0: Account, a1: Account, a2: Account, isDict: bool, types: map<Ptr, Tag>,
                   d: Ptr, items: seq<Ptr>, k: Ptr, v: Ptr)
    requires a1 == PutAll(a0, isDict, types, d, items) && a2 == PutAll(a1, isDict, types, d, [k, v])
    ensures a2 == PutAll(a0, isDict, types, d, items + [k, v])
  {
    PutAllSnoc(a0, isDict, types, d, items, k, v);
    PutAllSnoc(a1, isDict, types, d, [], k, v);
  }

  /** The dictionary half of StoredSnoc. */
  lemma DictSnoc(types: map<Ptr, Tag>, m0: map<Ptr, Ptr>, m1: map<Ptr, Ptr>, m2: map<Ptr, Ptr>,
                 items: seq<Ptr>, pairs: nat, k: Ptr, v: Ptr)
    requires |items| == 2 * pairs
    requires m1 == PutPairs(types, m0, items) && m2 == PutPairs(types, m1, [k, v])
    ensures m2 == PutPairs(types, m0, items + [k, v])
  {
    assert |items| % 2 == 0;
    PutPairsSnoc(types, m0, items, k, v);
    assert PutPairs(types, m1, [k, v]) == if Accepted(types, k) then m1[k := v] else m1;
  }

  /** One turn of the SetItems loop: PyDict_SetItem(d, k, v) on pointers the
      caller keeps alive; the dictionary stores the pair or refuses it and is
      otherwise unchanged, and so is every other container. */
  method StorePair(rt: Runtime, d: Object, k: Ptr, v: Ptr)
    requires d.Valid(rt) && d.ptr != Null && Kept(rt.acct, k) && Kept(rt.acct, v)
    modifies rt`tab, rt`acct
    ensures d.Valid(rt) && Stored(old(rt.tab), old(rt.acct), rt.tab, rt.acct, d.ptr, [k, v])
    ensures rt.Dict(d.ptr) == if old(rt.tab.types[d.ptr]) == DictType && Accepted(old(rt.tab.types), k)
                              then old(rt.Dict(d.ptr))[k := v] else old(rt.Dict(d.ptr))
    ensures rt.terminated == old(rt.terminated)
  {
    KeptIsLive(rt.acct, k);
    KeptIsLive(rt.acct, v);
    HeldIsLive(rt.acct, d);
    assert k in rt.tab.types;
    ghost var t0, a0 := rt.tab, rt.acct;
    var status := rt.DictSetItem(d.ptr, k, v);
    ghost var accepted := t0.types[d.ptr] == DictType && Accepted(t0.types, k);
    assert rt.Dict(d.ptr) == if accepted then old(rt.Dict(d.ptr))[k := v] else old(rt.Dict(d.ptr));
    StoredOne(t0, a0, rt.tab, rt.acct, d.ptr, k, v);
  }

  /** A single PyDict_SetItem is the one-pair case of Stored. */
  lemma StoredOne(t0: Table, a0: Account, t: Table, a: Account, d: Ptr, k: Ptr, v: Ptr)
    requires d in t0.types && k in t0.types && t0.cells == a0.cells
    requires a == if t0.types[d] == DictType && Accepted(t0.types, k) then PutEntry(a0, d, k, v) else a0
    requires t == t0.(refcnt := a.refcnt, cells := a.cells) && a.refcnt.Keys == a0.refcnt.Keys
    requires DictOf(t.cells, d) == if t0.types[d] == DictType && Accepted(t0.types, k) then DictOf(t0.cells, d)[k := v] else DictOf(t0.cells, d)
    ensures Stored(t0, a0, t, a, d, [k, v])
  {
    var isDict := t0.types[d] == DictType;
    assert [k, v][..0] == [];
    assert a == PutAll(a0, isDict, t0.types, d, [k, v]);
    if isDict && Accepted(t0.types, k) {
      PutEntryFrame(a0, d, k, v);
      PutEntryOnlyEntries(a0, d, k, v);
    }
    assert PutPairs(t0.types, DictOf(t0.cells, d), [k, v]) ==
           if Accepted(t0.types, k) then DictOf(t0.cells, d)[k := v] else DictOf(t0.cells, d);
  }

  /** Dict::FromValues: an empty dictionary from PyDict_New, adopted by the
      view, then SetItems with the given pairs. */
  method FromValues(rt: Runtime, items: seq<Ptr>, ok: bool) returns (d: Object)
    requires rt.Valid() && |items| % 2 == 0 && (ok || |items| == 0)
    requires forall j :: 0 <= j < |items| ==> Kept(rt.acct, items[j])
    modifies rt`tab, rt`acct
    ensures fresh(d) && d.Valid(rt)
    ensures ok ==> d.ptr == old(rt.tab.next) && d.ptr !in old(rt.tab.refcnt) && rt.Dict(d.ptr) == PutPairs(rt.tab.types, map[], items)
    ensures ok ==> Stored(old(rt.tab).(refcnt := old(rt.tab.refcnt)[d.ptr := 1], types := old(rt.tab.types)[d.ptr := DictType],
                                       lengths := old(rt.tab.lengths)[d.ptr := 0], next := d.ptr + 1),
                          Claim(Fresh(old(rt.acct), d.ptr), d, d.ptr), rt.tab, rt.acct, d.ptr, items)
    ensures !ok ==> d.ptr == Null && rt.acct == old(rt.acct) && rt.tab == old(rt.tab)
    ensures rt.terminated == old(rt.terminated)
  {
    UnknownHoldsNothing(rt.tab, rt.acct, rt.tab.next, 0);
    ghost var a0 := rt.acct;
    d := Views.Wrap(rt, DictType, 0, ok);
    if ok {
      forall j | 0 <= j < |items|
        ensures Kept(rt.acct, items[j])
      {
        KeptAfterAdopt(a0, d, d.ptr, items[j]);
      }
      SetItems(rt, d, items);
    }
  }
}
