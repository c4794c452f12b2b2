/** ObjIterator and the range-for loop over a Tuple or a List: an index that
    walks from 0 up to, but not including, the container's GetSize(), and
    hands out each item through GetItem. */
module Iteration {
  import opened ObjectModel
  import opened Runtime
  import opened Handle
  import Views

  /** The largest size_t: the value GetSize() returns when PyTuple_Size or
      PyList_Size fails and returns -1. */
  const SizeMax: nat := 0xFFFF_FFFF_FFFF_FFFF

  /** ObjIterator<T>: the container it walks (`ptr`) and the position. */
  class ObjIterator {
    const container: Object
    const kind: SeqKind
    var index: nat

    /** begin(): an iterator at position 0 of `c`. */
    constructor Begin(c: Object, kind: SeqKind)
      ensures container == c && this.kind == kind && index == 0
    {
      container := c;
      this.kind := kind;
      index := 0;
    }

    /** operator!=(end): the walk goes on while the index is below `end`. */
    predicate NotEqual(end: nat)
      reads this
    {
      index < end
    }

    /** operator++. */
    method Next()
      modifies this
      ensures index == old(index) + 1
    {
      index := index + 1;
    }

    /** operator*, with the corrected GetItem: the container's item at the
        current index, in a view that takes an increment of its own on the
        borrowed item (null past the end or on the wrong type). */
    method Deref(rt: Runtime) returns (o: Object)
      requires container.Valid(rt) && container.ptr != Null
      modifies rt`tab, rt`acct
      ensures fresh(o) && o.Valid(rt) && container.Valid(rt)
      ensures o.ptr == if old(rt.tab.types[container.ptr]) == KindTag(kind) && index < |old(rt.Items(container.ptr))|
                       then old(rt.Items(container.ptr))[index] else Null
      ensures rt.acct == Borrow(old(rt.acct), o, o.ptr)
      ensures rt.tab == old(rt.tab).(refcnt := rt.acct.refcnt)
      ensures rt.terminated == old(rt.terminated)
    {
      o := Views.GetItem(rt, container, kind, index);
    }

    /** One turn of a range-for, with the corrected GetItem: operator* makes
        the item view, the loop body sees its pointer, and the view is
        destroyed at the end of the turn, so the turn leaves every count as
        it found it. */
    method Visit(rt: Runtime) returns (p: Ptr)
      requires container.Valid(rt) && container.ptr != Null
      modifies rt`tab, rt`acct
      ensures container.Valid(rt) && rt.acct == old(rt.acct) && rt.tab == old(rt.tab)
      ensures p == if rt.tab.types[container.ptr] == KindTag(kind) && index < |rt.Items(container.ptr)|
                   then rt.Items(container.ptr)[index] else Null
      ensures rt.terminated == old(rt.terminated)
    {
      var item := Deref(rt);
      p := item.ptr;
      item.Destroy(rt);
      BorrowThenRelease(old(rt.acct), item, p);
    }
  }

  /** end(): GetSize(), the item count of `c`; the -1 of a failed size query
      becomes the largest size_t on conversion. */
  method End(rt: Runtime, c: Object, kind: SeqKind) returns (n: nat)
    requires c.Valid(rt) && c.ptr != Null
    ensures n == if rt.tab.types[c.ptr] == KindTag(kind) then |rt.Items(c.ptr)| else SizeMax
  {
    HeldIsLive(rt.acct, c);
    var size := rt.SeqSize(kind, c.ptr);
    n := if size == -1 then SizeMax else size;
  }

  /** for (auto item : c) { ... }, with operator* taking an increment on
      the borrowed item (the corrected GetItem): each item is a view made by
      operator* and destroyed at the end of its turn; `seen` records what
      each turn received. On a container of the iterated type the turns see
      its items in order; on anything else, SizeMax empty views. The walk
      leaves every count and every ownership as it found them. */
  method ForEach(rt: Runtime, c: Object, kind: SeqKind) returns (seen: seq<Ptr>)
    requires c.Valid(rt) && c.ptr != Null
    modifies rt`tab, rt`acct
    ensures c.Valid(rt) && rt.acct == old(rt.acct) && rt.tab == old(rt.tab)
    ensures c.ptr in rt.tab.types && c.ptr in rt.tab.lengths
    ensures rt.tab.types[c.ptr] == KindTag(kind) ==> seen == rt.Items(c.ptr)
    ensures rt.tab.types[c.ptr] != KindTag(kind) ==> |seen| == SizeMax && forall i :: 0 <= i < |seen| ==> seen[i] == Null
    ensures rt.terminated == old(rt.terminated)
  {
    HeldIsLive(rt.acct, c);
    ghost var expected := if rt.tab.types[c.ptr] == KindTag(kind) then rt.Items(c.ptr) else seq(SizeMax, _ => Null);
    var it := new ObjIterator.Begin(c, kind);
    var end := End(rt, c, kind);
    seen := [];
    while it.NotEqual(end)
      invariant it.index <= end == |expected| && seen == expected[..it.index]
      invariant c.Valid(rt) && rt.acct == old(rt.acct) && rt.tab == old(rt.tab) && rt.terminated == old(rt.terminated)
      decreases end - it.index
    {
      var p := it.Visit(rt);
      assert expected[..it.index + 1] == seen + [p];
      seen := seen + [p];
      it.Next();
    }
  }
}
