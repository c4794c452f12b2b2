/** Py::Object: a handle holding one PyObject pointer and, when that pointer
    is not null, owning exactly one reference to it. Every member that
    touches reference counts does so through the runtime `rt`; the C++
    destructor is the explicit `Destroy`. */
module Handle {
  import opened ObjectModel
  import opened Runtime

  class Object {
    var ptr: Ptr

    /** The account records this handle as the owner of one reference to
        `ptr`, and of nothing when `ptr` is null. */
    ghost predicate Owns(a: Account)
      reads this
    {
      if ptr == Null then this !in a.held else this in a.held && a.held[this] == ptr
    }

    ghost predicate Valid(rt: Runtime)
      reads this, rt
    {
      rt.Valid() && Owns(rt.acct)
    }

    /** Object(): the empty handle. */
    constructor Empty(rt: Runtime)
      requires rt.Valid()
      ensures Valid(rt) && ptr == Null
    {
      ptr := Null;
    }

    /** Object(PyObject* obj, bool addref = true): with `addref` the handle
        takes an increment of its own (borrow); without it the handle adopts
        a new reference the caller owned. */
    constructor FromPointer(rt: Runtime, p: Ptr, addref: bool)
      requires rt.Valid() && (p == Null || rt.IsLive(p))
      requires !addref ==> p == Null || Pending(rt.acct, p)
      modifies rt`tab, rt`acct
      ensures Valid(rt) && ptr == p
      ensures rt.acct.held == if p == Null then old(rt.acct.held) else old(rt.acct.held)[this := p]
      ensures rt.acct == if addref then Borrow(old(rt.acct), this, p) else ObjectModel.Claim(old(rt.acct), this, p)
      ensures rt.tab == old(rt.tab).(refcnt := rt.acct.refcnt)
      ensures rt.terminated == old(rt.terminated)
    {
      ptr := p;
      new;
      if addref {
        rt.IncRef(p);
      }
      rt.Claim(this, p);
    }

    /** Object(const Object&): a second owner of the same referent. */
    constructor Copy(rt: Runtime, obj: Object)
      requires obj.Valid(rt)
      modifies rt`tab, rt`acct
      ensures Valid(rt) && obj.Valid(rt) && ptr == obj.ptr
      ensures rt.acct == Borrow(old(rt.acct), this, obj.ptr)
      ensures rt.tab == old(rt.tab).(refcnt := rt.acct.refcnt)
      ensures rt.terminated == old(rt.terminated)
    {
      ptr := obj.ptr;
      new;
      if ptr != Null {
        HeldIsLive(rt.acct, obj);
      }
      rt.IncRef(ptr);
      rt.Claim(this, ptr);
    }

    /** GetRef: the referent's ob_refcnt, which is the number of owners the
        account records for it, this handle among them. */
    function GetRef(rt: Runtime): (n: nat)
      reads this, rt
      requires Valid(rt) && ptr != Null
      ensures n >= 1 && n == Tally(rt.acct, ptr)
    {
      HeldIsLive(rt.acct, this);
      rt.tab.refcnt[ptr]
    }

    /** AddRef: Py_IncRef(ptr), tolerating null; the extra reference is not
        the handle's own but the caller's, to give away. */
    method AddRef(rt: Runtime)
      requires Valid(rt)
      modifies rt`tab, rt`acct
      ensures Valid(rt) && rt.acct.held == old(rt.acct.held) && rt.acct == ObjectModel.IncRef(old(rt.acct), ptr)
      ensures rt.tab == old(rt.tab).(refcnt := rt.acct.refcnt)
      ensures rt.terminated == old(rt.terminated)
    {
      if ptr != Null {
        HeldIsLive(rt.acct, this);
      }
      rt.IncRef(ptr);
    }

    /** Release: Py_DecRef(ptr), tolerating null, then forget the pointer. */
    method Release(rt: Runtime)
      requires Valid(rt)
      modifies this, rt`tab, rt`acct
      ensures Valid(rt) && ptr == Null && rt.acct.held == old(rt.acct.held) - {this}
      ensures rt.acct == ObjectModel.DecRef(old(rt.acct), this)
      ensures rt.tab == old(rt.tab).(refcnt := rt.acct.refcnt)
      ensures rt.terminated == old(rt.terminated)
    {
      rt.DecRef(ptr, this);
      ptr := Null;
    }

    /** ~Object(): calls Release. */
    method Destroy(rt: Runtime)
      requires Valid(rt)
      modifies this, rt`tab, rt`acct
      ensures Valid(rt) && ptr == Null && rt.acct.held == old(rt.acct.held) - {this}
      ensures rt.acct == ObjectModel.DecRef(old(rt.acct), this)
      ensures rt.tab == old(rt.tab).(refcnt := rt.acct.refcnt)
      ensures rt.terminated == old(rt.terminated)
    {
      Release(rt);
    }

    /** SetObject: Release, take `obj`'s pointer, AddRef. Handed itself, the
        handle ends up empty, since Release has already cleared the pointer
        it would copy. */
    method SetObject(rt: Runtime, obj: Object)
      requires Valid(rt) && obj.Valid(rt)
      modifies this, rt`tab, rt`acct
      ensures Valid(rt) && obj.Valid(rt)
      ensures ptr == if obj == this then Null else old(obj.ptr)
      ensures rt.acct == Borrow(ObjectModel.DecRef(old(rt.acct), this), this, ptr)
      ensures rt.tab == old(rt.tab).(refcnt := rt.acct.refcnt)
      ensures rt.terminated == old(rt.terminated)
    {
      Release(rt);
      ghost var held := rt.acct.held;
      assert obj != this ==> obj.Owns(rt.acct);
      ptr := obj.ptr;
      if ptr != Null {
        HeldIsLive(rt.acct, obj);
      }
      rt.IncRef(ptr);
      rt.Claim(this, ptr);
      assert rt.acct.held == if ptr == Null then held else held[this := ptr];
    }

    /** operator==: the two handles hold the same pointer. */
    predicate Equals(rhs: Object)
      reads this, rhs
    {
      ptr == rhs.ptr
    }

    /** operator bool: the handle holds a pointer. */
    predicate IsTrue()
      reads this
    {
      ptr != Null
    }

    /** GetAttr: PyObject_GetAttr returns a new reference (to `attr`, the
        object the lookup finds; null when it fails), which the result adopts. */
    method GetAttr(rt: Runtime, attr: Ptr, ok: bool) returns (r: Object)
      requires Valid(rt) && ptr != Null && rt.IsLive(attr)
      modifies rt`tab, rt`acct
      ensures fresh(r) && r.Valid(rt) && Valid(rt) && r.ptr == (if ok then attr else Null)
      ensures rt.acct == Borrow(old(rt.acct), r, r.ptr)
      ensures rt.tab == old(rt.tab).(refcnt := rt.acct.refcnt)
      ensures rt.terminated == old(rt.terminated)
    {
      var p := rt.NewReference(attr, ok);
      r := new Object.FromPointer(rt, p, false);
    }
  }

  // ---------------------------------------------------------------------------
  // What the handle's state means.

  /** A handle is true exactly when it owns a reference. */
  lemma TruthIsOwnership(rt: Runtime, o: Object)
    requires o.Valid(rt)
    ensures o.IsTrue() <==> o in rt.acct.held
  {
  }

  /** Two distinct handles that compare equal and are true each own a
      reference to the referent, so its count is at least two. */
  lemma SharedReferent(rt: Runtime, x: Object, y: Object)
    requires x.Valid(rt) && y.Valid(rt) && x != y && x.Equals(y) && x.IsTrue()
    ensures x.GetRef(rt) >= 2
  {
    CountTwo(rt.acct.held, x, y);
  }
}
