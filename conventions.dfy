/** Four places where the wrapper, as written, takes a different ownership
    than the entry point it calls gives or than a handle must keep, stated on
    the account: what the code does, an input that shows the difference, and
    what the corrected calls in the Handle, Views and Dicts modules do
    instead. */
module Conventions {
  import opened ObjectModel

  // ---------------------------------------------------------------------------
  // GetItem and SetDefault adopt a borrowed reference.

  /** Tuple::GetItem, List::GetItem, Dict::GetItem and Dict::SetDefault as
      written: Py_ObjWrap makes the view adopt the pointer, with no
      increment, although PyTuple_GetItem, PyList_GetItem, PyDict_GetItem and
      PyDict_SetDefault return a borrowed reference. */
  function GetItemAsWritten(a: Account, h: object, p: Ptr): (b: Account)
    requires h !in a.held
    ensures b.refcnt == a.refcnt && b.cells == a.cells
    ensures p != Null ==> b.held == a.held[h := p]
  {
    ObjectModel.Claim(a, h, p)
  }

  /** A tuple (2) whose only item (3) is owned by nobody but its slot: one
      GetItem as written and the view's destruction deallocate the item while
      the tuple still holds it. */
  lemma GetItemAsWrittenFreesItem(h: object)
    ensures var a := TupleOfOne();
      var b := ObjectModel.DecRef(GetItemAsWritten(a, h, 3), h);
      Balanced(a) && a.refcnt[3] == 1 && b.refcnt[3] == 0 && b.cells[Slot(2, 0)] == 3
  {
    TupleOfOneBalanced();
  }

  /** The same steps with the corrected GetItem (Views.GetItem, which
      borrows): the account is back where it started. */
  lemma GetItemCorrectedRestores(h: object)
    ensures var a := TupleOfOne();
      ObjectModel.DecRef(Borrow(a, h, 3), h) == a && a.refcnt[3] == 1
  {
    TupleOfOneBalanced();
    BorrowThenRelease(TupleOfOne(), h, 3);
  }

  /** Tuple 2 (owned from outside) was filled by stealing a new reference to
      object 3 into its slot 0. */
  function TupleOfOne(): Account {
    Steal(Account(map[2 := 1, 3 := 1], map[2 := 1, 3 := 0], map[], map[2 := 0, 3 := 1], map[]), Slot(2, 0), 3)
  }

  lemma TupleOfOneBalanced()
    ensures Balanced(TupleOfOne())
  {
    var a0 := Account(map[2 := 1, 3 := 1], map[2 := 1, 3 := 0], map[], map[2 := 0, 3 := 1], map[]);
    assert Balanced(a0) by {
      forall q | q in a0.refcnt ensures a0.refcnt[q] == Tally(a0, q) {
        assert Count(a0.held, q) == 0 && Count(a0.cells, q) == 0;
      }
    }
    StealKeepsBalance(a0, Slot(2, 0), 3);
  }

  // ---------------------------------------------------------------------------
  // SetItem and SetItemInit hand over the view's own reference.

  /** Tuple::SetItem, List::SetItem (on success) and SetItemInit as written:
      the view's pointer is passed to a stealing call with no increment, so
      slot `c` takes over a reference that the view still owns. */
  function SetItemAsWritten(a: Account, c: Cell, p: Ptr): (b: Account)
    ensures b.refcnt == a.refcnt && b.held == a.held
    ensures c in b.cells && b.cells[c] == p
  {
    Steal(a, c, p)
  }

  /** A stealing store keeps the ledger balanced exactly when the caller owned
      a new reference to give away; a reference a view owns is not one. */
  lemma StealBalancedIff(a: Account, c: Cell, p: Ptr)
    requires Balanced(a) && c !in a.cells && p in a.refcnt
    ensures Balanced(SetItemAsWritten(a, c, p)) <==> Pending(a, p)
  {
    var b := Steal(a, c, p);
    forall q ensures Count(b.cells, q) == Count(a.cells, q) + (if q == p then 1 else 0) {
      CountAddFresh(a.cells, c, p, q);
    }
    if Pending(a, p) {
      StealKeepsBalance(a, c, p);
    } else {
      assert a.refcnt[p] == Tally(a, p);
      assert b.refcnt[p] != Tally(b, p);
    }
  }

  /** A new list (2) and a view `h` that owns the only reference to object 3:
      SetItemInit as written, then the view's destruction, deallocate object
      3 while the list still holds it. */
  lemma SetItemAsWrittenFreesItem(h: object)
    ensures var a := ListAndView(h);
      var b := ObjectModel.DecRef(SetItemAsWritten(a, Slot(2, 0), 3), h);
      Balanced(a) && b.refcnt[3] == 0 && b.cells[Slot(2, 0)] == 3
  {
    ListAndViewBalanced(h);
  }

  /** The same steps with the corrected SetItemInit (Views.SetItemInit, which
      hands over an increment of its own): the list keeps object 3 alive. */
  lemma SetItemCorrectedKeepsItem(h: object)
    ensures var a := ListAndView(h);
      var b := ObjectModel.DecRef(Steal(ObjectModel.IncRef(a, 3), Slot(2, 0), 3), h);
      Balanced(b) && b.refcnt[3] == 1 && b.cells[Slot(2, 0)] == 3
  {
    var a := ListAndView(h);
    ListAndViewBalanced(h);
    IncRefThenSteal(a, Slot(2, 0), 3);
    ShareKeepsBalance(a, Slot(2, 0), 3);
    DecRefKeepsBalance(Share(a, Slot(2, 0), 3), h);
  }

  /** A new, empty list 2 that the caller owns, and view `h` holding object 3. */
  function ListAndView(h: object): Account {
    ObjectModel.Claim(Account(map[2 := 1, 3 := 1], map[2 := 0, 3 := 0], map[], map[2 := 1, 3 := 1], map[]), h, 3)
  }

  lemma ListAndViewBalanced(h: object)
    ensures Balanced(ListAndView(h))
  {
    var a0 := Account(map[2 := 1, 3 := 1], map[2 := 0, 3 := 0], map[], map[2 := 1, 3 := 1], map[]);
    assert Balanced(a0) by {
      forall q | q in a0.refcnt ensures a0.refcnt[q] == Tally(a0, q) {
        assert Count(a0.held, q) == 0 && Count(a0.cells, q) == 0;
      }
    }
    ClaimKeepsBalance(a0, h, 3);
  }

  // ---------------------------------------------------------------------------
  // Import takes an extra increment on a new reference.

  /** Py::Import as written: the new reference PyImport_Import returns is
      converted to a Module with the default `addref`, so the view takes an
      increment on top of the reference the caller already owned. */
  function ImportAsWritten(a: Account, m: object, p: Ptr): (b: Account)
    requires Null !in a.refcnt && m !in a.held && p in a.refcnt
    ensures p in b.refcnt && b.refcnt[p] == a.refcnt[p] + 2 && b.held == a.held[m := p]
  {
    Borrow(ObjectModel.IncRef(a, p), m, p)
  }

  /** After the module view as written is destroyed, one reference that
      nobody will release remains: the module can never be deallocated. */
  lemma ImportAsWrittenLeaks(a: Account, m: object, p: Ptr)
    requires Null !in a.refcnt && m !in a.held && p in a.refcnt
    ensures var b := ObjectModel.DecRef(ImportAsWritten(a, m, p), m);
      b == ObjectModel.IncRef(a, p) && p in b.refcnt && b.refcnt[p] == a.refcnt[p] + 1
  {
    BorrowThenRelease(ObjectModel.IncRef(a, p), m, p);
  }

  /** The corrected Import (Views.Import, which adopts): destroying the view
      returns the account to where it was before the import. */
  lemma ImportCorrectedRestores(a: Account, m: object, p: Ptr)
    requires Null !in a.refcnt && m !in a.held && p in a.refcnt
    ensures ObjectModel.DecRef(ObjectModel.Claim(ObjectModel.IncRef(a, p), m, p), m) == a
  {
    BorrowThenRelease(a, m, p);
  }

  // ---------------------------------------------------------------------------
  // Assignment between handles copies the pointer and nothing else.

  /** `x = y` between two handles as written: Object declares no operator=,
      so the implicit one copies `ptr` with no increment and no release.
      Handle `x` now records `p`, the pointer of `y`, as its own, and the
      reference it owned before is left to nobody. */
  function AssignAsWritten(a: Account, x: object, p: Ptr): (b: Account)
    ensures b.refcnt == a.refcnt && b.cells == a.cells && b.pending == a.pending
    ensures p != Null ==> b.held == a.held[x := p]
    ensures p == Null ==> b.held == a.held - {x}
  {
    a.(held := if p == Null then a.held - {x} else a.held[x := p])
  }

  /** Whenever `x` and `y` hold different objects, the assignment as written
      unbalances the ledger: `y`'s object gains an owner and no count. */
  lemma AssignAsWrittenUnbalanced(a: Account, x: object, y: object)
    requires Balanced(a) && x in a.held && y in a.held && a.held[x] != a.held[y]
    ensures !Balanced(AssignAsWritten(a, x, a.held[y]))
  {
    var p := a.held[y];
    HeldIsLive(a, y);
    var b := AssignAsWritten(a, x, p);
    CountUpdate(a.held, x, p, p);
    assert Count(b.held, p) == Count(a.held, p) + 1;
    assert a.refcnt[p] == Tally(a, p);
    assert b.refcnt[p] != Tally(b, p);
  }

  /** Two handles, `x` owning the only reference to object 4 and `y` the
      only reference to object 3: after `x = y` and the destruction of `x`,
      object 3 is deallocated while `y` still points at it, and object 4
      keeps a count that nobody will ever release. */
  lemma AssignAsWrittenFreesReferent(x: object, y: object)
    requires x != y
    ensures var a := TwoHandles(x, y);
      var b := ObjectModel.DecRef(AssignAsWritten(a, x, 3), x);
      Balanced(a) && b.refcnt[3] == 0 && b.held[y] == 3 && b.refcnt[4] == 1 && Tally(b, 4) == 0
  {
    TwoHandlesBalanced(x, y);
    var b := ObjectModel.DecRef(AssignAsWritten(TwoHandles(x, y), x, 3), x);
    assert b.held == map[y := 3];
    assert Count(b.held, 4) == 0 by {
      assert (set k | k in b.held && b.held[k] == 4) == {};
    }
  }

  /** The corrected assignment, SetObject (Handle.Object.SetObject: release,
      copy, AddRef), keeps the ledger balanced whatever the two handles
      hold. */
  lemma AssignCorrectedBalanced(a: Account, x: object, y: object)
    requires Balanced(a) && y in a.held && x != y
    ensures Balanced(Borrow(ObjectModel.DecRef(a, x), x, a.held[y]))
  {
    HeldIsLive(a, y);
    DecRefKeepsBalance(a, x);
    BorrowKeepsBalance(ObjectModel.DecRef(a, x), x, a.held[y]);
  }

  /** The same two handles with SetObject in place of the assignment: once
      `x` is destroyed, object 3 is still alive for `y` and object 4 has been
      released. */
  lemma AssignCorrectedKeepsReferent(x: object, y: object)
    requires x != y
    ensures var a := TwoHandles(x, y);
      var b := ObjectModel.DecRef(Borrow(ObjectModel.DecRef(a, x), x, 3), x);
      Balanced(b) && b.refcnt[3] == 1 && y in b.held && b.held[y] == 3 && x !in b.held && b.refcnt[4] == 0
  {
    var a2 := Borrow(ObjectModel.DecRef(TwoHandles(x, y), x), x, 3);
    SetObjectOnTwoHandles(x, y);
    DecRefKeepsBalance(a2, x);
  }

  /** The two handles right after SetObject: both point at object 3, which
      now has two counts, and object 4 has none. */
  lemma SetObjectOnTwoHandles(x: object, y: object)
    requires x != y
    ensures var a2 := Borrow(ObjectModel.DecRef(TwoHandles(x, y), x), x, 3);
      Balanced(a2) && a2.refcnt[3] == 2 && a2.refcnt[4] == 0 && a2.held == map[y := 3][x := 3]
  {
    TwoHandlesBalanced(x, y);
    var a := TwoHandles(x, y);
    var a1 := ObjectModel.DecRef(a, x);
    assert a1.refcnt[3] == 1 && a1.refcnt[4] == 0 && a1.held == map[y := 3];
    AssignCorrectedBalanced(a, x, y);
  }

  /** Handle `x` owns the only reference to object 4, handle `y` the only
      reference to object 3. */
  function TwoHandles(x: object, y: object): Account {
    Account(map[3 := 1, 4 := 1], map[3 := 0, 4 := 0], map[x := 4, y := 3], map[3 := 0, 4 := 0], map[])
  }

  lemma TwoHandlesBalanced(x: object, y: object)
    requires x != y
    ensures Balanced(TwoHandles(x, y))
  {
    var a := TwoHandles(x, y);
    var none: map<object, Ptr> := map[];
    assert a.held == none[x := 4][y := 3];
    forall q | q in a.refcnt ensures a.refcnt[q] == Tally(a, q) {
      assert Count(none, q) == 0 && Count(a.cells, q) == 0;
      CountAddFresh(none, x, 4, q);
      CountAddFresh(none[x := 4], y, 3, q);
    }
  }
}
