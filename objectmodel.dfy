/** The foreign runtime's object model as the wrapper layer sees it: opaque
    addresses, the reference count each object carries, and an account of who
    owns every counted reference.

    The account is the invariant the wrapper must keep: an object's count is
    exactly the number of references owned by the interpreter itself, by host
    handles (one each), by host code that received a new reference and has not
    yet wrapped it or given it away, and by container cells. */
module ObjectModel {

  /** An address in foreign memory; 0 is the null pointer. */
  type Ptr = nat

  const Null: Ptr := 0

  /** The dynamic type tag the runtime keeps with every object. */
  datatype Tag =
    | NoneType | StrType | IntType | FloatType | TupleType | ListType
    | DictType | ModuleType | FunctionType

  /** Lists and dictionaries cannot be dictionary keys. */
  predicate Hashable(t: Tag) {
    t != ListType && t != DictType
  }

  /** The two allocator families of the runtime: PyMem_* and PyMem_Raw*. */
  datatype Family = PyMem | PyMemRaw

  /** A place inside a container that owns one reference. */
  datatype Cell =
    | Slot(container: Ptr, index: nat)   // item `index` of a tuple or a list
    | DictKey(dict: Ptr, key: Ptr)       // the key object of a dictionary entry
    | DictValue(dict: Ptr, key: Ptr)     // the value object of that entry

  /** The container a cell belongs to. */
  function Holder(c: Cell): Ptr {
    match c
    case Slot(container, _) => container
    case DictKey(dict, _) => dict
    case DictValue(dict, _) => dict
  }

  /** The number of entries of `m` whose value is `p`. */
  ghost function Count<K>(m: map<K, Ptr>, p: Ptr): nat {
    |set k | k in m && m[k] == p|
  }

  lemma CountAddFresh<K>(m: map<K, Ptr>, k: K, v: Ptr, p: Ptr)
    requires k !in m
    ensures Count(m[k := v], p) == Count(m, p) + (if v == p then 1 else 0)
  {
    var mk := m[k := v];
    var s := set j | j in m && m[j] == p;
    var t := set j | j in mk && mk[j] == p;
    if v == p {
      assert t == s + {k};
    } else {
      assert t == s;
    }
  }

  lemma CountUpdate<K>(m: map<K, Ptr>, k: K, v: Ptr, p: Ptr)
    ensures Count(m[k := v], p)
         == Count(m, p) - (if k in m && m[k] == p then 1 else 0) + (if v == p then 1 else 0)
  {
    var r := m - {k};
    assert m[k := v] == r[k := v];
    CountRemove(m, k, p);
    CountAddFresh(r, k, v, p);
  }

  lemma CountRemove<K>(m: map<K, Ptr>, k: K, p: Ptr)
    ensures Count(m - {k}, p) == Count(m, p) - (if k in m && m[k] == p then 1 else 0)
  {
    var s := set j | j in m && m[j] == p;
    var rest := set j | j in m - {k} && (m - {k})[j] == p;
    assert rest == s - {k};
    if k in m && m[k] == p {
      assert s == rest + {k};
    }
  }

  /** Two distinct keys naming `p` count twice. */
  lemma CountTwo<K>(m: map<K, Ptr>, j: K, k: K)
    requires j in m && k in m && j != k && m[j] == m[k]
    ensures Count(m, m[k]) >= 2
  {
    var s := set i | i in m && m[i] == m[k];
    var rest := s - {j, k};
    assert s == rest + {j, k};
    assert |s| == |rest| + 2;
  }

  lemma CountPositive<K>(m: map<K, Ptr>, k: K)
    requires k in m
    ensures Count(m, m[k]) >= 1
  {
    var s := set j | j in m && m[j] == m[k];
    assert k in s;
  }

  /** Everything the ownership discipline is about. `refcnt` is the count
      every object carries (0 once it has been deallocated); the other four
      fields say who owns each counted reference. */
  datatype Account = Account(
    refcnt: map<Ptr, nat>,
    ext: map<Ptr, nat>,         // owned by the interpreter or code outside this layer
    held: map<object, Ptr>,     // the one reference each non-null handle owns
    pending: map<Ptr, nat>,     // new references the host owns but has not wrapped or given away
    cells: map<Cell, Ptr>)      // owned by container slots and dictionary entries

  /** The references `a` accounts for on `p`: outside owners, handles, new
      references the host owns, and container cells. */
  ghost function Tally(a: Account, p: Ptr): nat
    requires p in a.pending
  {
    (if p in a.ext then a.ext[p] else 0) + Count(a.held, p) + a.pending[p] + Count(a.cells, p)
  }

  /** One increment per owner, one owner per increment. */
  ghost predicate Balanced(a: Account) {
    && Null !in a.refcnt
    && a.refcnt.Keys <= a.pending.Keys
    && (forall p {:trigger Tally(a, p)} :: p in a.refcnt ==> a.refcnt[p] == Tally(a, p))
    && (forall h :: h in a.held ==> a.held[h] in a.refcnt)
    && (forall c :: c in a.cells ==> a.cells[c] in a.refcnt)
  }

  /** The host owns a new reference to `p` that it has not yet wrapped or
      given away. */
  ghost predicate Pending(a: Account, p: Ptr) {
    p in a.refcnt && p in a.pending && a.pending[p] > 0
  }

  /** Allocated and not yet deallocated. */
  ghost predicate Live(a: Account, p: Ptr) {
    p in a.refcnt && a.refcnt[p] > 0
  }

  /** One count more on `p`; an address not in the table is left alone. */
  function Inc(m: map<Ptr, nat>, p: Ptr): (r: map<Ptr, nat>)
    ensures r.Keys == m.Keys
    ensures forall q :: q in m ==> r[q] == if q == p then m[q] + 1 else m[q]
  {
    if p in m then m[p := m[p] + 1] else m
  }

  /** One count less on `p`, never below zero. */
  function Dec(m: map<Ptr, nat>, p: Ptr): (r: map<Ptr, nat>)
    ensures r.Keys == m.Keys
    ensures forall q :: q in m ==> r[q] == if q == p && m[q] > 0 then m[q] - 1 else m[q]
  {
    if p in m then m[p := if m[p] > 0 then m[p] - 1 else 0] else m
  }

  /** Py_IncRef: one more reference, owned by the caller until it wraps it
      or gives it away. Null (never in the table) changes nothing. */
  function IncRef(a: Account, p: Ptr): Account {
    if p !in a.refcnt then a
    else a.(refcnt := Inc(a.refcnt, p), pending := Inc(a.pending, p))
  }

  /** Handle `h` takes over a reference the caller owns, without an increment. */
  function Claim(a: Account, h: object, p: Ptr): Account {
    if p == Null then a
    else a.(held := a.held[h := p], pending := Dec(a.pending, p))
  }

  /** Handle `h` shares `p`: an increment whose reference `h` keeps. */
  function Borrow(a: Account, h: object, p: Ptr): Account {
    Claim(IncRef(a, p), h, p)
  }

  /** Py_DecRef of the reference handle `h` owns; a handle that owns nothing
      changes nothing. */
  function DecRef(a: Account, h: object): Account {
    if h !in a.held then a
    else a.(refcnt := Dec(a.refcnt, a.held[h]), held := a.held - {h})
  }

  /** A factory returned the brand-new object `p` with one reference the caller owns. */
  function Fresh(a: Account, p: Ptr): Account {
    a.(refcnt := a.refcnt[p := 1], ext := a.ext[p := 0], pending := a.pending[p := 1])
  }

  /** A stealing call moves a reference the caller owns into cell `c`. */
  function Steal(a: Account, c: Cell, p: Ptr): Account {
    a.(cells := a.cells[c := p], pending := Dec(a.pending, p))
  }

  /** A non-stealing call: the container takes a reference of its own at `c`. */
  function Share(a: Account, c: Cell, p: Ptr): Account {
    if p !in a.refcnt then a
    else a.(refcnt := Inc(a.refcnt, p), cells := a.cells[c := p])
  }

  /** The container gives up the reference it owns at `c`. */
  function Drop(a: Account, c: Cell): Account {
    if c !in a.cells then a
    else a.(refcnt := Dec(a.refcnt, a.cells[c]), cells := a.cells - {c})
  }

  /** Py_XDECREF of a reference the caller owns. */
  function Dispose(a: Account, p: Ptr): Account {
    if p !in a.refcnt then a
    else a.(refcnt := Dec(a.refcnt, p), pending := Dec(a.pending, p))
  }

  /** Taking one count off a count just set to one leaves none. */
  lemma DecAfterOne(m: map<Ptr, nat>, p: Ptr)
    ensures Dec(m[p := 1], p) == m[p := 0]
  {
    assert Dec(m[p := 1], p) == m[p := 1][p := 0];
  }

  /** The host's new references after it gives away one reference for each
      entry of `ps`, first to last. */
  function Spend(pending: map<Ptr, nat>, ps: seq<Ptr>): (r: map<Ptr, nat>)
    ensures r.Keys == pending.Keys
    decreases |ps|
  {
    if ps == [] then pending else Dec(Spend(pending, ps[..|ps| - 1]), ps[|ps| - 1])
  }

  /** The host owns at least as many new references to each object as `ps`
      names it. */
  ghost predicate Covers(pending: map<Ptr, nat>, ps: seq<Ptr>) {
    forall v :: v in multiset(ps) ==> v in pending && multiset(ps)[v] <= pending[v]
  }

  /** Given away one by one, the references `ps` names leave exactly as many
      fewer on each object as `ps` names it. */
  lemma {:induction false} SpendCounts(pending: map<Ptr, nat>, ps: seq<Ptr>, v: Ptr)
    requires Covers(pending, ps) && v in pending
    ensures Spend(pending, ps)[v] + multiset(ps)[v] == pending[v]
    decreases |ps|
  {
    if ps != [] {
      var n := |ps|;
      assert ps == ps[..n - 1] + [ps[n - 1]];
      assert multiset(ps) == multiset(ps[..n - 1]) + multiset{ps[n - 1]};
      SpendCounts(pending, ps[..n - 1], v);
    }
  }

  /** While the host works through `ps`, the next reference it gives away is
      still one it owns. */
  lemma SpendNext(pending: map<Ptr, nat>, ps: seq<Ptr>, i: nat)
    requires Covers(pending, ps) && i < |ps|
    ensures ps[i] in Spend(pending, ps[..i]) && Spend(pending, ps[..i])[ps[i]] > 0
  {
    var v := ps[i];
    assert ps == ps[..i] + ps[i..];
    assert ps[i..] == [v] + ps[i + 1..];
    assert multiset(ps) == multiset(ps[..i]) + multiset{v} + multiset(ps[i + 1..]);
    SpendCounts(pending, ps[..i], v);
  }

  /** An object that `ps` does not name is not spent. */
  lemma {:induction false} SpendElsewhere(pending: map<Ptr, nat>, ps: seq<Ptr>, p: Ptr, n: nat)
    requires p !in ps
    ensures Spend(pending[p := n], ps) == Spend(pending, ps)[p := n]
    decreases |ps|
  {
    if ps != [] {
      SpendElsewhere(pending, ps[..|ps| - 1], p, n);
    }
  }

  // ---------------------------------------------------------------------------
  // Owned references keep their object alive.

  lemma HeldIsLive(a: Account, h: object)
    requires Balanced(a) && h in a.held
    ensures Live(a, a.held[h]) && a.held[h] != Null
  {
    CountPositive(a.held, h);
    assert a.refcnt[a.held[h]] == Tally(a, a.held[h]);
  }

  lemma PendingIsLive(a: Account, p: Ptr)
    requires Balanced(a) && Pending(a, p)
    ensures Live(a, p) && p != Null
  {
    assert a.refcnt[p] == Tally(a, p);
  }

  lemma CellIsLive(a: Account, c: Cell)
    requires Balanced(a) && c in a.cells
    ensures Live(a, a.cells[c]) && a.cells[c] != Null
  {
    CountPositive(a.cells, c);
    assert a.refcnt[a.cells[c]] == Tally(a, a.cells[c]);
  }

  /** An owner outside every container (the interpreter, a handle, or the
      host through a new reference) holds a reference to `p`; it keeps `p`
      alive however containers change. */
  ghost predicate Kept(a: Account, p: Ptr) {
    && p in a.refcnt && p in a.pending
    && (a.pending[p] > 0 || (p in a.ext && a.ext[p] > 0) || p in a.held.Values)
  }

  lemma KeptIsLive(a: Account, p: Ptr)
    requires Balanced(a) && Kept(a, p)
    ensures Live(a, p) && p != Null
  {
    if p in a.held.Values {
      var h :| h in a.held && a.held[h] == p;
      HeldIsLive(a, h);
    } else {
      assert a.refcnt[p] == Tally(a, p);
    }
  }

  /** A new object adopted by a new handle takes nothing from the owners
      that keep the other objects alive. */
  lemma KeptAfterAdopt(a: Account, h: object, p: Ptr, q: Ptr)
    requires Kept(a, q) && p !in a.refcnt && h !in a.held
    ensures Kept(Claim(Fresh(a, p), h, p), q)
  {
    if q in a.held.Values {
      var g :| g in a.held && a.held[g] == q;
      assert Claim(Fresh(a, p), h, p).held[g] == q;
    }
  }

  // ---------------------------------------------------------------------------
  // Each transition keeps the account balanced exactly when it is used as the
  // runtime's conventions say.

  lemma IncRefKeepsBalance(a: Account, p: Ptr)
    requires Balanced(a)
    ensures Balanced(IncRef(a, p))
  {
    var b := IncRef(a, p);
    forall q | q in b.refcnt ensures b.refcnt[q] == Tally(b, q) {
      assert a.refcnt[q] == Tally(a, q);
    }
  }

  /** Adoption is sound exactly when the caller owned a new reference. */
  lemma {:induction false} ClaimBalancedIff(a: Account, h: object, p: Ptr)
    requires Balanced(a) && h !in a.held && p in a.refcnt
    ensures Balanced(Claim(a, h, p)) <==> Pending(a, p)
  {
    var b := Claim(a, h, p);
    forall q ensures Count(b.held, q) == Count(a.held, q) + (if q == p then 1 else 0) {
      CountUpdate(a.held, h, p, q);
    }
    if Pending(a, p) {
      forall q | q in b.refcnt ensures b.refcnt[q] == Tally(b, q) {
        assert a.refcnt[q] == Tally(a, q);
      }
    } else {
      assert a.refcnt[p] == Tally(a, p);
      assert b.refcnt[p] != Tally(b, p);
    }
  }

  lemma ClaimKeepsBalance(a: Account, h: object, p: Ptr)
    requires Balanced(a) && h !in a.held && (p == Null || Pending(a, p))
    ensures Balanced(Claim(a, h, p))
  {
    if p != Null {
      ClaimBalancedIff(a, h, p);
    }
  }

  lemma BorrowKeepsBalance(a: Account, h: object, p: Ptr)
    requires Balanced(a) && h !in a.held && (p == Null || p in a.refcnt)
    ensures Balanced(Borrow(a, h, p))
  {
    IncRefKeepsBalance(a, p);
    ClaimKeepsBalance(IncRef(a, p), h, p);
  }

  lemma DecRefKeepsBalance(a: Account, h: object)
    requires Balanced(a)
    ensures Balanced(DecRef(a, h))
  {
    if h in a.held {
      var p := a.held[h];
      HeldIsLive(a, h);
      var b := DecRef(a, h);
      forall q | q in b.refcnt ensures b.refcnt[q] == Tally(b, q) {
        CountRemove(a.held, h, q);
        assert a.refcnt[q] == Tally(a, q);
      }
    }
  }

  lemma FreshKeepsBalance(a: Account, p: Ptr)
    requires Balanced(a) && p != Null && p !in a.refcnt
    ensures Balanced(Fresh(a, p))
  {
    var b := Fresh(a, p);
    forall q | q in b.refcnt ensures b.refcnt[q] == Tally(b, q) {
      if q == p {
        assert (set h | h in a.held && a.held[h] == p) == {};
        assert (set c | c in a.cells && a.cells[c] == p) == {};
      } else {
        assert a.refcnt[q] == Tally(a, q);
      }
    }
  }

  lemma StealKeepsBalance(a: Account, c: Cell, p: Ptr)
    requires Balanced(a) && c !in a.cells && Pending(a, p)
    ensures Balanced(Steal(a, c, p))
  {
    var b := Steal(a, c, p);
    forall q | q in b.refcnt ensures b.refcnt[q] == Tally(b, q) {
      CountUpdate(a.cells, c, p, q);
      assert a.refcnt[q] == Tally(a, q);
    }
  }

  lemma ShareKeepsBalance(a: Account, c: Cell, p: Ptr)
    requires Balanced(a) && c !in a.cells
    ensures Balanced(Share(a, c, p))
  {
    if p in a.refcnt {
      var b := Share(a, c, p);
      forall q | q in b.refcnt ensures b.refcnt[q] == Tally(b, q) {
        CountUpdate(a.cells, c, p, q);
        assert a.refcnt[q] == Tally(a, q);
      }
    }
  }

  lemma DropKeepsBalance(a: Account, c: Cell)
    requires Balanced(a)
    ensures Balanced(Drop(a, c))
  {
    if c in a.cells {
      CellIsLive(a, c);
      var b := Drop(a, c);
      forall q | q in b.refcnt ensures b.refcnt[q] == Tally(b, q) {
        CountRemove(a.cells, c, q);
        assert a.refcnt[q] == Tally(a, q);
      }
    }
  }

  lemma DisposeKeepsBalance(a: Account, p: Ptr)
    requires Balanced(a) && (p == Null || Pending(a, p))
    ensures Balanced(Dispose(a, p))
  {
    var b := Dispose(a, p);
    forall q | q in b.refcnt ensures b.refcnt[q] == Tally(b, q) {
      assert a.refcnt[q] == Tally(a, q);
    }
  }

  // ---------------------------------------------------------------------------
  // Handle life cycles.

  /** A handle that borrowed `p` and is then released leaves the account as it
      found it: one decrement per increment. */
  lemma {:induction false} BorrowThenRelease(a: Account, h: object, p: Ptr)
    requires Null !in a.refcnt && h !in a.held && (p == Null || p in a.refcnt)
    ensures DecRef(Borrow(a, h, p), h) == a
  {
    if p != Null {
      var a1 := IncRef(a, p);
      var a2 := Claim(a1, h, p);
      assert a2.pending == a.pending by {
        assert a1.pending == Inc(a.pending, p);
        assert Dec(Inc(a.pending, p), p) == a.pending;
      }
      assert a2.held[h] == p && a2.refcnt[p] == a.refcnt[p] + 1;
      var a3 := DecRef(a2, h);
      assert a3.held == a.held by {
        assert a2.held == a.held[h := p];
      }
      assert a3.refcnt == a.refcnt;
      assert a3.pending == a.pending && a3.ext == a.ext && a3.cells == a.cells;
    }
  }

  /** Handle `h` dropping its referent for `p`, as Object::SetObject does:
      one decrement on the old referent, one increment on `p`, and every
      other count as it was. */
  lemma ReassignCounts(a: Account, h: object, p: Ptr)
    requires Balanced(a) && (p == Null || p in a.refcnt)
    ensures var b := Borrow(DecRef(a, h), h, p);
      forall q :: q in a.refcnt ==>
        b.refcnt[q] + (if h in a.held && q == a.held[h] then 1 else 0) == a.refcnt[q] + (if q == p then 1 else 0)
  {
    if h in a.held {
      HeldIsLive(a, h);
    }
  }

  /** A reference taken and then given back leaves the account as it was. */
  lemma IncRefThenDispose(a: Account, p: Ptr)
    ensures Dispose(IncRef(a, p), p) == a
  {
    if p in a.refcnt {
      assert Dec(Inc(a.pending, p), p) == a.pending;
      assert Dec(Inc(a.refcnt, p), p) == a.refcnt;
    }
  }

  /** An increment whose reference a stealing call then takes is the same as
      a call that takes a reference of its own. */
  lemma IncRefThenSteal(a: Account, c: Cell, p: Ptr)
    requires p in a.refcnt
    ensures Steal(IncRef(a, p), c, p) == Share(a, c, p)
  {
    assert Dec(Inc(a.pending, p), p) == a.pending;
  }

  /** Releasing twice is releasing once. */
  lemma ReleaseIdempotent(a: Account, h: object)
    ensures DecRef(DecRef(a, h), h) == DecRef(a, h)
  {
  }

  // ---------------------------------------------------------------------------
  // Container contents, read off the cells.

  /** The items of a tuple or list `c` of length `n`; null marks a slot not yet filled. */
  function SlotItems(cells: map<Cell, Ptr>, c: Ptr, n: nat): (items: seq<Ptr>)
    ensures |items| == n
    ensures forall i :: 0 <= i < n ==> items[i] == if Slot(c, i) in cells then cells[Slot(c, i)] else Null
  {
    if n == 0 then []
    else SlotItems(cells, c, n - 1) + [if Slot(c, n - 1) in cells then cells[Slot(c, n - 1)] else Null]
  }

  /** The key-to-value mapping of dictionary `d` (keys compared by identity). */
  ghost function DictOf(cells: map<Cell, Ptr>, d: Ptr): map<Ptr, Ptr> {
    map c | c in cells && c.DictValue? && c.dict == d :: c.key := cells[c]
  }

  /** PyTuple_SetItem / PyList_SetItem on a valid slot: the stolen `p` goes
      in and the previous item, if any, is released. */
  function Replace(a: Account, c: Cell, p: Ptr): Account {
    if p == Null then Drop(a, c) else Steal(Drop(a, c), c, p)
  }

  /** PyDict_SetItem on a hashable key: the dictionary takes references of its
      own to a new key and to the value, and releases a replaced value. */
  function PutEntry(a: Account, d: Ptr, k: Ptr, v: Ptr): Account {
    if DictValue(d, k) in a.cells then Share(Drop(a, DictValue(d, k)), DictValue(d, k), v)
    else Share(Share(a, DictKey(d, k), k), DictValue(d, k), v)
  }

  lemma ReplaceKeepsBalance(a: Account, c: Cell, p: Ptr)
    requires Balanced(a) && (p == Null || Pending(a, p))
    ensures Balanced(Replace(a, c, p))
  {
    DropKeepsBalance(a, c);
    if p != Null {
      StealKeepsBalance(Drop(a, c), c, p);
    }
  }

  lemma PutEntryKeepsBalance(a: Account, d: Ptr, k: Ptr, v: Ptr)
    requires Balanced(a) && (DictValue(d, k) !in a.cells ==> DictKey(d, k) !in a.cells)
    ensures Balanced(PutEntry(a, d, k, v))
  {
    if DictValue(d, k) in a.cells {
      DropKeepsBalance(a, DictValue(d, k));
      ShareKeepsBalance(Drop(a, DictValue(d, k)), DictValue(d, k), v);
    } else {
      ShareKeepsBalance(a, DictKey(d, k), k);
      ShareKeepsBalance(Share(a, DictKey(d, k), k), DictValue(d, k), v);
    }
  }

  lemma IncCommutes(m: map<Ptr, nat>, p: Ptr, q: Ptr)
    ensures Inc(Inc(m, p), q) == Inc(Inc(m, q), p)
  {
  }

  lemma IncDecCommute(m: map<Ptr, nat>, p: Ptr, w: Ptr)
    requires w in m && m[w] > 0
    ensures Dec(Inc(m, p), w) == Inc(Dec(m, w), p)
  {
  }

  /** An increment commutes with a cell taking its own reference. */
  lemma IncRefShareCommute(a: Account, p: Ptr, c: Cell, v: Ptr)
    ensures Share(IncRef(a, p), c, v) == IncRef(Share(a, c, v), p)
  {
    if p in a.refcnt && v in a.refcnt {
      IncCommutes(a.refcnt, p, v);
    }
  }

  /** An increment commutes with a cell giving up a reference to a live object. */
  lemma IncRefDropCommute(a: Account, p: Ptr, c: Cell)
    requires c in a.cells ==> Live(a, a.cells[c])
    ensures Drop(IncRef(a, p), c) == IncRef(Drop(a, c), p)
  {
    if p in a.refcnt && c in a.cells {
      IncDecCommute(a.refcnt, p, a.cells[c]);
    }
  }

  /** An increment commutes with a dictionary store whose replaced value,
      if any, is alive. */
  lemma IncRefPutEntryCommute(a: Account, p: Ptr, d: Ptr, k: Ptr, v: Ptr)
    requires DictValue(d, k) in a.cells ==> Live(a, a.cells[DictValue(d, k)])
    ensures PutEntry(IncRef(a, p), d, k, v) == IncRef(PutEntry(a, d, k, v), p)
  {
    var dv := DictValue(d, k);
    if dv in a.cells {
      IncRefDropCommute(a, p, dv);
      IncRefShareCommute(Drop(a, dv), p, dv, v);
    } else {
      IncRefShareCommute(a, p, DictKey(d, k), k);
      IncRefShareCommute(Share(a, DictKey(d, k), k), p, dv, v);
    }
  }

  /** Adoption by a handle commutes with a dictionary store. */
  lemma ClaimPutEntryCommute(a: Account, h: object, p: Ptr, d: Ptr, k: Ptr, v: Ptr)
    ensures PutEntry(Claim(a, h, p), d, k, v) == Claim(PutEntry(a, d, k, v), h, p)
  {
    if p != Null {
      var c := Claim(a, h, p);
      PutEntryFrame(a, d, k, v);
      PutEntryFrame(c, d, k, v);
      PutEntrySameStore(a, c, d, k, v);
    }
  }

  /** The cells after a dictionary store: the value cell of `k` holds `v`,
      and a new entry also gets its key cell. */
  lemma PutEntryCells(a: Account, d: Ptr, k: Ptr, v: Ptr)
    requires k in a.refcnt && v in a.refcnt
    ensures PutEntry(a, d, k, v).cells == if DictValue(d, k) in a.cells then a.cells[DictValue(d, k) := v]
                                          else a.cells[DictKey(d, k) := k][DictValue(d, k) := v]
  {
    var dv := DictValue(d, k);
    if dv in a.cells {
      var b := Drop(a, dv);
      assert b.cells == a.cells - {dv} && b.refcnt.Keys == a.refcnt.Keys;
      assert Share(b, dv, v).cells == b.cells[dv := v];
      assert (a.cells - {dv})[dv := v] == a.cells[dv := v];
    } else {
      var b := Share(a, DictKey(d, k), k);
      assert b.cells == a.cells[DictKey(d, k) := k] && b.refcnt.Keys == a.refcnt.Keys;
    }
  }

  /** A dictionary store changes counts and cells only. */
  lemma PutEntryFrame(a: Account, d: Ptr, k: Ptr, v: Ptr)
    ensures PutEntry(a, d, k, v) == a.(refcnt := PutEntry(a, d, k, v).refcnt, cells := PutEntry(a, d, k, v).cells)
  {
  }

  /** A dictionary store computes the new counts and cells from the old ones alone. */
  lemma PutEntrySameStore(a: Account, b: Account, d: Ptr, k: Ptr, v: Ptr)
    requires a.refcnt == b.refcnt && a.cells == b.cells
    ensures PutEntry(a, d, k, v).refcnt == PutEntry(b, d, k, v).refcnt
    ensures PutEntry(a, d, k, v).cells == PutEntry(b, d, k, v).cells
  {
    var dv := DictValue(d, k);
    if dv in a.cells {
      DropSameStore(a, b, dv);
      ShareSameStore(Drop(a, dv), Drop(b, dv), dv, v);
    } else {
      ShareSameStore(a, b, DictKey(d, k), k);
      ShareSameStore(Share(a, DictKey(d, k), k), Share(b, DictKey(d, k), k), dv, v);
    }
  }

  lemma DropSameStore(a: Account, b: Account, c: Cell)
    requires a.refcnt == b.refcnt && a.cells == b.cells
    ensures Drop(a, c).refcnt == Drop(b, c).refcnt && Drop(a, c).cells == Drop(b, c).cells
  {
  }

  lemma ShareSameStore(a: Account, b: Account, c: Cell, p: Ptr)
    requires a.refcnt == b.refcnt && a.cells == b.cells
    ensures Share(a, c, p).refcnt == Share(b, c, p).refcnt && Share(a, c, p).cells == Share(b, c, p).cells
  {
  }

  /** A handle's increment and a dictionary store commute: the store takes
      its own references whoever else holds one. */
  lemma PutEntryAfterBorrow(a: Account, h: object, p: Ptr, d: Ptr, k: Ptr, v: Ptr)
    requires Balanced(a)
    ensures PutEntry(Borrow(a, h, p), d, k, v) == Borrow(PutEntry(a, d, k, v), h, p)
  {
    if DictValue(d, k) in a.cells {
      CellIsLive(a, DictValue(d, k));
    }
    IncRefPutEntryCommute(a, p, d, k, v);
    ClaimPutEntryCommute(IncRef(a, p), h, p, d, k, v);
  }

  /** A temporary handle around a dictionary store, as Dict::SetItems makes
      for each raw key and value: once it is destroyed, the store is all that
      remains. */
  lemma TemporaryAroundPut(a: Account, h: object, p: Ptr, d: Ptr, k: Ptr, v: Ptr)
    requires Balanced(a) && h !in a.held && p in a.refcnt
    ensures DecRef(PutEntry(Borrow(a, h, p), d, k, v), h) == PutEntry(a, d, k, v)
  {
    PutEntryAfterBorrow(a, h, p, d, k, v);
    var b := PutEntry(a, d, k, v);
    PutEntryFrame(a, d, k, v);
    assert Null !in b.refcnt && h !in b.held;
    BorrowThenRelease(b, h, p);
  }

  /** Dictionary `d` maps `k` exactly when it has a value cell for `k`, and to
      that cell's object. */
  lemma DictOfLookup(cells: map<Cell, Ptr>, d: Ptr, k: Ptr)
    ensures k in DictOf(cells, d) <==> DictValue(d, k) in cells
    ensures k in DictOf(cells, d) ==> DictOf(cells, d)[k] == cells[DictValue(d, k)]
  {
    if DictValue(d, k) in cells {
      assert DictValue(d, k).key == k;
    }
  }

  /** Writing entry k of dictionary d changes only that entry of d's mapping. */
  lemma DictOfPut(cells: map<Cell, Ptr>, d: Ptr, k: Ptr, v: Ptr, e: Ptr)
    ensures DictOf(cells[DictValue(d, k) := v], e)
         == if e == d then DictOf(cells, e)[k := v] else DictOf(cells, e)
  {
    var m := DictOf(cells[DictValue(d, k) := v], e);
    var m0 := DictOf(cells, e);
    if e == d {
      assert m.Keys == m0.Keys + {k} by {
        forall x ensures x in m <==> x in m0 || x == k {
          assert x in m <==> DictValue(e, x) in cells[DictValue(d, k) := v];
          assert x in m0 <==> DictValue(e, x) in cells;
        }
      }
    } else {
      assert m.Keys == m0.Keys by {
        forall x ensures x in m <==> x in m0 {
          assert x in m <==> DictValue(e, x) in cells[DictValue(d, k) := v];
          assert x in m0 <==> DictValue(e, x) in cells;
        }
      }
    }
  }

  /** Key cells do not show in any dictionary's mapping. */
  lemma DictOfKeyCell(cells: map<Cell, Ptr>, d: Ptr, k: Ptr, e: Ptr)
    ensures DictOf(cells[DictKey(d, k) := k], e) == DictOf(cells, e)
  {
    var m := DictOf(cells[DictKey(d, k) := k], e);
    var m0 := DictOf(cells, e);
    assert m.Keys == m0.Keys by {
      forall x ensures x in m <==> x in m0 {
        assert x in m <==> DictValue(e, x) in cells[DictKey(d, k) := k];
        assert x in m0 <==> DictValue(e, x) in cells;
      }
    }
  }

  /** Storing into slot `i` of `c` changes item `i` and nothing else. */
  lemma SlotItemsStore(cells: map<Cell, Ptr>, c: Ptr, n: nat, i: nat, v: Ptr)
    requires i < n && v != Null
    ensures SlotItems(cells[Slot(c, i) := v], c, n) == SlotItems(cells, c, n)[i := v]
  {
  }

  /** Emptying slot `i` of `c` makes item `i` null and changes nothing else. */
  lemma SlotItemsClear(cells: map<Cell, Ptr>, c: Ptr, n: nat, i: nat)
    requires i < n
    ensures SlotItems(cells - {Slot(c, i)}, c, n) == SlotItems(cells, c, n)[i := Null]
  {
  }

  /** Cell maps `c0` and `c1` differ at most in the entries of dictionary
      `d`: every slot and every entry of another dictionary is the same. */
  ghost predicate OnlyEntriesOf(c0: map<Cell, Ptr>, c1: map<Cell, Ptr>, d: Ptr) {
    forall c: Cell :: (c.Slot? || Holder(c) != d) ==> (c in c1 <==> c in c0) && (c in c0 ==> c1[c] == c0[c])
  }

  lemma OnlyEntriesTrans(c0: map<Cell, Ptr>, c1: map<Cell, Ptr>, c2: map<Cell, Ptr>, d: Ptr)
    requires OnlyEntriesOf(c0, c1, d) && OnlyEntriesOf(c1, c2, d)
    ensures OnlyEntriesOf(c0, c2, d)
  {
  }

  /** Then every list and tuple has the same items ... */
  lemma OnlyEntriesItems(c0: map<Cell, Ptr>, c1: map<Cell, Ptr>, d: Ptr, c: Ptr, n: nat)
    requires OnlyEntriesOf(c0, c1, d)
    ensures SlotItems(c1, c, n) == SlotItems(c0, c, n)
  {
    forall i | 0 <= i < n
      ensures SlotItems(c1, c, n)[i] == SlotItems(c0, c, n)[i]
    {
      assert Slot(c, i).Slot?;
    }
  }

  /** ... and every other dictionary the same mapping. */
  lemma OnlyEntriesDicts(c0: map<Cell, Ptr>, c1: map<Cell, Ptr>, d: Ptr, e: Ptr)
    requires OnlyEntriesOf(c0, c1, d) && e != d
    ensures DictOf(c1, e) == DictOf(c0, e)
  {
    forall x
      ensures x in DictOf(c1, e) <==> x in DictOf(c0, e)
    {
      assert Holder(DictValue(e, x)) == e;
      assert x in DictOf(c1, e) <==> DictValue(e, x) in c1;
      assert x in DictOf(c0, e) <==> DictValue(e, x) in c0;
    }
  }

  /** A dictionary store touches only that dictionary's entries. */
  lemma PutEntryOnlyEntries(a: Account, d: Ptr, k: Ptr, v: Ptr)
    ensures OnlyEntriesOf(a.cells, PutEntry(a, d, k, v).cells, d)
  {
    var dk, dv := DictKey(d, k), DictValue(d, k);
    var b := if dv in a.cells then Drop(a, dv) else Share(a, dk, k);
    assert b.cells == a.cells - {dv} || b.cells == a.cells || b.cells == a.cells[dk := k];
    var cells := Share(b, dv, v).cells;
    assert cells == b.cells || cells == b.cells[dv := v];
    forall c: Cell | c.Slot? || Holder(c) != d
      ensures (c in cells <==> c in a.cells) && (c in a.cells ==> cells[c] == a.cells[c])
    {
      assert c != dk && c != dv;
    }
  }

  lemma SlotStoreElsewhere(cells: map<Cell, Ptr>, s: Cell, v: Ptr)
    requires s.Slot?
    ensures forall c: Ptr, n: nat :: c != s.container ==> SlotItems(cells[s := v], c, n) == SlotItems(cells, c, n)
    ensures forall e :: DictOf(cells[s := v], e) == DictOf(cells, e)
  {
    var after := cells[s := v];
    forall c: Ptr, n: nat | c != s.container
      ensures SlotItems(after, c, n) == SlotItems(cells, c, n)
    {
      forall i | 0 <= i < n ensures SlotItems(after, c, n)[i] == SlotItems(cells, c, n)[i] {
        assert Slot(c, i) != s;
      }
    }
    forall e ensures DictOf(after, e) == DictOf(cells, e) {
      assert DictOf(after, e).Keys == DictOf(cells, e).Keys by {
        forall x ensures x in DictOf(after, e) <==> x in DictOf(cells, e) {
          assert x in DictOf(after, e) <==> DictValue(e, x) in after;
          assert x in DictOf(cells, e) <==> DictValue(e, x) in cells;
        }
      }
    }
  }

  /** PyTuple_SetItem's replacement shows as item `i` becoming `p`. */
  lemma ReplaceItems(a: Account, c: Ptr, n: nat, i: nat, p: Ptr)
    requires i < n
    ensures SlotItems(Replace(a, Slot(c, i), p).cells, c, n) == SlotItems(a.cells, c, n)[i := p]
  {
    var b := Drop(a, Slot(c, i));
    assert SlotItems(b.cells, c, n) == SlotItems(a.cells, c, n)[i := Null] by {
      if Slot(c, i) in a.cells {
        SlotItemsClear(a.cells, c, n, i);
      } else {
        assert SlotItems(a.cells, c, n)[i] == Null;
      }
    }
    if p != Null {
      SlotItemsStore(b.cells, c, n, i, p);
    }
  }

  /** PyDict_SetItem writes entry `k` of `d` and leaves every tuple and list alone. */
  lemma PutEntryContents(a: Account, d: Ptr, k: Ptr, v: Ptr)
    requires v in a.refcnt && k in a.refcnt
    ensures forall e :: DictOf(PutEntry(a, d, k, v).cells, e)
                     == if e == d then DictOf(a.cells, e)[k := v] else DictOf(a.cells, e)
    ensures forall c, n :: SlotItems(PutEntry(a, d, k, v).cells, c, n) == SlotItems(a.cells, c, n)
  {
    var cells := a.cells;
    var dv := DictValue(d, k);
    if dv in cells {
      assert PutEntry(a, d, k, v).cells == cells[dv := v];
      forall e ensures DictOf(cells[dv := v], e) == if e == d then DictOf(cells, e)[k := v] else DictOf(cells, e) {
        DictOfPut(cells, d, k, v, e);
      }
    } else {
      var withKey := cells[DictKey(d, k) := k];
      assert PutEntry(a, d, k, v).cells == withKey[dv := v];
      forall e ensures DictOf(withKey[dv := v], e) == if e == d then DictOf(cells, e)[k := v] else DictOf(cells, e) {
        DictOfKeyCell(cells, d, k, e);
        DictOfPut(withKey, d, k, v, e);
      }
    }
  }
}
