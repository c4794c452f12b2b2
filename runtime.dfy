/** The embedded interpreter, reduced to what the wrapper relies on: the object
    table with reference counts and type tags, the contents of tuples, lists and
    dictionaries, the blocks of the two allocator families, and the ownership
    convention of every C API entry point the wrapper calls (new reference,
    borrowed reference, or stolen argument), stated in each method's contract.
    Whether a foreign call fails (memory exhausted, lookup or import failed,
    text that does not parse) is decided by an `ok` parameter. */
module Runtime {
  import opened ObjectModel

  /** Py_None, created by interpreter start-up and never deallocated. */
  const NoneObject: Ptr := 1

  /** The two ordered containers. */
  datatype SeqKind = TupleKind | ListKind

  function KindTag(k: SeqKind): Tag {
    if k == TupleKind then TupleType else ListType
  }

  /** The interpreter's memory as the wrapper can observe it. */
  datatype Table = Table(
    refcnt: map<Ptr, nat>,      // ob_refcnt of every object ever allocated
    types: map<Ptr, Tag>,       // ob_type
    lengths: map<Ptr, nat>,     // ob_size: the item count of a tuple or list, 0 otherwise
    cells: map<Cell, Ptr>,      // container contents
    blocks: map<Ptr, Family>,   // live blocks of PyMem_* and PyMem_Raw*
    next: Ptr)                  // the lowest address never handed out

  /** Entry `k` of dictionary `d` has its value cell if it has its key cell. */
  ghost predicate Whole(cells: map<Cell, Ptr>, d: Ptr, k: Ptr) {
    DictKey(d, k) in cells ==> DictValue(d, k) in cells
  }

  /** Every dictionary entry is whole. */
  ghost predicate Paired(cells: map<Cell, Ptr>) {
    forall d, k {:trigger Whole(cells, d, k)} :: Whole(cells, d, k)
  }

  /** Cell `c`, if present, belongs to one of `objects`. */
  ghost predicate Anchored(cells: map<Cell, Ptr>, objects: set<Ptr>, c: Cell) {
    c in cells ==> Holder(c) in objects
  }

  /** Dictionary entries are whole, and every cell belongs to an object. */
  ghost predicate Shaped(cells: map<Cell, Ptr>, objects: set<Ptr>) {
    && Paired(cells)
    && forall c {:trigger Anchored(cells, objects, c)} :: Anchored(cells, objects, c)
  }

  /** What the runtime keeps true between calls: the counts and contents are
      those the account `a` explains, and the account balances; Py_None is
      alive and owned by the interpreter; every object has a type and a size;
      objects and blocks have distinct non-null addresses below `next`; and
      the cells are shaped. */
  ghost predicate Coherent(t: Table, a: Account) {
    && t.refcnt == a.refcnt && t.cells == a.cells && Balanced(a)
    && NoneObject in t.refcnt && t.refcnt.Keys <= t.types.Keys && t.refcnt.Keys <= t.lengths.Keys
    && t.types[NoneObject] == NoneType && NoneObject in a.ext && a.ext[NoneObject] >= 1
    && (forall p :: p in t.refcnt ==> p < t.next)
    && (forall b :: b in t.blocks ==> Null < b < t.next && b !in t.refcnt)
    && Shaped(t.cells, t.refcnt.Keys)
  }

  // ---------------------------------------------------------------------------
  // Each kind of step keeps the table coherent.

  /** A step that moves references between owners without allocating. */
  lemma LedgerStep(t: Table, a: Account, b: Account)
    requires Coherent(t, a) && Balanced(b)
    requires b.refcnt.Keys == a.refcnt.Keys && b.ext == a.ext && Shaped(b.cells, a.refcnt.Keys)
    ensures Coherent(t.(refcnt := b.refcnt, cells := b.cells), b)
  {
  }

  /** Allocating an object at `next`. */
  lemma NewKeepsCoherent(t: Table, a: Account, tag: Tag, size: nat)
    requires Coherent(t, a) && tag != NoneType
    ensures Coherent(t.(refcnt := t.refcnt[t.next := 1], types := t.types[t.next := tag],
                        lengths := t.lengths[t.next := size], next := t.next + 1), Fresh(a, t.next))
  {
    FreshKeepsBalance(a, t.next);
    MoreObjectsShaped(t.cells, t.refcnt.Keys, t.refcnt[t.next := 1].Keys);
  }

  /** Cells stay shaped as objects are added. */
  lemma MoreObjectsShaped(cells: map<Cell, Ptr>, objects: set<Ptr>, more: set<Ptr>)
    requires Shaped(cells, objects) && objects <= more
    ensures Shaped(cells, more)
  {
    forall x ensures Anchored(cells, more, x) {
      assert Anchored(cells, objects, x);
    }
  }

  /** Memory blocks come and go above every address in use. */
  lemma BlocksStep(t: Table, a: Account, blocks: map<Ptr, Family>, next: Ptr)
    requires Coherent(t, a) && t.next <= next
    requires forall b :: b in blocks ==> b in t.blocks || t.next <= b < next
    ensures Coherent(t.(blocks := blocks, next := next), a)
  {
  }

  /** Filling or emptying a slot of a live tuple or list keeps the cells shaped. */
  lemma ReplaceShaped(a: Account, c: Ptr, i: nat, p: Ptr)
    requires Shaped(a.cells, a.refcnt.Keys) && c in a.refcnt
    ensures Shaped(Replace(a, Slot(c, i), p).cells, a.refcnt.Keys)
  {
    var b := Replace(a, Slot(c, i), p);
    forall d, k ensures Whole(b.cells, d, k) {
      assert Whole(a.cells, d, k);
    }
    forall x ensures Anchored(b.cells, a.refcnt.Keys, x) {
      assert Anchored(a.cells, a.refcnt.Keys, x);
    }
  }

  /** Writing entry `k` of live dictionary `d` keeps the cells shaped. */
  lemma PutEntryShaped(a: Account, d: Ptr, k: Ptr, v: Ptr)
    requires Shaped(a.cells, a.refcnt.Keys) && d in a.refcnt && k in a.refcnt && v in a.refcnt
    ensures Shaped(PutEntry(a, d, k, v).cells, a.refcnt.Keys)
  {
    PutEntryCells(a, d, k, v);
    if DictValue(d, k) in a.cells {
      StoreShaped(a.cells, a.refcnt.Keys, DictValue(d, k), v);
    } else {
      AddEntryShaped(a.cells, a.refcnt.Keys, d, k, v);
    }
  }

  /** Storing into a slot or a value cell of a live object keeps the cells
      shaped. */
  lemma StoreShaped(cells: map<Cell, Ptr>, objects: set<Ptr>, c: Cell, p: Ptr)
    requires Shaped(cells, objects) && Holder(c) in objects && !c.DictKey?
    ensures Shaped(cells[c := p], objects)
  {
    var after := cells[c := p];
    forall x ensures Anchored(after, objects, x) {
      assert Anchored(cells, objects, x);
    }
    forall e, x ensures Whole(after, e, x) {
      assert Whole(cells, e, x);
    }
  }

  /** A new entry of a live dictionary, key cell and value cell together,
      keeps the cells shaped. */
  lemma AddEntryShaped(cells: map<Cell, Ptr>, objects: set<Ptr>, d: Ptr, k: Ptr, v: Ptr)
    requires Shaped(cells, objects) && d in objects
    ensures Shaped(cells[DictKey(d, k) := k][DictValue(d, k) := v], objects)
  {
    var after := cells[DictKey(d, k) := k][DictValue(d, k) := v];
    forall x ensures Anchored(after, objects, x) {
      assert Anchored(cells, objects, x);
    }
    forall e, x ensures Whole(after, e, x) {
      assert Whole(cells, e, x);
    }
  }

  /** An address the table does not know is the holder of no cell, so a
      tuple, list or dictionary created there starts out empty. */
  lemma UnknownHoldsNothing(t: Table, a: Account, p: Ptr, n: nat)
    requires Coherent(t, a) && p !in t.refcnt
    ensures forall c :: c in t.cells ==> Holder(c) != p
    ensures SlotItems(t.cells, p, n) == seq(n, _ => Null)
    ensures DictOf(t.cells, p) == map[]
  {
    forall c | c in t.cells
      ensures Holder(c) != p
    {
      assert Anchored(t.cells, t.refcnt.Keys, c);
    }
  }

  /** A slot that reads as null owns no reference. */
  lemma NullSlotIsEmpty(t: Table, a: Account, c: Ptr, i: nat)
    requires Coherent(t, a) && c in t.lengths && i < t.lengths[c]
    requires SlotItems(t.cells, c, t.lengths[c])[i] == Null
    ensures Slot(c, i) !in t.cells
  {
    if Slot(c, i) in t.cells {
      CellIsLive(a, Slot(c, i));
    }
  }

  class Runtime {
    var tab: Table
    var terminated: bool        // std::terminate was called
    ghost var acct: Account     // who owns each counted reference

    ghost predicate Valid()
      reads this
    {
      Coherent(tab, acct)
    }

    ghost predicate IsLive(p: Ptr)
      reads this`tab
    {
      p in tab.refcnt && tab.refcnt[p] > 0
    }

    /** The items of tuple or list `c`; null marks a slot not yet filled. */
    ghost function Items(c: Ptr): seq<Ptr>
      reads this`tab
      requires c in tab.lengths
    {
      SlotItems(tab.cells, c, tab.lengths[c])
    }

    /** The mapping held by dictionary `d`. */
    ghost function Dict(d: Ptr): map<Ptr, Ptr>
      reads this`tab
    {
      DictOf(tab.cells, d)
    }

    /** Interpreter start-up: only Py_None exists, owned by the interpreter. */
    constructor Init()
      ensures Valid() && !terminated
      ensures tab == Table(map[NoneObject := 1], map[NoneObject := NoneType], map[NoneObject := 0], map[], map[], NoneObject + 1)
      ensures acct.held == map[] && acct.pending == map[NoneObject := 0]
    {
      tab := Table(map[NoneObject := 1], map[NoneObject := NoneType], map[NoneObject := 0], map[], map[], NoneObject + 1);
      terminated := false;
      acct := Account(map[NoneObject := 1], map[NoneObject := 1], map[], map[NoneObject := 0], map[]);
      new;
      assert acct.refcnt[NoneObject] == Tally(acct, NoneObject);
    }

    // -------------------------------------------------------------------------
    // Reference counts.

    /** Py_IncRef: tolerates null; the extra reference belongs to the caller. */
    method IncRef(p: Ptr)
      requires Valid() && (p == Null || IsLive(p))
      modifies this`tab, this`acct
      ensures Valid() && acct.held == old(acct.held) && acct == ObjectModel.IncRef(old(acct), p)
      ensures tab == old(tab).(refcnt := acct.refcnt)
    {
      IncRefKeepsBalance(acct, p);
      LedgerStep(tab, acct, ObjectModel.IncRef(acct, p));
      acct := ObjectModel.IncRef(acct, p);
      tab := tab.(refcnt := Inc(tab.refcnt, p));
    }

    /** Bookkeeping only: handle `h` becomes the owner of a reference the
        caller owns. */
    ghost method Claim(h: object, p: Ptr)
      requires Valid() && h !in acct.held && (p == Null || Pending(acct, p))
      modifies this`acct
      ensures Valid() && acct == ObjectModel.Claim(old(acct), h, p)
    {
      ClaimKeepsBalance(acct, h, p);
      LedgerStep(tab, acct, ObjectModel.Claim(acct, h, p));
      acct := ObjectModel.Claim(acct, h, p);
    }

    /** Py_DecRef of the reference handle `h` owns; tolerates null. A count
        that reaches zero deallocates the object (its entry stays, at 0). */
    method DecRef(p: Ptr, ghost h: object)
      requires Valid() && (if p == Null then h !in acct.held else h in acct.held && acct.held[h] == p)
      modifies this`tab, this`acct
      ensures Valid() && acct == ObjectModel.DecRef(old(acct), h)
      ensures tab == old(tab).(refcnt := acct.refcnt)
    {
      DecRefKeepsBalance(acct, h);
      LedgerStep(tab, acct, ObjectModel.DecRef(acct, h));
      acct := ObjectModel.DecRef(acct, h);
      if p != Null {
        tab := tab.(refcnt := Dec(tab.refcnt, p));
      }
    }

    // -------------------------------------------------------------------------
    // Entry points that return a new reference.

    /** A factory (PyUnicode_FromString, PyUnicode_FromWideChar,
        PyLong_From*, PyFloat_From*, PyTuple_New, PyList_New, PyDict_New,
        PyCFunction_New): a brand-new object of type `tag`, with `size` empty
        slots for a tuple or list (size 0 otherwise), owned by the caller;
        null on failure. */
    method New(tag: Tag, size: nat, ok: bool) returns (p: Ptr)
      requires Valid() && tag != NoneType && (size == 0 || tag == TupleType || tag == ListType)
      modifies this`tab, this`acct
      ensures Valid() && acct.held == old(acct.held)
      ensures ok ==> p == old(tab.next) && acct == Fresh(old(acct), p)
      ensures ok ==> tab == old(tab).(refcnt := acct.refcnt, types := old(tab.types)[p := tag],
                                       lengths := old(tab.lengths)[p := size], next := p + 1)
      ensures !ok ==> p == Null && tab == old(tab) && acct == old(acct)
    {
      if !ok {
        return Null;
      }
      p := tab.next;
      NewKeepsCoherent(tab, acct, tag, size);
      acct := Fresh(acct, p);
      tab := tab.(refcnt := tab.refcnt[p := 1], types := tab.types[p := tag],
                  lengths := tab.lengths[p := size], next := p + 1);
    }

    /** An entry point returning a new reference to an object the runtime
        picks (PyObject_GetAttr, PyImport_Import, PyModule_GetFilenameObject):
        `target` is that object; null on failure. */
    method NewReference(target: Ptr, ok: bool) returns (p: Ptr)
      requires Valid() && IsLive(target)
      modifies this`tab, this`acct
      ensures Valid() && acct.held == old(acct.held) && p == (if ok then target else Null)
      ensures acct == ObjectModel.IncRef(old(acct), p) && tab == old(tab).(refcnt := acct.refcnt)
    {
      p := if ok then target else Null;
      IncRef(p);
    }

    // -------------------------------------------------------------------------
    // Tuples and lists.

    /** PyTuple_Size / PyList_Size: -1 when `c` has the wrong type. */
    method SeqSize(kind: SeqKind, c: Ptr) returns (n: int)
      requires Valid() && IsLive(c)
      ensures n == if tab.types[c] == KindTag(kind) then |Items(c)| else -1
    {
      n := if tab.types[c] == KindTag(kind) then tab.lengths[c] else -1;
    }

    /** PyTuple_GetItem / PyList_GetItem: a BORROWED reference to item `i`,
        or null when `c` has the wrong type or `i` is out of range. */
    method SeqGetItem(kind: SeqKind, c: Ptr, i: nat) returns (r: Ptr)
      requires Valid() && IsLive(c)
      ensures r == if tab.types[c] == KindTag(kind) && i < |Items(c)| then Items(c)[i] else Null
      ensures r == Null || IsLive(r)
    {
      if tab.types[c] == KindTag(kind) && i < tab.lengths[c] && Slot(c, i) in tab.cells {
        r := tab.cells[Slot(c, i)];
        CellIsLive(acct, Slot(c, i));
      } else {
        r := Null;
      }
    }

    /** PyTuple_SET_ITEM / PyList_SET_ITEM: fills an empty slot of a new
        container, STEALING `v` (null leaves the slot empty); no check of any
        kind. */
    method SeqSetItemInit(c: Ptr, i: nat, v: Ptr)
      requires Valid() && c in tab.refcnt && i < tab.lengths[c] && Slot(c, i) !in tab.cells
      requires v == Null || Pending(acct, v)
      modifies this`tab, this`acct
      ensures Valid() && acct.held == old(acct.held) && acct == if v == Null then old(acct) else Steal(old(acct), Slot(c, i), v)
      ensures tab == old(tab).(cells := acct.cells)
      ensures Items(c) == old(Items(c))[i := v]
    {
      if v != Null {
        StealKeepsBalance(acct, Slot(c, i), v);
        ReplaceShaped(acct, c, i, v);
        LedgerStep(tab, acct, Steal(acct, Slot(c, i), v));
        SlotItemsStore(tab.cells, c, tab.lengths[c], i, v);
        acct := Steal(acct, Slot(c, i), v);
        tab := tab.(cells := tab.cells[Slot(c, i) := v]);
      }
    }

    /** Py_XDECREF of a reference the caller owns and has not wrapped. */
    method Discard(p: Ptr)
      requires Valid() && (p == Null || Pending(acct, p))
      modifies this`tab, this`acct
      ensures Valid() && acct.held == old(acct.held) && acct == Dispose(old(acct), p)
      ensures tab == old(tab).(refcnt := acct.refcnt)
    {
      DisposeKeepsBalance(acct, p);
      LedgerStep(tab, acct, Dispose(acct, p));
      acct := Dispose(acct, p);
      if p != Null {
        tab := tab.(refcnt := Dec(tab.refcnt, p));
      }
    }

    /** The store inside PyTuple_SetItem / PyList_SetItem once the checks have
        passed: `v` (stolen; null empties the slot) replaces item `i`, whose
        previous object is released. */
    method StoreSlot(c: Ptr, i: nat, v: Ptr)
      requires Valid() && c in tab.refcnt && i < tab.lengths[c] && (v == Null || Pending(acct, v))
      modifies this`tab, this`acct
      ensures Valid() && acct.held == old(acct.held) && acct == Replace(old(acct), Slot(c, i), v)
      ensures tab == old(tab).(refcnt := acct.refcnt, cells := acct.cells)
      ensures Items(c) == old(Items(c))[i := v]
    {
      var s := Slot(c, i);
      ReplaceKeepsBalance(acct, s, v);
      ReplaceShaped(acct, c, i, v);
      LedgerStep(tab, acct, Replace(acct, s, v));
      ReplaceItems(acct, c, tab.lengths[c], i, v);
      acct := Replace(acct, s, v);
      var counts, cells := tab.refcnt, tab.cells;
      if s in cells {
        counts := Dec(counts, cells[s]);
        cells := cells - {s};
      }
      if v != Null {
        cells := cells[s := v];
      }
      tab := tab.(refcnt := counts, cells := cells);
    }

    /** PyTuple_SetItem / PyList_SetItem: STEALS `v`, even when it fails.
        Fails (-1) when `c` has the wrong type, when a tuple is shared
        (count other than 1), or when `i` is out of range; the stolen
        reference is then released. Otherwise the old item is released. */
    method SeqSetItem(kind: SeqKind, c: Ptr, i: nat, v: Ptr) returns (status: int)
      requires Valid() && IsLive(c) && (v == Null || Pending(acct, v))
      modifies this`tab, this`acct
      ensures Valid() && acct.held == old(acct.held)
      ensures status == 0 <==> old(tab.types[c] == KindTag(kind) && (kind == TupleKind ==> tab.refcnt[c] == 1) && i < tab.lengths[c])
      ensures status == 0 ==> acct == Replace(old(acct), Slot(c, i), v) && Items(c) == old(Items(c))[i := v]
      ensures status != 0 ==> status == -1 && acct == Dispose(old(acct), v)
      ensures tab == old(tab).(refcnt := acct.refcnt, cells := acct.cells)
    {
      if tab.types[c] != KindTag(kind) || (kind == TupleKind && tab.refcnt[c] != 1) || i >= tab.lengths[c] {
        Discard(v);
        return -1;
      }
      StoreSlot(c, i, v);
      status := 0;
    }

    // -------------------------------------------------------------------------
    // Dictionaries.

    /** PyDict_GetItem: a BORROWED reference to the value under `k`, or null
        when there is none or `d` is not a dictionary. */
    method DictGetItem(d: Ptr, k: Ptr) returns (r: Ptr)
      requires Valid() && IsLive(d) && IsLive(k)
      ensures r == if tab.types[d] == DictType && k in Dict(d) then Dict(d)[k] else Null
      ensures r == Null || IsLive(r)
    {
      DictOfLookup(tab.cells, d, k);
      if tab.types[d] == DictType && DictValue(d, k) in tab.cells {
        r := tab.cells[DictValue(d, k)];
        CellIsLive(acct, DictValue(d, k));
      } else {
        r := Null;
      }
    }

    /** PyDict_SetItem: does not steal. Fails (-1) when `d` is not a
        dictionary or the key cannot be hashed; otherwise the dictionary
        takes a reference to a new key and to the value and releases the
        value it replaces. */
    method DictSetItem(d: Ptr, k: Ptr, v: Ptr) returns (status: int)
      requires Valid() && IsLive(d) && IsLive(k) && IsLive(v)
      modifies this`tab, this`acct
      ensures Valid() && acct.held == old(acct.held)
      ensures status == 0 <==> old(tab.types[d] == DictType && Hashable(tab.types[k]))
      ensures status == 0 ==> acct == PutEntry(old(acct), d, k, v)
      ensures status == 0 ==> forall e :: Dict(e) == if e == d then old(Dict(e))[k := v] else old(Dict(e))
      ensures status != 0 ==> status == -1 && acct == old(acct)
      ensures tab == old(tab).(refcnt := acct.refcnt, cells := acct.cells) && tab.refcnt.Keys == old(tab.refcnt.Keys)
      ensures forall c :: c in tab.lengths ==> Items(c) == old(Items(c))
    {
      if tab.types[d] != DictType || !Hashable(tab.types[k]) {
        return -1;
      }
      assert Whole(acct.cells, d, k);
      PutEntryKeepsBalance(acct, d, k, v);
      PutEntryShaped(acct, d, k, v);
      LedgerStep(tab, acct, PutEntry(acct, d, k, v));
      PutEntryContents(acct, d, k, v);
      acct := PutEntry(acct, d, k, v);
      var dv := DictValue(d, k);
      var counts, cells := tab.refcnt, tab.cells;
      if dv in cells {
        counts := Dec(counts, cells[dv]);
        cells := cells - {dv};
      } else {
        counts := Inc(counts, k);
        cells := cells[DictKey(d, k) := k];
      }
      counts := Inc(counts, v);
      cells := cells[dv := v];
      tab := tab.(refcnt := counts, cells := cells);
      status := 0;
    }

    /** PyDict_SetDefault: a BORROWED reference to the value under `k`,
        after inserting `def` there when `k` was missing; null when `d` is not
        a dictionary or the key cannot be hashed. */
    method DictSetDefault(d: Ptr, k: Ptr, def: Ptr) returns (r: Ptr)
      requires Valid() && IsLive(d) && IsLive(k) && IsLive(def)
      modifies this`tab, this`acct
      ensures Valid() && acct.held == old(acct.held) && (r == Null || IsLive(r))
      ensures r == if old(tab.types[d] == DictType && Hashable(tab.types[k]))
                   then (if k in old(Dict(d)) then old(Dict(d))[k] else def) else Null
      ensures acct == if r != Null && k !in old(Dict(d)) then PutEntry(old(acct), d, k, def) else old(acct)
      ensures forall e :: Dict(e) == if e == d && r != Null && k !in old(Dict(d)) then old(Dict(e))[k := def] else old(Dict(e))
      ensures tab == old(tab).(refcnt := acct.refcnt, cells := acct.cells)
    {
      if tab.types[d] != DictType || !Hashable(tab.types[k]) {
        return Null;
      }
      DictOfLookup(tab.cells, d, k);
      if DictValue(d, k) in tab.cells {
        r := tab.cells[DictValue(d, k)];
        CellIsLive(acct, DictValue(d, k));
      } else {
        var status := DictSetItem(d, k, def);
        r := def;
      }
    }

    // -------------------------------------------------------------------------
    // Memory blocks.

    /** PyMem_Malloc / PyMem_RawMalloc: a fresh block of family `f`, or null. */
    method Malloc(f: Family, ok: bool) returns (b: Ptr)
      requires Valid()
      modifies this`tab
      ensures Valid()
      ensures ok ==> b == old(tab.next) && tab == old(tab).(blocks := old(tab.blocks)[b := f], next := b + 1)
      ensures !ok ==> b == Null && tab == old(tab)
    {
      if !ok {
        return Null;
      }
      b := tab.next;
      BlocksStep(tab, acct, tab.blocks[b := f], b + 1);
      tab := tab.(blocks := tab.blocks[b := f], next := b + 1);
    }

    /** PyMem_Realloc / PyMem_RawRealloc of a block of the same family (null
        acts as Malloc): on success the block moves to a fresh address and the
        old one is gone; on failure null is returned and `b` stays allocated. */
    method Realloc(f: Family, b: Ptr, ok: bool) returns (r: Ptr)
      requires Valid() && (b == Null || (b in tab.blocks && tab.blocks[b] == f))
      modifies this`tab
      ensures Valid()
      ensures ok ==> r == old(tab.next) && tab == old(tab).(blocks := (old(tab.blocks) - {b})[r := f], next := r + 1)
      ensures !ok ==> r == Null && tab == old(tab)
    {
      if !ok {
        return Null;
      }
      r := tab.next;
      BlocksStep(tab, acct, (tab.blocks - {b})[r := f], r + 1);
      tab := tab.(blocks := (tab.blocks - {b})[r := f], next := r + 1);
    }

    /** PyMem_Free / PyMem_RawFree: tolerates null; otherwise the block must
        be live and come from the same family. */
    method Free(f: Family, b: Ptr)
      requires Valid() && (b == Null || (b in tab.blocks && tab.blocks[b] == f))
      modifies this`tab
      ensures Valid() && tab == old(tab).(blocks := old(tab.blocks) - {b})
    {
      BlocksStep(tab, acct, tab.blocks - {b}, tab.next);
      tab := tab.(blocks := tab.blocks - {b});
    }

    /** Py_EncodeLocale(s, NULL): the narrow text in a new PyMem block, or null. */
    method EncodeLocale(s: Ptr, ok: bool) returns (b: Ptr)
      requires Valid() && s != Null
      modifies this`tab
      ensures Valid()
      ensures ok ==> b == old(tab.next) && tab == old(tab).(blocks := old(tab.blocks)[b := PyMem], next := b + 1)
      ensures !ok ==> b == Null && tab == old(tab)
    {
      b := Malloc(PyMem, ok);
    }

    /** Py_DecodeLocale(s, NULL): the wide text in a new PyMem_Raw block, or null. */
    method DecodeLocale(s: Ptr, ok: bool) returns (b: Ptr)
      requires Valid() && s != Null
      modifies this`tab
      ensures Valid()
      ensures ok ==> b == old(tab.next) && tab == old(tab).(blocks := old(tab.blocks)[b := PyMemRaw], next := b + 1)
      ensures !ok ==> b == Null && tab == old(tab)
    {
      b := Malloc(PyMemRaw, ok);
    }

    /** PyUnicode_AsWideCharString: the text of `o` in a new PyMem block, or null. */
    method AsWideCharString(o: Ptr, ok: bool) returns (b: Ptr)
      requires Valid() && IsLive(o)
      modifies this`tab
      ensures Valid()
      ensures ok ==> b == old(tab.next) && tab == old(tab).(blocks := old(tab.blocks)[b := PyMem], next := b + 1)
      ensures !ok ==> b == Null && tab == old(tab)
    {
      b := Malloc(PyMem, ok);
    }

    /** `throw;` with no exception in flight: std::terminate ends the process. */
    method Terminate()
      modifies this`terminated
      ensures terminated
    {
      terminated := true;
    }
  }
}
