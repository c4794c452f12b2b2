/** BaseMem and its subclasses: an object that owns one block of one of the
    interpreter's two allocator families and frees it with the matching free
    function when destroyed. Mem, WideMem and EncodedString use the PyMem_*
    family; RawMem and DecodedString use PyMem_Raw*. A failed allocation
    executes `throw;` with no exception in flight, which ends the process
    through std::terminate. */
module Memory {
  import opened ObjectModel
  import opened Runtime

  class Mem {
    /** Which of Mem and RawMem this object is. */
    const family: Family
    var ptr: Ptr

    /** The pointer is null or a live block of this object's own family, so
        the destructor's free call matches the allocation. */
    ghost predicate Owns(rt: Runtime)
      reads this, rt
    {
      ptr == Null || (ptr in rt.tab.blocks && rt.tab.blocks[ptr] == family)
    }

    /** Mem(void* p) / RawMem(void* p) (and WideMem(wchar_t*),
        EncodedString(char*), DecodedString(wchar_t*)): adopt `p`. */
    constructor Adopt(family: Family, p: Ptr)
      ensures this.family == family && ptr == p
    {
      this.family := family;
      ptr := p;
    }

    /** Mem(size_t n) / RawMem(size_t n): a new block of the object's family;
        on failure the process terminates. */
    constructor Alloc(rt: Runtime, family: Family, ok: bool)
      requires rt.Valid()
      modifies rt
      ensures rt.Valid() && this.family == family && Owns(rt)
      ensures ok ==> ptr == old(rt.tab.next) && !(ptr in old(rt.tab.blocks))
      ensures ok ==> rt.tab == old(rt.tab).(blocks := old(rt.tab.blocks)[ptr := family], next := ptr + 1)
      ensures ok ==> rt.terminated == old(rt.terminated)
      ensures !ok ==> ptr == Null && rt.tab == old(rt.tab) && rt.terminated
    {
      this.family := family;
      ptr := Null;
      new;
      ptr := rt.Malloc(family, ok);
      if ptr == Null {
        rt.Terminate();
      }
    }

    /** Realloc: PyMem_Realloc / PyMem_RawRealloc. Only a successful call
        replaces the pointer; a failed one terminates, leaving the block
        allocated and the pointer as it was. */
    method Realloc(rt: Runtime, ok: bool)
      requires rt.Valid() && Owns(rt)
      modifies this, rt
      ensures rt.Valid() && Owns(rt)
      ensures ok ==> ptr == old(rt.tab.next) && ptr != old(ptr)
      ensures ok ==> rt.tab == old(rt.tab).(blocks := (old(rt.tab.blocks) - {old(ptr)})[ptr := family], next := ptr + 1)
      ensures ok ==> rt.terminated == old(rt.terminated)
      ensures !ok ==> ptr == old(ptr) && rt.tab == old(rt.tab) && rt.terminated
    {
      var p := rt.Realloc(family, ptr, ok);
      if p == Null {
        rt.Terminate();
      } else {
        ptr := p;
      }
    }

    /** ~Mem() / ~RawMem(): a non-null pointer is freed with the free
        function of the object's own family; null frees nothing. */
    method Destroy(rt: Runtime)
      requires rt.Valid() && Owns(rt)
      modifies rt
      ensures rt.Valid() && rt.terminated == old(rt.terminated)
      ensures ptr != Null ==> rt.tab == old(rt.tab).(blocks := old(rt.tab.blocks) - {ptr})
      ensures ptr == Null ==> rt.tab == old(rt.tab)
    {
      if ptr != Null {
        rt.Free(family, ptr);
      }
    }
  }

  /** EncodedString(const wchar_t*): a Mem adopting Py_EncodeLocale's block,
      which belongs to the PyMem_* family; null when the conversion fails. */
  method Encode(rt: Runtime, s: Ptr, ok: bool) returns (m: Mem)
    requires rt.Valid() && s != Null
    modifies rt
    ensures fresh(m) && rt.Valid() && m.family == PyMem && m.Owns(rt) && rt.terminated == old(rt.terminated)
    ensures ok ==> m.ptr == old(rt.tab.next) && rt.tab == old(rt.tab).(blocks := old(rt.tab.blocks)[m.ptr := PyMem], next := m.ptr + 1)
    ensures !ok ==> m.ptr == Null && rt.tab == old(rt.tab)
  {
    var b := rt.EncodeLocale(s, ok);
    m := new Mem.Adopt(PyMem, b);
  }

  /** DecodedString(const char*): a RawMem adopting Py_DecodeLocale's block,
      which belongs to the PyMem_Raw* family; null when the conversion fails. */
  method Decode(rt: Runtime, s: Ptr, ok: bool) returns (m: Mem)
    requires rt.Valid() && s != Null
    modifies rt
    ensures fresh(m) && rt.Valid() && m.family == PyMemRaw && m.Owns(rt) && rt.terminated == old(rt.terminated)
    ensures ok ==> m.ptr == old(rt.tab.next) && rt.tab == old(rt.tab).(blocks := old(rt.tab.blocks)[m.ptr := PyMemRaw], next := m.ptr + 1)
    ensures !ok ==> m.ptr == Null && rt.tab == old(rt.tab)
  {
    var b := rt.DecodeLocale(s, ok);
    m := new Mem.Adopt(PyMemRaw, b);
  }

  /** Str::GetWide(): a WideMem (a Mem) adopting the block of
      PyUnicode_AsWideCharString, which belongs to the PyMem_* family. */
  method GetWide(rt: Runtime, str: Ptr, ok: bool) returns (m: Mem)
    requires rt.Valid() && rt.IsLive(str)
    modifies rt
    ensures fresh(m) && rt.Valid() && m.family == PyMem && m.Owns(rt) && rt.terminated == old(rt.terminated)
    ensures ok ==> m.ptr == old(rt.tab.next) && rt.tab == old(rt.tab).(blocks := old(rt.tab.blocks)[m.ptr := PyMem], next := m.ptr + 1)
    ensures !ok ==> m.ptr == Null && rt.tab == old(rt.tab)
  {
    var b := rt.AsWideCharString(str, ok);
    m := new Mem.Adopt(PyMem, b);
  }
}
