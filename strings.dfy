/** U8Str and WideStr: a text pointer in the wanted width that either points
    at the caller's text, when no conversion is needed, or at a conversion
    buffer the object owns and deletes with itself. */
module Strings {
  import opened ObjectModel
  import opened Runtime
  import opened Memory

  /** U8Str: a narrow (char*) text. */
  class U8Str {
    var ptr: Ptr
    var encoded: Mem?    // the EncodedString, only after a conversion

    /** With a buffer, the text is that buffer's PyMem_* block (null when the
        conversion failed). */
    ghost predicate Owns(rt: Runtime)
      reads this, encoded, rt
    {
      encoded != null ==> encoded.family == PyMem && encoded.Owns(rt) && ptr == encoded.ptr
    }

    /** U8Str(const char*) and U8Str(const std::string&): the text is already
        narrow and is used in place. */
    constructor FromNarrow(s: Ptr)
      ensures ptr == s && encoded == null
    {
      ptr := s;
      encoded := null;
    }

    /** U8Str(const wchar_t*) and U8Str(const std::wstring&): the text is
        converted by a new EncodedString, which the object keeps. */
    constructor FromWide(rt: Runtime, s: Ptr, ok: bool)
      requires rt.Valid() && s != Null
      modifies rt
      ensures rt.Valid() && Owns(rt) && encoded != null && fresh(encoded) && ptr == encoded.ptr
      ensures ok ==> ptr == old(rt.tab.next) && rt.tab == old(rt.tab).(blocks := old(rt.tab.blocks)[ptr := PyMem], next := ptr + 1)
      ensures !ok ==> ptr == Null && rt.tab == old(rt.tab)
      ensures rt.terminated == old(rt.terminated)
    {
      var m := Encode(rt, s, ok);
      encoded := m;
      ptr := m.ptr;
    }

    /** ~U8Str(): `delete encoded`, which frees the buffer with PyMem_Free;
        without a buffer nothing is freed. */
    method Destroy(rt: Runtime)
      requires rt.Valid() && Owns(rt)
      modifies rt
      ensures rt.Valid()
      ensures rt.tab == if encoded != null && ptr != Null then old(rt.tab).(blocks := old(rt.tab.blocks) - {ptr}) else old(rt.tab)
      ensures rt.terminated == old(rt.terminated)
    {
      if encoded != null {
        encoded.Destroy(rt);
      }
    }
  }

  /** WideStr: a wide (wchar_t*) text. */
  class WideStr {
    var ptr: Ptr
    var decoded: Mem?    // the DecodedString, only after a conversion

    /** With a buffer, the text is that buffer's PyMem_Raw* block (null when
        the conversion failed). */
    ghost predicate Owns(rt: Runtime)
      reads this, decoded, rt
    {
      decoded != null ==> decoded.family == PyMemRaw && decoded.Owns(rt) && ptr == decoded.ptr
    }

    /** WideStr(const wchar_t*) and WideStr(const std::wstring&): the text is
        already wide and is used in place. */
    constructor FromWide(s: Ptr)
      ensures ptr == s && decoded == null
    {
      ptr := s;
      decoded := null;
    }

    /** WideStr(const char*), WideStr(const std::string&) and
        WideStr(const U8Str&) (with the U8Str's narrow text as `s`): the text is
        converted by a new DecodedString, which the object keeps. */
    constructor FromNarrow(rt: Runtime, s: Ptr, ok: bool)
      requires rt.Valid() && s != Null
      modifies rt
      ensures rt.Valid() && Owns(rt) && decoded != null && fresh(decoded) && ptr == decoded.ptr
      ensures ok ==> ptr == old(rt.tab.next) && rt.tab == old(rt.tab).(blocks := old(rt.tab.blocks)[ptr := PyMemRaw], next := ptr + 1)
      ensures !ok ==> ptr == Null && rt.tab == old(rt.tab)
      ensures rt.terminated == old(rt.terminated)
    {
      var m := Decode(rt, s, ok);
      decoded := m;
      ptr := m.ptr;
    }

    /** ~WideStr(): `delete decoded`, which frees the buffer with
        PyMem_RawFree; without a buffer nothing is freed. */
    method Destroy(rt: Runtime)
      requires rt.Valid() && Owns(rt)
      modifies rt
      ensures rt.Valid()
      ensures rt.tab == if decoded != null && ptr != Null then old(rt.tab).(blocks := old(rt.tab.blocks) - {ptr}) else old(rt.tab)
      ensures rt.terminated == old(rt.terminated)
    {
      if decoded != null {
        decoded.Destroy(rt);
      }
    }
  }

  /** A U8Str and a WideStr built by conversions own two different blocks,
      one of each family, so each destructor frees its own with the free
      function of its own family. */
  lemma ConvertedBuffersDiffer(rt: Runtime, u: U8Str, w: WideStr)
    requires u.Owns(rt) && w.Owns(rt) && u.encoded != null && w.decoded != null && u.ptr != Null
    ensures u.ptr != w.ptr && rt.tab.blocks[u.ptr] == PyMem
    ensures w.ptr != Null ==> rt.tab.blocks[w.ptr] == PyMemRaw
  {
  }
}
