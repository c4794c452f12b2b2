# python.h ownership model

python.h is a header-only C++ wrapper over the CPython C API, in namespace `Py`.
This project models its core: how the wrappers own reference counts and memory
blocks. The pieces are:

- `Py::Object`, a handle that owns one reference to a `PyObject`;
- the typed views built on it (`None`, `Str`, `Int`, `Float`, `Tuple`, `List`,
  `Dict`, `Module`, `Callable`), which decide, entry point by entry point,
  whether a new handle adopts a reference or takes an increment of its own;
- the `Mem`/`RawMem` family, which owns allocator blocks, and the
  `U8Str`/`WideStr` text converters built on it;
- `ObjIterator`, which drives range-for over tuples and lists;
- `List::FromValues`, `Dict::SetItems` and `Dict::FromValues`.

The interpreter itself is a table (`Runtime.Runtime`):
- a reference count per object;
- a type tag per object;
- a length per tuple and list;
- the container cells (tuple and list slots, dictionary keys and values);
- the live allocator blocks with their family.

Each CPython entry point the header calls is a method on that table. Its
contract says what the entry point returns and whether it gives a borrowed or
a new reference, steals or takes its own. A failure the caller cannot
foresee, such as an allocation or an import failing, is an `ok` parameter.

The central invariant is a ghost ownership ledger (`ObjectModel.Account`).
Every object's count equals the sum of:
- the interpreter's own references;
- one per handle that holds the object;
- the new references host code received and has not yet wrapped or given away
  (`pending`);
- one per container cell that holds the object.

`Runtime.Valid()` ties the ledger to the table. Every handle operation is
proved to keep it. Release, copy, `SetObject` and the accessors are stated as
exact transitions of the ledger (`Borrow`, `Claim`, `DecRef`, `Steal`,
`Share`, `Replace`, `PutEntry`), and lemmas relate those transitions. For
example:
- a borrow followed by a release restores the ledger;
- releasing twice is releasing once;
- an adoption keeps the ledger balanced exactly when the caller owned a spare
  reference.

The modules are:
- `ObjectModel`: the ledger and its transitions;
- `Runtime`: the interpreter table;
- `Handle`: `Py::Object`;
- `Views`: typed views, tuple and list accessors, `List::FromValues`, `Import`;
- `Dicts`: the `Py::Dict` accessors;
- `Pairs`: what `SetItems` does to a mapping;
- `Iteration`: `ObjIterator` and range-for;
- `Memory`: `Mem` and its subclasses;
- `Strings`: `U8Str` and `WideStr`;
- `Conventions`: the header's code as written, where it differs from the
  entry points' conventions.

The C++ destructors are explicit `Destroy` methods.

## Model

| member | source | states |
|---|---|---|
| Handle.Object.Empty | python.h:253-255 | the default handle is null and owns nothing |
| Handle.Object.FromPointer | python.h:263-268 | with `addref` the handle takes an increment of its own, and without it it adopts the caller's new reference. The count changes by +1 or +0 respectively. A null pointer changes no count and no owner. |
| Handle.Object.Copy | python.h:257-261 | the copy holds the same pointer and owns one more reference: the ledger is `Borrow` of the old one and the source handle is untouched |
| Handle.Object.GetRef | python.h:278-281 | the count read is at least 1 and equals the number of owners the ledger records for the referent |
| Handle.Object.AddRef | python.h:286-290 | Py_IncRef on the pointer, tolerating null. The extra reference is the caller's, and no handle's record changes. |
| Handle.Object.Release | python.h:295-299 | one decrement of the handle's own reference (none for null), after which the pointer is null and the handle owns nothing |
| Handle.Object.Destroy | python.h:270-273 | the destructor is exactly Release |
| Handle.Object.SetObject | python.h:621-626 | the old referent gets one decrement and the new one one increment. Handed itself, the handle ends up null. |
| Handle.Object.GetAttr | python.h:328-331 | the result adopts the new reference PyObject_GetAttr returns, so it owns exactly that reference |
| Handle.TruthIsOwnership | python.h:643-646 | `operator bool` is true exactly when the handle owns a reference |
| Handle.SharedReferent | python.h:628-631 | two distinct handles that compare equal and are non-null give the referent a count of at least 2 |
| ObjectModel.BorrowThenRelease | python.h:257-273 | a handle that took an increment and is then destroyed leaves the ledger exactly as it found it |
| ObjectModel.ReleaseIdempotent | python.h:295-299 | releasing a released handle changes nothing |
| ObjectModel.ReassignCounts | python.h:621-626 | after SetObject, only the old and new referents' counts differ from before, by -1 and +1 |
| ObjectModel.ClaimBalancedIff | python.h:14-17 | adopting a pointer (`Py_ObjWrap`, `Py_ObjectWrap`) keeps the ledger balanced exactly when the caller owned a new reference to give |
| ObjectModel.IncRefThenDispose | python.h:941-944 | an increment that a failed stealing call releases again leaves the ledger as it was |
| ObjectModel.IncRefThenSteal | python.h:950-953 | an increment handed to a stealing call is the same as the container taking a reference of its own |
| ObjectModel.ReplaceItems | python.h:941-944 | a successful PyTuple_SetItem or PyList_SetItem changes item `i` to the new object and no other item |
| ObjectModel.PutEntryContents | python.h:1166-1169 | PyDict_SetItem changes entry `k` of `d`'s mapping only, and no tuple or list |
| ObjectModel.TemporaryAroundPut | python.h:1174-1180 | the temporary handle SetItems makes around each raw pointer leaves no trace once destroyed, so only the store remains |
| Runtime.Runtime.IncRef | python.h:286-290 | Py_IncRef adds 1 to a live object's count and nothing for null, and the ledger stays balanced |
| Runtime.Runtime.DecRef | python.h:295-299 | Py_DecRef of a handle's reference takes 1 from the count and nothing for null, and the ledger stays balanced |
| Runtime.Runtime.SeqGetItem | python.h:933-936 | PyTuple_GetItem and PyList_GetItem return item `i` (null out of range or on the wrong type), and the reference is borrowed: no count changes |
| Runtime.Runtime.SeqSetItem | python.h:941-944 | PyTuple_SetItem and PyList_SetItem succeed exactly on the right type, in range and, for a tuple, with a count of 1. They steal the item in both outcomes and release it on failure. |
| Runtime.Runtime.SeqSetItemInit | python.h:950-953 | PyTuple_SET_ITEM and PyList_SET_ITEM steal the item into an empty slot, unchecked |
| Runtime.Runtime.DictGetItem | python.h:1158-1161 | PyDict_GetItem returns the value under the key, or null, as a borrowed reference |
| Runtime.Runtime.DictSetItem | python.h:1166-1169 | PyDict_SetItem succeeds exactly on a dictionary with a hashable key. It takes references of its own and changes only that entry. |
| Runtime.Runtime.DictSetDefault | python.h:1186-1189 | PyDict_SetDefault returns the stored value, inserting the default for a missing key, as a borrowed reference |
| Views.None | python.h:652-657 | `None()` borrows Py_None: the view takes an increment of its own |
| Views.Wrap | python.h:674-699 | a factory-made view (Str, Int, Float, Tuple/List `FromSize`, `List()`, `Dict()`) adopts the new reference and is the only owner of a fresh object with count 1. A failed factory leaves a null view and no change. |
| Views.GetItem | python.h:933-936 | corrected tuple/list GetItem: the result holds item `i` (null out of range or on the wrong type) and takes an increment of its own on the borrowed item |
| Views.SetItem | python.h:941-944 | corrected tuple/list SetItem succeeds exactly when the entry point accepts. On success slot `i` holds the object, the view keeps its reference and the old item is released. On failure nothing changes. |
| Views.SetItemInit | python.h:950-953 | corrected SetItemInit: the empty slot `i` holds the object and the container owns a reference of its own, while the view keeps its reference. The ledger changes by `Share` alone, and the table only in its counts and cells. |
| Views.ListFromValues | python.h:998-1006 | the table gains one list at the lowest unused address, with count 1 and exactly the values as its items, in order. Every other list, tuple and dictionary keeps its contents. Each value's new reference is spent into the list, and the view owns the list's only reference. |
| Views.NewList | python.h:998-1004 | PyList_New(n) followed by the SET_ITEM loop adds the same list as `ListFromValues` and changes no other container. The list's one reference is still pending for the wrap. |
| Views.EmptyList | python.h:1001 | PyList_New(n) adds a list of `n` empty slots at the lowest unused address, with one new reference the caller owns. No cell of any container changes. |
| Views.AddedThenFilled | python.h:1001-1003 | adding an empty list and then filling its slots is the same as adding the filled list |
| Views.FillSlots | python.h:1002-1003 | the loop puts value `i` into slot `i`, so the list ends holding the values. The table differs only in its cells, and every other list, tuple and dictionary keeps its contents. The pending references are spent one per value. |
| Views.Import | python.h:1502-1505 | corrected Import: the Module view adopts PyImport_Import's new reference |
| Dicts.GetItem | python.h:1158-1161 | corrected Dict::GetItem: the result holds the value under the key (null when missing or not a dictionary) and takes an increment of its own |
| Dicts.SetItem | python.h:1166-1169 | succeeds exactly on a dictionary with a hashable key. On success only entry `key` of this dictionary changes, and every other mapping is untouched. |
| Dicts.SetDefault | python.h:1186-1189 | corrected SetDefault: the result is the existing value, or the default now stored, or null. The view takes an increment of its own, and a missing key gets the default inserted. Every other dictionary keeps its mapping, and the table changes only in its counts and cells. |
| Dicts.SetItems | python.h:1174-1180 | each item only has to be kept alive by the caller, through a reference of its own or a handle's. The dictionary's mapping becomes `PutPairs` of the pairs applied first to last, skipping refused keys. The ledger is `PutAll`, one `PutEntry` per accepted pair, with no handle, pending or interpreter reference changed. Every other dictionary, list and tuple keeps its contents, and only dictionary `d`'s cells change. |
| Dicts.StorePair | python.h:1178-1179 | one loop turn stores the pair when the key is accepted and otherwise changes nothing. It changes no cell outside this dictionary's entries. |
| Dicts.StoredSnoc | python.h:1177-1179 | storing the first `n` pairs and then pair `n` is storing the first `n + 1` pairs |
| Dicts.FromValues | python.h:1132-1137 | a new dictionary at the lowest unused address whose mapping is `PutPairs` of the pairs over the empty map. The state is what `SetItems` makes of the table and ledger right after the empty dictionary is adopted. |
| Pairs.PutPairsKeys | python.h:1174-1180 | after SetItems, a key is present exactly when it was before or some accepted pair names it |
| Pairs.PutPairsLastWins | python.h:1174-1180 | the value stored for a key is that of the last pair that names it |
| Pairs.PutPairsUntouched | python.h:1174-1180 | a key no accepted pair names keeps its old value, or stays absent |
| Iteration.ObjIterator.Begin | python.h:960-963 | `begin()` is an iterator at index 0 on the container |
| Iteration.ObjIterator.Next | python.h:877 | `operator++` advances the index by one |
| Iteration.ObjIterator.Deref | python.h:875 | corrected `operator*` (the GetItem of the first finding): the view holds the item at the current index and takes an increment of its own |
| Iteration.ObjIterator.Visit | python.h:875 | with the corrected GetItem, one loop turn makes the item view and destroys it. It yields item `index` and leaves every count and owner as before. |
| Iteration.End | python.h:965-968 | `end()` is the item count. On the wrong type it is SIZE_MAX, the -1 of the failed size query converted to `size_t`. |
| Iteration.ForEach | python.h:870-878 | with the corrected GetItem, a range-for over a container of the iterated type sees its items in order. On any other type it makes SIZE_MAX turns that each see null. The ledger and the table end as they began. |
| Memory.Mem.Adopt | python.h:54-57 | `Mem(void*)` and `RawMem(void*)` adopt the pointer |
| Memory.Mem.Alloc | python.h:59-64 | `Mem(size_t)` and `RawMem(size_t)` allocate a new block of the object's own family. A failed allocation ends the process. |
| Memory.Mem.Realloc | python.h:72-78 | success replaces the block by a new one of the same family. Failure ends the process with the pointer and the block as they were. |
| Memory.Mem.Destroy | python.h:66-70 | a non-null block is freed by the free function of the object's own family, and null frees nothing |
| Memory.Encode | python.h:134-136 | EncodedString owns Py_EncodeLocale's PyMem_* block, null on failure |
| Memory.Decode | python.h:154-156 | DecodedString owns Py_DecodeLocale's PyMem_Raw* block, null on failure |
| Memory.GetWide | python.h:716-719 | the WideMem owns PyUnicode_AsWideCharString's PyMem_* block |
| Strings.U8Str.FromNarrow | python.h:167-181 | narrow text is used in place and no buffer is owned |
| Strings.U8Str.FromWide | python.h:172-187 | wide text is converted into a new PyMem_* buffer that the object owns, and the text pointer is that buffer |
| Strings.U8Str.Destroy | python.h:189-192 | frees the owned buffer with PyMem_Free. Without a buffer nothing is freed. |
| Strings.WideStr.FromWide | python.h:207-227 | wide text is used in place and no buffer is owned |
| Strings.WideStr.FromNarrow | python.h:212-233 | narrow text (including a U8Str's) is converted into a new PyMem_Raw* buffer that the object owns |
| Strings.WideStr.Destroy | python.h:235-238 | frees the owned buffer with PyMem_RawFree. Without a buffer nothing is freed. |
| Strings.ConvertedBuffersDiffer | python.h:127-162 | a converted U8Str owns a PyMem_* block and a converted WideStr a PyMem_Raw* block, and the two blocks are distinct |
| Conventions.GetItemAsWritten | python.h:933-936 | as written, GetItem adopts the borrowed item: the ledger records a new owner without any increment |
| Conventions.GetItemAsWrittenFreesItem | python.h:933-936 | on a tuple that owns its only item, GetItem as written followed by the view's destruction drives the item's count to 0 while the tuple still holds it |
| Conventions.GetItemCorrectedRestores | python.h:933-936 | the same steps with the borrowing GetItem restore the ledger |
| Conventions.SetItemAsWritten | python.h:950-953 | as written, the view's own pointer is passed to a stealing call, so the slot takes over a reference the view still owns |
| Conventions.StealBalancedIff | python.h:941-944 | a stealing store keeps the ledger balanced exactly when the caller owned a spare new reference |
| Conventions.SetItemAsWrittenFreesItem | python.h:1052-1055 | SetItemInit as written, followed by the view's destruction, frees an item the list still holds |
| Conventions.SetItemCorrectedKeepsItem | python.h:1052-1055 | with the view's own increment handed over, the list keeps the item alive at count 1 and the ledger is balanced |
| Conventions.ImportAsWritten | python.h:1502-1505 | as written, Import's new reference is wrapped with `addref` left true: the count rises by 2 for one owner |
| Conventions.ImportAsWrittenLeaks | python.h:1502-1505 | after the module view is destroyed one reference remains that nobody owns |
| Conventions.ImportCorrectedRestores | python.h:1502-1505 | the adopting Import followed by destruction restores the ledger |
| Conventions.AssignAsWrittenUnbalanced | python.h:250-261 | `Object` declares no `operator=`, so `x = y` copies the pointer with no increment and no release. Whenever the two handles hold different objects, this leaves the ledger unbalanced. |
| Conventions.AssignAsWrittenFreesReferent | python.h:250-273 | `x` owns the only reference to one object and `y` to another. After `x = y` and the destruction of `x`, `y`'s object has count 0 while `y` still points at it, and `x`'s old object keeps a count nobody owns. |
| Conventions.AssignCorrectedBalanced | python.h:621-626 | assignment through `SetObject` keeps the ledger balanced whatever the two handles hold |
| Conventions.AssignCorrectedKeepsReferent | python.h:621-626 | the same two handles with `SetObject`: after `x` is destroyed, `y`'s object is alive at count 1 for `y`, and `x`'s old object has been released |

## Left out

- Python semantics beyond reference ownership are not modelled:
  - object sizes, attribute lookup (the attribute found is a parameter), the `Is*` type predicates, `GetDocumentation` and `GetName`;
  - numeric conversions and everything about `Float` and `Int` except their construction;
  - `Str::GetUTF8`;
  - callable dispatch (`Callable::Call*`);
  - what an import does (the module found is a parameter);
  - interpreter start-up and shutdown, the path and program-name settings;
  - the GIL.

  These are foreign calls whose results the model takes as parameters or does not need.
- List slicing, sorting, reversing, `Append`, `Insert`, `AsTuple`, `DelItem`, `Clear`, `Copy`, `Items`, `Keys`, `Values`, `Contains` and `Tuple::Resize` are not modelled. They do not change how the wrapper owns references beyond what `Views.Wrap` and `Views.GetItem` show.
- `Tuple::FromValues` (PyTuple_Pack) is only modelled as a factory (`Views.Wrap`): the values PyTuple_Pack copies into the tuple are not modelled.
- Locale conversion content (Py_EncodeLocale, Py_DecodeLocale, PyUnicode_AsWideCharString) is not modelled. Only whether a block of which family is returned is.
- Allocation sizes are not modelled. `Memory.Mem.Realloc` always returns a different block, whereas the real allocator may grow a block in place.
- Deallocation does not cascade: an object whose count reaches 0 keeps its entry at 0, and the references its own cells hold are not released.
- Dictionary keys are compared by identity, not by `__eq__` and `__hash__`. Lists and dictionaries are the only unhashable types; a tuple that contains a list is taken as hashable.
- `Views.ListFromValues` takes its values as raw pointers the caller owns a new reference to, since PyList_SET_ITEM steals each one. Values handed in as `Object`s are not modelled. That call has the same defect as the second finding: the by-value copies own the references PyList_SET_ITEM takes, the copies release them on return, and the list holds references nobody owns.
- `Dicts.SetItems` and `Dicts.FromValues` take their items as raw pointers the caller keeps alive (`ObjectModel.Kept`), either through a reference of its own or through a handle's. PyDict_SetItem takes references of its own, so either kind of item is stored. The temporaries `Dict::SetItems` makes around each raw pointer are left out of the loop because `ObjectModel.TemporaryAroundPut` shows that they cancel.
- `Dicts.SetItems` and `Dicts.FromValues` require an even number of items. With an odd count the header reads past the end of its vector.
- `Views.ListFromValues`, `Views.NewList` and `Dicts.FromValues` require the container allocation to succeed when there are values (`ok || |values| == 0`). On failure the header would store into a null container, which is undefined behaviour.
- `Handle.Object.GetRef` requires a non-null pointer, because the header dereferences it.
- The string conversions require a non-null text pointer, because Py_EncodeLocale and Py_DecodeLocale would dereference null.
- `Iteration.ForEach` over a container of the wrong type is stated as SIZE_MAX turns that each see null, which follows the code literally. The header's own behaviour there is a loop of that length.
- `Views.Wrap`: a successful factory always yields a fresh object with count 1. CPython instead hands out shared cached objects for small integers, the empty string, one-character strings and the empty tuple, with the count raised by one. `Runtime.Runtime.New` models every factory the same way. The ownership transitions are the same in both cases: the caller gets one new reference that the view adopts.
- `std::terminate` (a `throw;` with no exception in flight) is a `terminated` flag on the runtime. Nothing after it is modelled.

## Findings

| source | as written | input that shows it | evidently intended | confidence | as-written member | corrected member |
|---|---|---|---|---|---|---|
| python.h:875, 933-936, 1035-1038, 1158-1161, 1186-1189 | `Py_ObjWrap` makes the result of `GetItem` and `SetDefault` adopt a borrowed reference from PyTuple_GetItem, PyList_GetItem, PyDict_GetItem or PyDict_SetDefault | a tuple whose only reference to its item is its slot: `GetItem(0)` and then destroying the result frees the item while the tuple still holds it | wrap with `addref` true, so the view takes an increment of its own | not executed | Conventions.GetItemAsWrittenFreesItem | Views.GetItem |
| python.h:941-953, 1043-1055 | `SetItem` and `SetItemInit` pass the view's own pointer to PyTuple_SetItem, PyList_SetItem or the SET_ITEM macros, which steal it, with no increment | a new list and a view that owns the only reference to an object: `SetItemInit(0, view)` and then destroying the view frees the object the list holds | `AddRef` before the stealing call, so the container gets a reference of its own | not executed | Conventions.SetItemAsWrittenFreesItem | Views.SetItemInit |
| python.h:1502-1505 | `Import` converts PyImport_Import's new reference to `Module` through `Module(PyObject*, addref = true)`, adding a second increment | any successful import: after the returned Module is destroyed one reference remains that nobody owns, so the module is never freed | adopt the new reference (`Py_ObjWrap`) | not executed | Conventions.ImportAsWrittenLeaks | Views.Import |
| python.h:250-261, 621-626 | `Object` declares no copy assignment, so the implicit `operator=` copies `ptr` with no increment for the new referent and no release of the old one. Assigning a raw pointer builds a temporary `Object(p)` and then assigns it the same way. | two handles, each owning the only reference to a different object: `x = y` and then destroying `x` frees `y`'s object while `y` still points at it, and `x`'s old object is never released | assign through `SetObject`: release, copy, then `AddRef` | not executed | Conventions.AssignAsWrittenFreesReferent | Handle.Object.SetObject |
