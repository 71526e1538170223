# neutron core runtime, modelled in Dafny

This project models the C runtime at the bottom of the neutron stack and
proves properties about it. It covers:

- `elemental`'s type registry and type-declaration macros;
- named-argument lookup;
- signals, value lists, string buffers and backtraces;
- path joining;
- the `shimmy` shim registry and its process-signal handler;
- the `graphics` scene's layer list.

How the model is built:

- **One module per source file.**
  - `Argument` (argument.c)
  - `TypeRegistry` (type.c)
  - `TypeDefs` (type.h macros, flags, `nt_type_isof`, reference counts)
  - `Signals` (signal.c)
  - `Lists` (list.c)
  - `Strings` (string.c)
  - `Backtraces` (backtrace.c)
  - `Fs` (fs.c)
  - `Shims` (shimmy/src/registry.c)
  - `Shimmy` (the signal handler in shimmy/src/shimmy.c)
  - `Scenes` (graphics/src/scene.c)
  - Shared helpers: `Wrappers`, `Values` (value.h) and `Seqs`.
- **Objects the C code updates in place are classes.**
  - The private linked lists become `seq` fields that the methods reassign, head first:
    - the type registry;
    - signal entries;
    - backtrace entries;
    - shim bindings;
    - scene layers.
  - `NtList`, whose nodes are public, is a real node class with `prev`/`next` fields. Its methods take a ghost sequence naming the chain the node belongs to.
- **Pointers.** A pointer that is only passed around is an address (`nat`, with 0 for NULL).
- **Opaque calls become returned traces.** These are a signal's handlers, a layer's render/clean and a shim's handler. Each such method returns the sequence of calls it makes, in order.
- **As written versus intended.** Where the C code has a defect, the model has two members: one for the code as written, and the intended behaviour that the rest of the model uses. The "## Findings" section lists each pair.

## Model

| member | source | states |
|---|---|---|
| Argument.TerminatorFrom | elemental/src/argument.c:6 | the loop's stopping index is the first NULL-name entry at or after the start, and every entry before it is named |
| Argument.Terminator | elemental/src/argument.c:6 | an argument array that carries a terminator has a first NULL name, and only the entries before it are named |
| Argument.Scan | elemental/src/argument.c:6-8 | the loop returns the default or the value of some entry named `name` |
| Argument.Get | elemental/src/argument.c:4-11 | a NULL array gives the default; otherwise the result is the default or the value of an entry named `name` before the terminator |
| Argument.ScanStopsAtTerminator | elemental/src/argument.c:6-7 | the lookup never returns an entry at or past the terminator |
| Argument.ScanFindsFirst | elemental/src/argument.c:6-7 | the first entry carrying the name is the one returned |
| Argument.ScanMissesAll | elemental/src/argument.c:6-10 | with no match before the terminator the default comes back |
| Argument.ScanIgnoresTail | elemental/src/argument.c:6 | the lookup depends only on the entries up to the terminator |
| Argument.FirstMatchWins | elemental/src/argument.c:7 | the first entry named `name` before the terminator is returned with its tag and payload unchanged |
| Argument.NoMatchGivesDefault | elemental/src/argument.c:10 | no entry named `name` before the terminator means the default is returned |
| Argument.TailAfterTerminatorIgnored | elemental/src/argument.c:6 | replacing everything after the terminator does not change any lookup |
| Seqs.IndexOf | elemental/src/signal.c:72-73 | the position of the first occurrence, or the length when there is none; no earlier element matches |
| Seqs.RemoveAt | elemental/src/signal.c:76-78 | unlinking one entry keeps the others in their order |
| TypeRegistry.TypeInfo.constructor | elemental/include/neutron/elemental/type.h:57-64 | a zero-initialised descriptor has no id and keeps the flags, parents and size its owner fills in |
| TypeRegistry.Registry.constructor | elemental/src/type.c:12-14 | the registry starts empty and the id counter starts at 1 |
| TypeRegistry.Registry.Register | elemental/src/type.c:16-39 | the descriptor receives the counter's value, which is positive and not held by any registered type; the counter moves on by one; the descriptor becomes the registry head; all other descriptors keep their ids; ids stay unique |
| TypeRegistry.Registry.InfoFromType | elemental/src/type.c:56-63 | returns a registered descriptor carrying the id, and NULL exactly when no registered type has it |
| TypeRegistry.Registry.Unregister | elemental/src/type.c:41-54 | (intended) removes the entry with the descriptor's id and keeps the rest in order; the id is reset to NT_TYPE_NONE and afterwards no entry has it; an unknown id changes nothing |
| TypeRegistry.Registry.RemovedIdGone | elemental/src/type.c:42-49 | removing the entry found by id leaves no entry carrying that id, and the remaining ids are still pairwise distinct |
| TypeRegistry.Registry.SameIdSameInfo | elemental/src/type.c:56-63 | within a valid registry an id identifies its descriptor, so lookup by id finds the registered descriptor |
| TypeRegistry.RegisterThenLookup | elemental/src/type.c:16-63 | a freshly registered type is found again by its id |
| TypeRegistry.BasicRegistryScenario | elemental/tests/test-type.c:23-39 | register, look up, unregister: the id is reset and the second lookup returns NULL, as the basic test expects |
| TypeRegistry.UnregisterAsWritten | elemental/src/type.c:41-54 | as written: unregistering the head (its `prev` was never set) or the oldest entry (its `next` is NULL) faults; elsewhere the entry is unlinked but the descriptor's id is not reset |
| TypeRegistry.UnregisterAsWrittenFailsTest | elemental/tests/test-type.c:27-35 | the basic test's single register/unregister faults as written, and a middle unlink leaves the id in place |
| TypeDefs.EncodeFlags | elemental/include/neutron/elemental/type.h:38-42 | see FlagsRoundTrip: the encoding is the OR of the STATIC and NOREF bits |
| TypeDefs.DecodeFlags | elemental/include/neutron/elemental/type.h:38-42 | see FlagsRoundTrip: reads bits 0 and 1 |
| TypeDefs.FlagsRoundTrip | elemental/include/neutron/elemental/type.h:32-42 | decoding inverts encoding for every combination and encoding inverts decoding on two-bit words; a type is extensible exactly when STATIC is clear; every encoding fits in two bits |
| TypeDefs.ParentsOf | elemental/include/neutron/elemental/type.h:50 | the parents are the prefix of the `extends` array before its NT_TYPE_NONE terminator, none of them NT_TYPE_NONE |
| TypeDefs.HierarchyOf | elemental/include/neutron/elemental/type.h:50 | the hierarchy read from a registry has exactly the registered ids as its keys (their parents are the ones `ParentsOf` keeps; see GetType) |
| TypeDefs.HierarchyOrdered | elemental/include/neutron/elemental/type.h:50 | when every registered type's parents carry smaller ids, the registry's hierarchy is acyclic and never names NT_TYPE_NONE as a parent |
| TypeDefs.IsOf | elemental/include/neutron/elemental/type.h:200-208 | `nt_type_isof(type, base)` is only true for a real base type (never NT_TYPE_NONE) registered before `type`, so no type extends itself |
| TypeDefs.ExtendsAny | elemental/include/neutron/elemental/type.h:200-208 | a parent list extends `base` only when `base` is a real type below all the parents' bound |
| TypeDefs.ExtendsAnyFinds | elemental/include/neutron/elemental/type.h:200-208 | the ancestry check over a parent list holds exactly when some parent is the base or extends it |
| TypeDefs.PathImpliesIsOf | elemental/include/neutron/elemental/type.h:200-208 | every chain of parent links from `type` to `base` makes `nt_type_isof(type, base)` true |
| TypeDefs.IsOfImpliesPath | elemental/include/neutron/elemental/type.h:200-208 | `nt_type_isof(type, base)` is only true when such a chain exists |
| TypeDefs.IsOfIffReaches | elemental/include/neutron/elemental/type.h:200-208 | `@type` extends `@base` exactly when `base` is reachable from `type` through parent links |
| TypeDefs.PathCons | elemental/include/neutron/elemental/type.h:200-208 | a path starting at one of `type`'s parents extends to a path from `type` |
| TypeDefs.IsOfTransitive | elemental/include/neutron/elemental/type.h:200-208 | extension is transitive |
| TypeDefs.PathDescends | elemental/src/type.c:24 | along a chain of parent links the ids strictly decrease |
| TypeDefs.IsInstanceAsWritten | elemental/include/neutron/elemental/type.h:121-125 | as written, `NT_IS_<NAME>` holds exactly when the macro's type equals, or extends, the instance's type |
| TypeDefs.IsInstance | elemental/include/neutron/elemental/type.h:121-125 | (intended) the check holds exactly when the instance's type equals, or extends, the macro's type |
| TypeDefs.IsInstanceAsWrittenReversed | elemental/include/neutron/elemental/type.h:124 | with B extending A, the written check rejects a B as an A and accepts an A as a B; the intended check does the opposite |
| TypeDefs.TypeDefinition.constructor | elemental/include/neutron/elemental/type.h:126-130 | an expansion starts with its memoised id at NT_TYPE_NONE |
| TypeDefs.TypeDefinition.PayloadSize | elemental/include/neutron/elemental/type.h:116-117 | `<NS>_<NAME>_SIZE` plus the header size is the struct size |
| TypeDefs.TypeDefinition.GetType | elemental/include/neutron/elemental/type.h:126-136 | the first call fills the static descriptor (flags, parents, payload size = struct size minus header size) and registers it once; the registry's hierarchy then gives the new id the parents listed before the terminator, and it stays ordered when those parents were registered first; later calls return the same id and change nothing |
| TypeDefs.GetTypeTwice | elemental/include/neutron/elemental/type.h:126-136 | two accessor calls agree and register exactly one descriptor |
| TypeDefs.Instance.constructor | elemental/include/neutron/elemental/type.h:75-80 | a new instance is alive with no extra references; NOREF is read from the flags |
| TypeDefs.Instance.Ref | elemental/include/neutron/elemental/type.h:249-255 | returns the same instance with one more reference, unless its type is NOREF |
| TypeDefs.Instance.Unref | elemental/include/neutron/elemental/type.h:257-264 | destroys the instance exactly when no extra reference remains, otherwise drops one |
| TypeDefs.RefUnrefScenario | elemental/tests/test-type.c:42-58 | a ref then two releases: the count goes 1, 0, then the instance is destroyed |
| Signals.LockingArguments | elemental/src/signal.c:37-49 | the factories' argument arrays are terminated |
| Signals.Detached | elemental/src/signal.c:72-83 | the first entry with the handler is removed and the others keep their order; without such an entry the list is unchanged |
| Signals.Handlers | elemental/src/signal.c:72-73 | the handlers of the entries, position by position |
| Signals.Signal.constructor | elemental/src/signal.c:8-21 | no entries; the locking flag is the `NtSignal::locking` argument, defaulting to false |
| Signals.Signal.Attach | elemental/src/signal.c:51-66 | the new entry becomes the list head; earlier entries follow unchanged, duplicates included |
| Signals.Signal.Detach | elemental/src/signal.c:68-84 | (intended) the list becomes `Detached` of the old list |
| Signals.Signal.Emit | elemental/src/signal.c:86-97 | exactly one call per entry, in list order (newest first), each with the emit arguments and that entry's data |
| Signals.Signal.Destroy | elemental/src/signal.c:23-35 | every entry is freed, none is called |
| Signals.New | elemental/src/signal.c:37-42 | a fresh empty signal that does not lock |
| Signals.NewLocking | elemental/src/signal.c:44-49 | a fresh empty signal that locks |
| Signals.LockingArgumentRead | elemental/src/signal.c:16-18 | the constructor reads back the flag each factory passes |
| Signals.LockingDefaultsToFalse | elemental/src/signal.c:16 | without the locking argument a signal does not lock |
| Signals.IndexOfIsFirst | elemental/src/signal.c:72-73 | the detach loop stops at the first entry with the handler |
| Signals.DetachUndoesAttach | elemental/src/signal.c:51-84 | detaching a handler just attached restores the previous list |
| Signals.MultipleScenario | elemental/tests/test-signal.c:37-52 | a handler attached twice runs twice, newest data first; one detach leaves only the older attachment |
| Signals.DetachAsWritten | elemental/src/signal.c:57-83 | as written: detaching the head entry (whose `prev` attach never set) faults; an absent handler changes nothing; otherwise the intended removal happens |
| Signals.DetachAsWrittenFaultsAfterAttach | elemental/tests/test-signal.c:41-50 | detaching the most recently attached handler faults as written, while the intended detach restores the previous list |
| Lists.ListNode.constructor | elemental/src/list.c:8-30 | a node on its own holding the value |
| Lists.Construct | elemental/src/list.c:12-29 | (intended) the arguments the constructor reads: the `prev`/`next` instances (NULL when absent) and the `value` (a NULL pointer when absent) |
| Lists.ConstructNode | elemental/src/list.c:12-29 | the new node holds the value and points at its neighbours, each non-NULL neighbour points back at it, and nothing else about the neighbours changes |
| Lists.ConstructAfter | elemental/src/list.c:12-29 | constructing with a chain node as `prev` and its successor as `next` splices the new node into the chain after `prev`, keeping a well-linked chain and all values |
| Lists.AllocArguments | elemental/src/list.c:41-44 | alloc's argument array is terminated |
| Lists.AllocArgumentsRead | elemental/src/list.c:40-45 | construction from alloc's arguments yields an unlinked node holding exactly the value |
| Lists.Alloc | elemental/src/list.c:40-45 | a fresh unlinked node holding the value |
| Lists.GetHead | elemental/src/list.c:47-53 | NULL for NULL; otherwise the first node of the chain, which has no predecessor |
| Lists.GetTail | elemental/src/list.c:55-61 | NULL for NULL; otherwise the last node of the chain, which has no successor |
| Lists.Length | elemental/src/list.c:63-72 | 0 for NULL; otherwise the number of nodes from `self` to the tail |
| Lists.Prepend | elemental/src/list.c:74-81 | a fresh node holding the value is linked before the head; the result is a well-linked chain headed by the new node; the old values are kept |
| Lists.Append | elemental/src/list.c:83-93 | as written: a fresh node is linked after the tail, giving a well-linked chain, but the old tail is returned for a non-empty list |
| Lists.AppendReturningHead | elemental/include/neutron/elemental/list.h:95-103 | (intended) the value is linked at the end and the head of the resulting chain is returned |
| Lists.Without | elemental/src/list.c:32-38 | a chain with one node removed is one shorter |
| Lists.Unlink | elemental/src/list.c:32-38 | the neighbours now point at each other, so the rest is still a well-linked chain; the node's own links and all values are unchanged |
| Lists.AppendThreeTimes | platform/targets/linux/src/systemd/device-enum.c:36-43 | three appends give a well-linked chain of the three values in order, but the variable ends up holding the middle node, not the head |
| Lists.ConstructAsWritten | elemental/src/list.c:20-26 | as written, with assertions enabled: construction dereferences NULL exactly when the `next` argument is NULL; otherwise it reads the intended arguments |
| Lists.AllocAsWrittenDereferencesNull | elemental/src/list.c:22 | every `nt_list_alloc` passes no `next`, so as written (assertions enabled) it faults; the intended construction gives an unlinked node |
| Strings.UpToNul | elemental/src/string.c:181-193 | the C string of a buffer is its prefix before the first NUL, which contains no NUL |
| Strings.UpToNulUnique | elemental/src/string.c:181-193 | any NUL-free prefix that ends at a NUL or at the buffer end is that C string |
| Strings.StrNEqual | elemental/src/string.c:206 | `strncmp(a, b, n) == 0` holds whenever the first n characters of both agree |
| Strings.StrNEqualIsSliceEquality | elemental/src/string.c:200-216 | `strncmp` over a C string's length agrees exactly with equality of that many leading characters |
| Strings.StrNCpy | elemental/src/string.c:76 | `strncpy` sets the first n characters to the source, padded with NULs, and keeps the rest |
| Strings.Fit | elemental/src/string.c:69-78 | a fixed-size copy has exactly the buffer's length, character by character from the source, NUL past its end |
| Strings.FitText | elemental/src/string.c:69-78 | after a fixed-size set the C string is the new value cut off at the buffer length |
| Strings.HasPrefixOf | elemental/src/string.c:200-207 | true exactly when the prefix fits and equals the first characters of the buffer |
| Strings.HasSuffixOf | elemental/src/string.c:209-216 | true exactly when the suffix fits and equals the characters ending at `length` |
| Strings.NewArguments | elemental/src/string.c:34-36 | the argument array passed on to `nt_string_new_full` is terminated |
| Strings.NewArgumentsRead | elemental/src/string.c:14-22 | the constructor reads back the length and the string that `nt_string_new` passes |
| Strings.NtString.constructor | elemental/src/string.c:10-24 | the string holds a copy of the value and its length, or no buffer and length 0 for NULL |
| Strings.NtString.Text | elemental/src/string.c:181-193 | the C string held contains no NUL |
| Strings.NtString.SetDynamic | elemental/src/string.c:56-67 | (intended) the contents become a copy of the value with its length; NULL clears the string |
| Strings.NtString.SetFixed | elemental/src/string.c:69-78 | the length is unchanged and the contents become the value, cut off or NUL-padded to that length; the size_t arithmetic always copies `length` characters |
| Strings.NtString.DynamicPrintf | elemental/src/string.c:104-128 | (intended) the contents become the formatted text and the length becomes its length |
| Strings.NtString.DynamicPrintfAsWritten | elemental/src/string.c:117-127 | as written: the buffer holds the text and its terminator, and the stored length counts the terminator |
| Strings.NtString.GetValue | elemental/src/string.c:181-193 | NULL exactly when unset; otherwise a NUL-free copy of the buffer up to its first NUL, together with the stored length |
| Strings.NtString.GetLength | elemental/src/string.c:195-198 | the stored length is the buffer's size, 0 when unset |
| Strings.NtString.DynamicAppend | elemental/src/string.c:148-157 | (intended, built on the corrected printf) the contents become the old C string followed by the argument (an unset string counts as empty) |
| Strings.NtString.DynamicPrepend | elemental/src/string.c:170-179 | (intended, built on the corrected printf) the contents become the argument followed by the old C string |
| Strings.NtString.HasPrefix | elemental/src/string.c:200-207 | true exactly when the prefix fits in the stored length and the buffer starts with it |
| Strings.NtString.HasSuffix | elemental/src/string.c:209-216 | true exactly when the suffix fits in the stored length and the buffer's first `length` characters end with it |
| Strings.AppendPrependScenario | elemental/src/string.c:148-216 | after appending `s` the string ends with `s`; after then prepending `s` it starts with `s` |
| Strings.DynamicPrintfAsWrittenBreaksSuffix | elemental/src/string.c:127 | with the length counting the terminator, a string ending in `c` does not have suffix `c`; with the intended length it does |
| Strings.SetDynamicAsWritten | elemental/src/string.c:64-66 | as written: setting NULL writes through a NULL pointer; any other value is stored with its length |
| Backtraces.Reverse | elemental/src/backtrace.c:70-72 | the order the copy loop produces: as many entries, the original's bottom entry on top and its top at the bottom |
| Backtraces.ReverseAt | elemental/src/backtrace.c:64-74 | reversal keeps the length and mirrors every position |
| Backtraces.ReverseReverse | elemental/src/backtrace.c:64-74 | reversing twice gives back the original order |
| Backtraces.Backtrace.constructor | elemental/src/backtrace.c:15-19 | a new backtrace has no entries |
| Backtraces.Backtrace.PushFull | elemental/src/backtrace.c:76-88 | the new entry (file, method, line, address) becomes the top; the old stack lies below it |
| Backtraces.Backtrace.SyncFull | elemental/src/backtrace.c:90-95 | only the top entry's line changes |
| Backtraces.Backtrace.Pop | elemental/src/backtrace.c:97-111 | drops the top entry; on an empty backtrace nothing happens |
| Backtraces.Backtrace.Copy | elemental/src/backtrace.c:64-74 | a fresh backtrace holding the same entries in reversed order; the original is untouched |
| Backtraces.Backtrace.Destroy | elemental/src/backtrace.c:21-34 | every entry is freed, top first |
| Backtraces.PushThenPop | elemental/src/backtrace.c:76-111 | a push followed by a pop restores the previous stack |
| Backtraces.CopyScenario | elemental/src/backtrace.c:64-74 | a copy has as many entries as the original, with its top and bottom swapped |
| Fs.Separator | elemental/src/fs.c:20-29 | the separator is never the terminator |
| Fs.Segments | elemental/src/fs.c:20 | the segments are the arguments before the first NULL, in order |
| Fs.Joined | elemental/src/fs.c:20-29 | a joined path contains no NUL |
| Fs.JoinedSnoc | elemental/src/fs.c:20-29 | one more segment extends the path by the separator and that segment |
| Fs.JoinedLength | elemental/src/fs.c:20-29 | a path's length is one separator per segment plus the segments' lengths |
| Fs.JoinPath | elemental/src/fs.c:7-35 | with no segment the result is NULL; otherwise it is each segment preceded by the platform separator, in argument order |
| Fs.JoinTwoSegments | elemental/src/fs.c:7-35 | ("a", "b") joins to "/a/b", or "\a\b" on Windows |
| Shims.Binding.constructor | shimmy/src/registry.c:14-21 | a binding keeps its library, method and handler |
| Shims.Registry.constructor | shimmy/src/registry.c:11 | the registry starts empty |
| Shims.Registry.Bind | shimmy/src/registry.c:13-31 | (intended) a fresh binding with a non-NULL id becomes the head; older bindings stay reachable |
| Shims.Registry.GetShim | shimmy/src/registry.c:33-40 | returns the binding with the id, and NULL exactly when no bound binding has it |
| Shims.Registry.Find | shimmy/src/registry.c:42-49 | NT_SHIM_NONE exactly when no binding matches both names; otherwise the first match from the head |
| Shims.Registry.Unbind | shimmy/src/registry.c:51-64 | (intended) removes the binding with the id and keeps the others in order; an unknown id changes nothing; afterwards the id is unbound |
| Shims.Registry.GetReg | shimmy/src/registry.c:66-68 | the registry head, NULL when empty |
| Shims.BindUnbindScenario | shimmy/tests/test-shimmy.c:12-32 | after bind then unbind, both get_shim and find come back empty |
| Shims.BindTwiceScenario | shimmy/src/registry.c:13-49 | with two bindings, the older one is still found by its names |
| Shims.BindAsWritten | shimmy/src/registry.c:22-29 | as written: the new entry becomes the head and its `next` is NULL |
| Shims.BindsAsWritten | shimmy/src/registry.c:13-31 | as written, after n binds into an empty registry the head is the n-th binding |
| Shims.Walk | shimmy/src/registry.c:33-49 | the lookup walk from an entry visits at most `fuel` entries, starts at that entry, and visits only live, non-NULL entries |
| Shims.BindsAsWrittenLinks | shimmy/src/registry.c:22-29 | as written, after n binds every `next` link is NULL and the head is the newest entry |
| Shims.OnlyNewestReachableAsWritten | shimmy/src/registry.c:22-49 | as written, the lookup walk from the head sees only the newest binding |
| Shims.UnbindAsWritten | shimmy/src/registry.c:51-64 | as written: unbinding the head empties the reachable registry; unbinding elsewhere removes just that binding; an unknown id changes nothing |
| Shimmy.SignalHandler | shimmy/src/shimmy.c:76-97 | a SEG_VIO exception for a bound shim runs its handler once and becomes a return carrying the handler's result in arg0 and NULL in arg1-arg3, answered STOP, RETURN; anything else is unchanged and answered CONTINUE without any call; the answer's CONTINUE bit (platform/include/neutron/platform/signal.h:61-64) is clear exactly when the signal was handled, and QUIT is never set |
| Shimmy.ExecScenario | shimmy/tests/test-shimmy.c:12-24 | with ("test", "test") bound, a SEG_VIO exception for the found shim returns the handler's value and runs the handler once with the caller's data |
| Scenes.Scene.constructor | graphics/src/scene.c:9-18 | a new scene has no layers |
| Scenes.Scene.AddLayer | graphics/src/scene.c:37-55 | the layer becomes the head of the list; adding it again adds a second entry |
| Scenes.Scene.RenderAll | graphics/src/scene.c:57-69 | each listed layer is rendered once with the renderer, in list order |
| Scenes.Scene.CleanAll | graphics/src/scene.c:71-82 | each listed layer is cleaned once, in list order |
| Scenes.Scene.Destroy | graphics/src/scene.c:20-35 | each listed layer is released once, in order, and the list is emptied |
| Scenes.AddTwiceScenario | graphics/src/scene.c:37-69 | a layer added twice is rendered twice per frame, newest first |

## Left out

- Mutexes (`pthread_mutex_*` in type.c, signal.c, shimmy.c and graphics/src/scene.c) and the `is_locking` behaviour of `nt_signal_emit`. Every operation is modelled as running alone.
- The formatting itself in `nt_string_dynamic_printf`/`vprintf` (`vsnprintf`). The caller supplies the formatted text.
- The `fixed_*` string functions, `nt_string_new_alloc` and `nt_string_set_fixed_strict`. They are variants of the modelled operations whose behaviour is not examined here.
- `nt_backtrace_to_string` and `nt_backtrace_new_auto`. Formatting and stack unwinding are out of scope.
- `nt_read_file`. It does file I/O.
- `nt_shimmy_exec`: the process signal attach, send and detach calls into the platform layer. Only the handler it installs is modelled (`Shimmy.SignalHandler`, with `Shimmy.ExecScenario` for the test's sequence).
- The instance memory layout: `nt_type_instance_new`'s allocation, `nt_type_instance_get_data`, `nt_type_info_get_total_size`, and the constructor/destructor chain over parents. Only the reference count and the payload size are modelled.
- Shim registry copy: shimmy.c repeats registry.c's bind/get_shim/find/unbind/get_reg verbatim, so it is modelled once as `Shims`.
- `NtProcessSignal`'s union: the exception kind and the return data are kept as separate fields rather than overlaid.
- Shim binding names: the library and method names are kept by value, whereas the C code keeps the caller's pointers.
- `nt_backtrace_sync_full`: its `asset` typo for `assert` on backtrace.c:93 is not modelled. The model requires a non-empty backtrace, as that assertion intends.
- `Strings.NtString.GetValue`: the C code writes a terminator at index `length` of the copy. The model returns the C string the buffer holds, so it does not capture that write landing past the copy's end when the buffer contains an earlier NUL.
- `TypeRegistry.Registry.Register` requires that the 32-bit id counter has not passed 0xFFFFFFFF, so the model does not capture the wrap-around back to NT_TYPE_NONE.
- `Strings.NtString.SetFixed` requires the value and buffer lengths to be below 2^64, so the size_t wrap-around beyond that is not modelled. Within that bound, the wrap-around of `value_length - length` is modelled.
- `TypeDefs.IsOf`: parents must be real types with smaller ids than their children (`Ordered`). `TypeDefs.HierarchyOrdered` derives this for a registry whose parents were registered first, and `TypeDefs.TypeDefinition.GetType` keeps it when the `extends` ids were handed out before. An `extends` array naming a later or unregistered id is not modelled. The implementation of `nt_type_isof` is not part of this model, so `IsOf` follows its documentation in type.h.
- `Strings.NtString.constructor`: `nt_string_new_full` passes the `size_t` length through NtValue's `int` number field (value.h:31, string.c:18-20 and 50). The model's length is unbounded, so it does not capture the narrowing for strings of 2^31 characters or more.
- `Lists.ConstructNode`: the `NT_IS_LIST` assertions on non-NULL neighbours (list.c:15, 22) are captured only by typing: a neighbour is always a list node in the model.
- `Lists.GetHead`, `Lists.GetTail`, `Lists.Length`, `Lists.Prepend`, `Lists.Append`: these require the node to belong to a well-linked chain. Cyclic or half-linked lists are not modelled.

## Findings

| source | as written | input that shows it | evidently intended | confidence | as-written member | corrected member |
|---|---|---|---|---|---|---|
| elemental/src/type.c:41-54 | register never sets the new head's `prev`, the oldest entry's `next` is NULL, and unregister dereferences both unconditionally and never resets `info->id` | register one type, then unregister it (test-type.c basic) | unlink safely, move the registry head, reset the id to NT_TYPE_NONE | not executed | TypeRegistry.UnregisterAsWritten | TypeRegistry.Registry.Unregister |
| elemental/src/signal.c:57-83 | attach never sets the new entry's `prev`; detach follows it and never moves `priv->entries` off the freed head | attach twice, then detach that handler (test-signal.c multiple) | remove the first matching entry and keep the list head valid | not executed | Signals.DetachAsWritten | Signals.Signal.Detach |
| shimmy/src/registry.c:22-29 | the new entry's `prev` is the old head and its `next` is NULL, while lookups walk `next` from the head | bind twice, then find the first binding | every binding stays reachable from the head | not executed | Shims.OnlyNewestReachableAsWritten | Shims.Registry.Bind |
| shimmy/src/registry.c:54-56 | unbinding the head sets the registry to NULL | bind A, bind B, unbind B | B's successor becomes the head | not executed | Shims.UnbindAsWritten | Shims.Registry.Unbind |
| elemental/src/list.c:88-91 | append returns the old tail of a non-empty list | `list = nt_list_append(list, v)` three times from NULL | return the head, as list.h:101 documents | not executed | Lists.Append | Lists.AppendReturningHead |
| elemental/src/list.c:22 | with assertions enabled, NT_IS_LIST is applied to `next` before it is tested for NULL | `nt_list_alloc(v)`, which passes no `next` | check the type only for a non-NULL `next`, as line 15 does for `prev` | not executed | Lists.ConstructAsWritten | Lists.Construct |
| elemental/src/string.c:117-127 | the stored length counts the terminator written by vsnprintf | `nt_string_dynamic_append(s, "c")`, then `nt_string_has_suffix(s, "c")` | the length of the formatted text; `Strings.NtString.DynamicAppend` and `Strings.NtString.DynamicPrepend` are built on the corrected printf | not executed | Strings.NtString.DynamicPrintfAsWritten | Strings.NtString.DynamicPrintf |
| elemental/src/string.c:64-66 | the terminator is written through the new value pointer even when it is NULL | `nt_string_set_dynamic(s, NULL)` | clear the string | not executed | Strings.SetDynamicAsWritten | Strings.NtString.SetDynamic |
| elemental/include/neutron/elemental/type.h:121-125 | `nt_type_isof(base, child)` asks whether the macro's type extends the instance's type | an instance of B, where B extends A, checked with NT_IS_A | `nt_type_isof(child, base)` | not executed | TypeDefs.IsInstanceAsWritten | TypeDefs.IsInstance |
