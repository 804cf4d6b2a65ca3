# udev-rs in Dafny

This project models the core of `udev-rs`, the Rust binding to libudev. The
binding wraps libudev's reference-counted objects in handles:

- the `udev` context;
- devices;
- enumerators with their device lists;
- monitors with their sockets and events;
- the hardware database.

The model covers how the binding drives those objects:

- which native calls each operation makes;
- how it reads their results (null pointers, return codes, C strings, `udev_list_entry` lists);
- the errors it reports;
- what happens to every native reference count.

libudev itself is an oracle, the class `Libudev.Library`. It keeps each object's
native reference count and observable state: a device's record, an enumerator's
filters and scan list, and a monitor's filters, receive flag and queue. Device
lookups resolve through a fixed table, and hardware-database queries through a
fixed map. Memory exhaustion is one flag fixed for the library's life: when it
is set every native allocation returns null, otherwise none does. Native return
codes come in as parameters. A ghost ledger records who
owns each reference: a handle (`holders`) or a bare pointer (`unwrapped`). The
library's invariant `Valid()` says the native count always equals the number of
owners. So holding a handle means the object is alive (`HolderKeepsAlive`), and
an operation that keeps `Valid()` can neither leak a reference nor free one too
many.
Where an operation may create objects along the way, as iterating does,
`Libudev.Grown` compares snapshots of the library before and after it: the
objects that existed keep their counts, states and owners, and every new
object other than the ones named is freed again. On a valid library this is
the same as the two-state predicates `Extends` and `FreedSince` together
(`Libudev.Library.GrownSince` and `SinceGrown`).

The files follow the repository's modules:

| file | models |
|---|---|
| `sys.dfy` | C strings and pointers (`strlen`), the 32-bit `c_int` with its wrapping negation, UTF-8 validation and `usize` parsing |
| `libudev.dfy` | the native library, as the oracle described above |
| `util.dfy` | `src/util.rs` |
| `errors.dfy` | `src/error.rs`; the old revision's `Error` (src/lib.rs:31-54) has the same behaviour, with the differences listed below |
| `list.dfy` | `src/list.rs` |
| `udev.dfy` | `src/udev.rs` |
| `device.dfy` | `src/device.rs` |
| `enumerator.dfy` | `src/enumerator.rs` |
| `monitor.dfy` | `src/monitor.rs` |
| `hwdb.dfy` | `src/hwdb.rs` |
| `legacy_util.dfy` | the `try_alloc!` macro and the private `util` module of the single-file revision `src/lib.rs` |
| `contexts.dfy` | the `Context` of the older revision `src/context.rs`. The `Context` of `src/lib.rs:96-124` has the same behaviour on the modelled paths, with the differences listed below, and both revisions share this one class |
| `legacy.dfy` | the handle types of `src/lib.rs`: its `Device`, `Enumerator`, `Devices`, `Properties`, `Attributes` and `Attribute` |

Where they touch state, the handles are classes. Each keeps its library and its
native pointer, and each method's `modifies` names the library it changes.
Constructors take over a reference (`FromRaw`/`Wrap`). `Clone` adds one
reference, owned by the copy. `Drop` gives exactly one back. Drop glue for a
field is written out: the current revision's devices and enumerators also drop
their `udev` field.

The revisions disagree, and each is modelled as written:

- **Return codes.** `src/util.rs` treats every return code `>= 0` as success;
  `src/lib.rs` treats only `0` as success (`LegacyUtil.ErrnoRevisions`).
- **`is_initialized`.** `src/device.rs` asks for `> 0`; `src/lib.rs` asks for
  `!= 0` (`Legacy.InitializedRevisions`).
- **Error types.** The current revision reports `std::io::Error`, `Util.IoError`
  here. The old ones report the binding's own `Error`:
  - a NUL byte is `InvalidInput`;
  - a null pointer is `NoMem`.
- **Property values.** Old-revision property values are read without a null
  check (`Legacy.Properties.Next`).

Two classes serve two revisions each, and the revisions' texts differ:

- **`Error`.** `src/error.rs:61-71` defines `new` and `from_errno` as free
  functions of the `error` module and builds results with struct literals.
  `src/lib.rs:44-54` defines them as associated functions of `Error`, and
  `from_errno` calls `Error::new`. Each maps every errno to the same kind.
- **`Context`.** `src/context.rs:17-21` implements `Handle::as_ptr`, and
  `src/lib.rs:96-124` has no such impl: there `Contexts.Context.AsPtr` models
  the field read `context.udev`, which src/lib.rs:142 performs.
- **`device_from_syspath`.** `src/lib.rs:120-123` builds
  `Device { _context: self, device: ptr }` itself. `src/context.rs:37` calls
  `::device::new(self, ptr)` instead, which is not part of this model.
  `Contexts.Context.DeviceFromSyspath` returns the pointer that both hand on,
  and `Legacy.Device.FromSyspath` wraps it as src/lib.rs does.

`Legacy.CollectRecords` proves that both revisions' device iterators yield the
same devices, in the same order.

## Model

| member | source | states |
|---|---|---|
| Util.PtrToOsStrUnchecked | src/util.rs:16-18 | the bytes before the first NUL, which contain no NUL |
| Util.PtrToOsStr | src/util.rs:8-14 | nothing exactly for the null pointer, else the unchecked read of the string |
| Util.OsStrToCString | src/util.rs:20-25 | success with the identical bytes iff there is no NUL; otherwise an OS error with code EINVAL |
| Util.ErrnoToResult | src/util.rs:27-32 | Ok iff the code is >= 0; a negative code is an OS error carrying its wrapping negation |
| Util.AsPtr | src/util.rs:20-25 | the pointer of a converted string points at those bytes followed by NUL |
| Util.CStringRoundTrip | src/util.rs:16-25 | converting bytes without NUL and reading the pointer back gives the same bytes |
| Util.OsStrRoundTrip | src/util.rs:16-25 | any C string read unchecked converts back, and re-reading gives the same bytes |
| Errors.New | src/error.rs:61-63 | the error built has exactly the given kind |
| Errors.Kind | src/error.rs:34-36 | the kind the error was built from: the error is exactly the one built from its kind |
| Errors.StrerrorErrno | src/error.rs:22-28 | the errno `strerror` looks up: ENOMEM for NoMem, EINVAL for InvalidInput, n for Io(n) |
| Errors.FromErrno | src/error.rs:65-71 | -ENOMEM is NoMem, -EINVAL is InvalidInput, any other code is Io(-code); the result reports the negated code back |
| Errors.FromErrnoInvertsStrerror | src/error.rs:22-71 | from_errno of the negated strerror errno rebuilds every canonical error |
| Errors.ErrnoRoundTrip | src/error.rs:65-71 | for every positive errno n, from_errno(-n) reports n and has the kind the match selects |
| List.Name | src/list.rs:49-51 | the entry's name, unchanged |
| List.Value | src/list.rs:54-56 | the value, or the empty string for an entry without one |
| List.Decode | src/list.rs:26-32 | a node's name read unchecked, and its value, absent exactly when the node's value pointer is null |
| List.DecodeAll | src/list.rs:22-33 | one decoded entry per node, in list order |
| List.Lookup | src/hwdb.rs:66-68 | the value of the first entry with the name, whatever precedes or follows it; nothing when no entry has it |
| List.NativeLookup | src/device.rs:433-445 | libudev's first-match lookup of a name, read through the null check, equals Lookup on the decoded list |
| List.EntryList.constructor | src/list.rs:13-17 | the cursor starts at the list's head |
| List.EntryList.Next | src/list.rs:22-34 | a null cursor gives nothing and stays null; otherwise the decoded node, and the cursor moves to its successor |
| List.Drain | src/list.rs:19-34 | iterating to the end yields exactly the remaining decoded nodes, and the cursor ends null |
| List.CollectEntries | src/list.rs:19-34 | a fresh iterator yields every node of the list, in order |
| List.TwoCursors | src/list.rs:13-34 | two iterators over one list are independent and yield the same entries |
| Udev.Udev.FromRaw | src/udev.rs:34 | the handle takes over the pointer's reference; counts unchanged |
| Udev.Udev.New | src/udev.rs:38-41 | null from `udev_new` is an allocation error with nothing changed; else a new context whose one reference the handle owns |
| Udev.Udev.Clone | src/udev.rs:22-26 | the same pointer, one more reference, owned by the copy |
| Udev.Udev.Drop | src/udev.rs:28-32 | exactly one reference given back, by this handle |
| Udev.Udev.IntoRaw | src/udev.rs:34 | the same pointer; its reference passes from the handle to the pointer |
| Udev.CloneDropCycles | src/udev.rs:50-63 | n clone-and-reassign rounds end with the same pointer and with the counts they started with |
| Udev.RoundTripRaw | src/udev.rs:66-75 | from_raw(into_raw(u)) has the same pointer and restores the count's owners |
| Device.DeviceTypeByte | src/device.rs:24-33 | Character is the byte `c`; Block is the byte `b` |
| Device.DeviceTypeOf | src/device.rs:24-33 | a byte is a device type exactly when it is `c` or `b` |
| Device.DeviceTypeRoundTrip | src/device.rs:24-33 | the byte encoding and its decoding invert each other |
| Device.SysnumOf | src/device.rs:409-420 | nothing for null or non-UTF-8 text; otherwise `usize` parsing of the text, bounded by the largest usize |
| Device.SysnumOfDecimal | src/device.rs:409-420 | every usize printed in decimal is read back exactly |
| Device.PropertyValueOf | src/device.rs:433-445 | nothing for a name with NUL; otherwise the first property of that name in the device's list |
| Device.AttributeValueOf | src/device.rs:448-460 | nothing for a name with NUL or a missing attribute; otherwise the attribute's bytes |
| Device.Device.FromRaw | src/device.rs:274-276 | the handle takes over the device reference and the context handle |
| Device.Device.Resolve | src/device.rs:105-113 | a lookup that resolves gives a device owning its one reference and keeping the context; one that does not is an allocation error, and the moved-in context is dropped |
| Device.Device.FromSyspathWithContext | src/device.rs:105-113 | EINVAL for a path with NUL; otherwise as Resolve by syspath; every failure drops the context |
| Device.Device.FromSyspath | src/device.rs:87-98 | a new context, then as FromSyspathWithContext; a failure leaves only freed objects behind |
| Device.Device.FromSubsystemSysname | src/device.rs:119-139 | EINVAL, with nothing changed, when either name has NUL; otherwise the device the pair resolves to, or an allocation error |
| Device.Device.FromSubsystemSysnameWithContext | src/device.rs:146-168 | the same checks with the given context, which every failure drops |
| Device.Device.FromDevnum | src/device.rs:248-252 | the lookup by the type's byte and the number; an allocation error when it does not resolve |
| Device.Device.FromDevnumWithContext | src/device.rs:258-268 | the same lookup with the given context, which a failure drops |
| Device.Device.Clone | src/device.rs:54-61 | one more device reference and one more context reference, both owned by the copy |
| Device.Device.Drop | src/device.rs:63-69 | one device reference and, by the `udev` field's drop, one context reference given back |
| Device.Device.IsInitialized | src/device.rs:286-288 | true exactly when the native answer is positive |
| Device.Device.Devnum | src/device.rs:291-296 | nothing exactly for 0; any other number unchanged |
| Device.Device.Syspath | src/device.rs:303-307 | the syspath's bytes up to its NUL |
| Device.Device.Sysnum | src/device.rs:409-420 | nothing for a null sysnum or non-UTF-8 text; otherwise exactly the usize parse of the text, at most the largest usize |
| Device.Device.PropertyValue | src/device.rs:433-445 | nothing for a name with NUL; otherwise Lookup of the name in the decoded property list |
| Device.Device.AttributeValue | src/device.rs:448-460 | nothing for a name with NUL or a missing attribute; otherwise the value read through the null check |
| Device.Device.SetAttributeValue | src/device.rs:463-478 | EINVAL when either string has NUL; otherwise Ok iff the return code is >= 0, with an error carrying the negated code |
| Device.Device.WrapParent | src/device.rs:327-337 | a parent handle taking a new reference to the parent and to the context |
| Device.Device.Parent | src/device.rs:327-337 | nothing, with nothing changed, exactly when libudev finds no parent; else a new handle over that parent |
| Device.Device.ParentWithSubsystem | src/device.rs:340-357 | EINVAL for a subsystem with NUL; else as Parent for the parent found |
| Device.Device.ParentWithSubsystemDevtype | src/device.rs:360-382 | EINVAL when either string has NUL; else as Parent for the parent found |
| Device.Device.Properties | src/device.rs:493-498 | a list iterator at the head of the device's property list |
| Device.Device.Attributes | src/device.rs:513-521 | an attribute iterator at the head of the device's attribute-name list |
| Device.Attributes.constructor | src/device.rs:513-521 | the iterator over the device and its name list |
| Device.Attributes.Next | src/device.rs:529-542 | the next name in list order, with its value looked up on the device at that step; nothing at the end |
| Device.CloneDropBalanced | src/device.rs:54-69 | a clone dropped again leaves counts and owners as they were |
| Enumerator.SyspathKey | src/enumerator.rs:192-198 | the lookup a list node asks for: by its name, read unchecked, as a syspath |
| Enumerator.Enumerator.FromRaw | src/enumerator.rs:36-41 | the handle takes over the pointer's reference and the context handle |
| Enumerator.Enumerator.WithUdev | src/enumerator.rs:52-58 | null from `udev_enumerate_new` is an allocation error that drops the moved-in context; else a new enumerator with no filters and an empty list |
| Enumerator.Enumerator.New | src/enumerator.rs:45-49 | a new context, then WithUdev; an allocation error exactly when memory is exhausted, and then the library is unchanged, because the first allocation already fails |
| Enumerator.Enumerator.Clone | src/enumerator.rs:21-28 | one more enumerator reference and one more context reference, owned by the copy |
| Enumerator.Enumerator.Drop | src/enumerator.rs:30-34 | one enumerator reference and one context reference given back |
| Enumerator.Enumerator.Register | src/enumerator.rs:61-65 | the filter is appended exactly when the return code is >= 0; on error nothing changes |
| Enumerator.Enumerator.MatchIsInitialized | src/enumerator.rs:61-65 | the is-initialized filter, registered as Register says |
| Enumerator.Enumerator.MatchSubsystem | src/enumerator.rs:68-74 | EINVAL and nothing changed for NUL; else the subsystem filter, registered as Register says |
| Enumerator.Enumerator.MatchAttribute | src/enumerator.rs:77-92 | EINVAL when either string has NUL; else the sysattr filter, registered as Register says |
| Enumerator.Enumerator.MatchSysname | src/enumerator.rs:95-101 | EINVAL for NUL; else the sysname filter |
| Enumerator.Enumerator.MatchProperty | src/enumerator.rs:104-119 | EINVAL when either string has NUL; else the property filter |
| Enumerator.Enumerator.MatchTag | src/enumerator.rs:122-128 | EINVAL for NUL; else the tag filter |
| Enumerator.Enumerator.MatchParent | src/enumerator.rs:131-135 | the parent filter on the parent's pointer, registered as Register says |
| Enumerator.Enumerator.NomatchSubsystem | src/enumerator.rs:138-144 | EINVAL for NUL; else the negative subsystem filter |
| Enumerator.Enumerator.NomatchAttribute | src/enumerator.rs:147-162 | EINVAL when either string has NUL; else the negative sysattr filter |
| Enumerator.Enumerator.AddSyspath | src/enumerator.rs:165-171 | EINVAL for NUL; else the syspath added |
| Enumerator.Enumerator.ScanDevices | src/enumerator.rs:176-183 | an error iff the code is negative, with nothing changed; else a cursor at the head of the list the scan produced |
| Enumerator.Found | src/enumerator.rs:189-207 | at most one device per node (the reference definition of what the iterator yields) |
| Enumerator.FoundSkips | src/enumerator.rs:192-203 | nodes that do not resolve add nothing to what is yielded |
| Enumerator.FoundHead | src/enumerator.rs:192-201 | a node that resolves yields its device first |
| Enumerator.Hits | src/enumerator.rs:189-207 | the positions of list nodes that resolve, each one in range and resolving |
| Enumerator.HitsIncreasing | src/enumerator.rs:189-207 | those positions are strictly increasing, i.e. list order |
| Enumerator.HitsComplete | src/enumerator.rs:189-207 | every resolving position is among them |
| Enumerator.FoundInOrder | src/enumerator.rs:189-207 | the k-th yielded device is the device of the k-th resolving node: a subsequence of the scan, in order |
| Enumerator.Devices.constructor | src/enumerator.rs:178-181 | a cursor at the list's head |
| Enumerator.Devices.Step | src/enumerator.rs:193-203 | one loop turn: the cursor advances, and a device results exactly when the node's syspath resolves; the library grows from where `next` began keeping at most that device and its context |
| Enumerator.Devices.Next | src/enumerator.rs:192-207 | skips the nodes that do not resolve; yields the first that does, made with its own context, and the cursor rests after it; nothing only at the end. In both cases every object that existed keeps its count, state and owners (`Grown`), and everything made for skipped nodes is freed again |
| Enumerator.CollectStep | src/enumerator.rs:192-207 | one turn of collecting keeps the record sequence on track for Found |
| Enumerator.CollectRecords | src/enumerator.rs:189-207 | iterating to the end yields exactly Found of the rest of the list |
| Enumerator.CollectTurn | src/enumerator.rs:192-207 | one `next` call keeps the collected records plus Found of the rest equal to the total |
| Monitor.Ascii | src/monitor.rs:189-200 | the bytes of an ASCII literal, one per character |
| Monitor.Default | src/monitor.rs:183-187 | the default event type is Unknown |
| Monitor.ActionKey | src/monitor.rs:219 | the `ACTION` property name: six upper-case ASCII letters, so no printed event type can equal it |
| Monitor.Classify | src/monitor.rs:218-232 | no action is Unknown; a known type results only from exactly its printed name |
| Monitor.Display | src/monitor.rs:189-200 | each variant prints as its lower-case name: a non-empty run of the letters a to z |
| Monitor.DisplayIsUtf8 | src/monitor.rs:189-200 | every printed name is UTF-8 |
| Monitor.DisplayInjective | src/monitor.rs:189-200 | distinct variants print to distinct names |
| Monitor.ClassifyDisplay | src/monitor.rs:189-232 | classifying any variant's printed name gives the variant back |
| Monitor.Builder.FromRaw | src/monitor.rs:33 | the builder takes over the pointer's reference |
| Monitor.Builder.New | src/monitor.rs:37-47 | null is an allocation error with nothing changed; else a new monitor with no filters, not receiving |
| Monitor.Builder.Drop | src/monitor.rs:25-31 | exactly one monitor reference given back |
| Monitor.Builder.Apply | src/monitor.rs:53-60 | `.and(Ok(self))`: the same builder with the new filters iff the code is >= 0; otherwise the error, and the builder is dropped |
| Monitor.Builder.MatchSubsystem | src/monitor.rs:50-61 | EINVAL or a negative code is an error that drops the builder; else the same builder with the subsystem filter and no devtype |
| Monitor.Builder.MatchSubsystemDevtype | src/monitor.rs:64-80 | the same, both strings checked, with the devtype in the filter |
| Monitor.Builder.MatchTag | src/monitor.rs:83-90 | the same for the tag filter |
| Monitor.Builder.ClearFilters | src/monitor.rs:93-96 | the same builder with no filters at all, or the error and the builder dropped |
| Monitor.Builder.Listen | src/monitor.rs:101-105 | an error that drops the builder iff the code is negative; else a socket over the builder, with the monitor receiving |
| Monitor.Socket.constructor | src/monitor.rs:104 | a socket holding the builder |
| Monitor.Socket.Clone | src/monitor.rs:120-126 | a new builder over the same monitor with one more reference |
| Monitor.Socket.IntoRaw | src/monitor.rs:133-135 | as written: the pointer is returned, and the builder's drop gives its reference back |
| Monitor.Socket.IntoRawOwned | src/monitor.rs:133-135 | as intended: the reference passes to the returned pointer, and the count is unchanged |
| Monitor.Socket.Next | src/monitor.rs:149-158 | nothing, with nothing changed, when the queue is empty (or allocation fails); else an event for the first queued device, which is taken off the queue. The new library state is stated whole: two new objects, the device and its context, each with one reference owned by its handle, and no other change |
| Monitor.Adopt | src/monitor.rs:155-156 | `Device::from_raw` takes over the received device's reference and its context's, and the event wraps the new device; counts and objects unchanged |
| Monitor.Event.constructor | src/monitor.rs:156 | an event around the received device |
| Monitor.Event.EventType | src/monitor.rs:218-232 | the classification of the first `ACTION` property of the device |
| Monitor.Event.Device | src/monitor.rs:240-242 | a clone of the event's device, with the same record: one more device reference and one more context reference, owned by the copy, and nothing else changed |
| Monitor.IntoRawDangles | src/monitor.rs:133-135 | a socket owning its monitor's only reference hands out a pointer whose count is zero |
| Monitor.IntoRawOwnedKeepsAlive | src/monitor.rs:133-135 | with the corrected hand-over, the pointer keeps the monitor alive and owns its one reference |
| Monitor.ReceiveDelivered | src/monitor.rs:101-158 | a listening socket receives the delivered device, as an event, and then nothing more |
| Hwdb.Hwdb.FromRaw | src/hwdb.rs:35 | the handle takes over the pointer's reference |
| Hwdb.Hwdb.New | src/hwdb.rs:39-46 | the context is only borrowed; null is an allocation error with nothing changed; else a new database handle |
| Hwdb.Hwdb.Clone | src/hwdb.rs:23-27 | one more reference, owned by the copy |
| Hwdb.Hwdb.Drop | src/hwdb.rs:29-33 | exactly one reference given back |
| Hwdb.Hwdb.Query | src/hwdb.rs:50-63 | a list iterator at the head of the list the database holds for the modalias |
| Hwdb.Hwdb.QueryOne | src/hwdb.rs:66-68 | nothing when no entry has the name; otherwise the value of the first entry that does |
| LegacyUtil.TryAlloc | src/lib.rs:18-28 | NoMem exactly for null; any other pointer passes unchanged |
| LegacyUtil.ErrnoToResult | src/lib.rs:521-526 | Ok only for 0; any other code is from_errno of it |
| LegacyUtil.ErrnoRevisions | src/lib.rs:521-526 | this revision and src/util.rs disagree exactly on positive codes, and report the same errno on negative ones |
| LegacyUtil.OsStrToCString | src/lib.rs:514-519 | success with the same bytes iff there is no NUL; otherwise InvalidInput |
| LegacyUtil.OsStrRevisions | src/lib.rs:514-519 | both revisions accept the same strings unchanged; this one's InvalidInput is from_errno of the other's EINVAL |
| LegacyUtil.PtrToOsStrUnchecked | src/lib.rs:510-512 | strlen bytes from the pointer |
| LegacyUtil.PtrToOsStr | src/lib.rs:501-508 | nothing exactly for null, else the unchecked read, which has no NUL |
| LegacyUtil.PtrRevisions | src/lib.rs:501-512 | it reads every pointer as src/util.rs does |
| Contexts.Context.Wrap | src/context.rs:25-27 | the handle takes over the pointer's reference |
| Contexts.Context.New | src/context.rs:24-28 | null from `udev_new` is NoMem with nothing changed; else a new context owned by the handle |
| Contexts.Context.Drop | src/context.rs:11-15 | exactly one `udev_unref`, of this handle's reference |
| Contexts.Context.AsPtr | src/context.rs:17-21 | the stored pointer, a live context this handle holds |
| Contexts.Context.DeviceFromSyspath | src/context.rs:30-38 | InvalidInput before any native call for a path with NUL; NoMem, with nothing changed, when the lookup gives null; else a new device's only reference |
| Legacy.Initialized | src/lib.rs:286-288 | true exactly for a nonzero native answer |
| Legacy.InitializedRevisions | src/lib.rs:286-288 | this revision and src/device.rs differ exactly on negative answers |
| Legacy.Device.Wrap | src/lib.rs:120-123 | the device handle takes over the pointer's reference and borrows the context |
| Legacy.Device.FromSyspath | src/lib.rs:113-124 | the context's errors, with nothing changed; else a new device whose one reference the handle owns, the context count untouched |
| Legacy.Device.Drop | src/lib.rs:278-283 | one device reference given back; the borrowed context is untouched |
| Legacy.Device.IsInitialized | src/lib.rs:286-288 | true exactly when the native answer is nonzero |
| Legacy.Device.AttributeValue | src/lib.rs:360-369 | nothing for a name with NUL or a missing attribute; otherwise the value read through the null check |
| Legacy.AttributeRevisions | src/lib.rs:360-369 | both revisions read every attribute the same way |
| Legacy.Device.Properties | src/lib.rs:380-385 | a cursor at the head of the property list |
| Legacy.Device.Attributes | src/lib.rs:387-392 | a cursor at the head of the attribute-name list |
| Legacy.Enumerator.Wrap | src/lib.rs:144-147 | the handle takes over the pointer's reference and borrows the context |
| Legacy.Enumerator.New | src/lib.rs:141-148 | NoMem, with nothing changed, for null; else a new enumerator with no filters and an empty list; the context count untouched |
| Legacy.Enumerator.Drop | src/lib.rs:133-138 | one enumerator reference given back, and nothing else |
| Legacy.Enumerator.Register | src/lib.rs:150-154 | the filter is appended exactly when the return code is 0; on error nothing changes |
| Legacy.Enumerator.MatchIsInitialized | src/lib.rs:150-154 | the is-initialized filter, registered as Register says |
| Legacy.Enumerator.MatchSubsystem | src/lib.rs:156-162 | InvalidInput and nothing changed for NUL; else the subsystem filter, registered as Register says |
| Legacy.Enumerator.MatchAttribute | src/lib.rs:164-171 | InvalidInput when either string has NUL; else the sysattr filter |
| Legacy.Enumerator.MatchSysname | src/lib.rs:173-179 | InvalidInput for NUL; else the sysname filter |
| Legacy.Enumerator.MatchProperty | src/lib.rs:181-188 | InvalidInput when either string has NUL; else the property filter |
| Legacy.Enumerator.MatchTag | src/lib.rs:190-196 | InvalidInput for NUL; else the tag filter |
| Legacy.Enumerator.MatchParent | src/lib.rs:198-202 | the parent filter on the parent's pointer |
| Legacy.Enumerator.NomatchSubsystem | src/lib.rs:204-210 | InvalidInput for NUL; else the negative subsystem filter |
| Legacy.Enumerator.NomatchAttribute | src/lib.rs:212-219 | InvalidInput when either string has NUL; else the negative sysattr filter |
| Legacy.Enumerator.AddSyspath | src/lib.rs:221-227 | InvalidInput for NUL; else the syspath added |
| Legacy.Enumerator.ScanDevices | src/lib.rs:229-238 | an error, from_errno of the code, iff the code is nonzero, with nothing changed; else a cursor at the head of the scanned list |
| Legacy.Devices.constructor | src/lib.rs:234-237 | a cursor at the list's head, over the enumerator |
| Legacy.Devices.Step | src/lib.rs:251-261 | one loop turn: the cursor advances; a device results exactly when the syspath resolves, and otherwise nothing changes |
| Legacy.Devices.Next | src/lib.rs:250-265 | skips unresolvable syspaths with the library unchanged; yields the first that resolves, with the cursor after it; every call on a non-empty rest advances the cursor |
| Legacy.NextRecord | src/lib.rs:250-265 | `next` seen through the record of the device it yields |
| Legacy.CollectRecords | src/lib.rs:247-265 | iterating to the end yields exactly what the current revision's Found names, in list order |
| Legacy.CollectTurn | src/lib.rs:250-265 | one `next` call keeps the collected records on track for Found |
| Legacy.PropertyOf | src/lib.rs:409-417 | a node's name and value, each read as a C string |
| Legacy.PropertyRevisions | src/lib.rs:404-419 | where a node has a value, this revision's property is the current list iterator's entry |
| Legacy.Properties.constructor | src/lib.rs:381-384 | a cursor at the head of the list |
| Legacy.Properties.Next | src/lib.rs:404-419 | nothing at the null cursor, which stays; else the node's property, and the cursor moves on |
| Legacy.CollectProperties | src/lib.rs:401-419 | iterating to the end yields one property per remaining node, in list order |
| Legacy.Value | src/lib.rs:483-485 | the attribute's value as the device has it when asked, the same as src/device.rs reads it |
| Legacy.Attributes.constructor | src/lib.rs:388-391 | a cursor at the head of the attribute-name list |
| Legacy.Attributes.Next | src/lib.rs:451-470 | nothing at the null cursor; else an attribute naming the node, over the same device, and the cursor moves on |

## Left out

- The current revision's `try_alloc!`, `as_ffi!` and `as_ffi_with_context!` macros: the files invoke them (src/udev.rs:34,39, src/hwdb.rs:35,44, src/monitor.rs:33,42, src/device.rs:71,108,130,159,263, src/enumerator.rs:36,53) but do not define them. The model assumes that a null pointer from a native constructor is an allocation error, `Util.IoError.AllocFailed`, distinct from every OS error code; that `from_raw` takes over the reference the pointer carries (`Udev.Udev.FromRaw`, `Hwdb.Hwdb.FromRaw`, `Monitor.Builder.FromRaw`, `Device.Device.FromRaw`, `Enumerator.Enumerator.FromRaw`); and that `into_raw` hands that reference out (`Udev.Udev.IntoRaw`), as the round-trip test src/udev.rs:66-75 requires. The finding on `Socket::into_raw` rests on the same reading of `into_raw`.
- Libudev internals: sysfs reads, filter matching, scanning order, the netlink socket and the hardware database's contents. They are represented by the oracle's table, its map, the return codes and lists passed in as parameters, and the parent lookups' results (`found`), required to be live device objects (libudev creates them lazily).
- Allocation failure that begins part-way through an operation. `Libudev.Library.outOfMemory` is one constant that makes every allocation fail or none, so an operation whose first allocation succeeds cannot see a later one fail. Each native constructor's null result is still modelled on its own (`Enumerator.Enumerator.WithUdev`, `Device.Device.Resolve`, `Monitor.Socket.Next`).
- Enumerator.Enumerator.New: in src/enumerator.rs:45-58, `Udev::new()` can succeed and `udev_enumerate_new` then return null. The source then reports the error and drops the new `udev`, leaving a freed context behind. Under the constant `outOfMemory` flag this path cannot happen, so the Err clause says the library is unchanged. The model does not promise "only freed objects left behind" for that partial failure. `WithUdev` models the second allocation's failure, with the context dropped.
- Return codes of `udev_enumerate_add_*` and `udev_enumerate_scan_devices`: libudev returns 0 or a negative errno from these. The model passes the code in unconstrained and has each revision decide the native effect by its own reading (`>= 0` in src/util.rs, `== 0` in src/lib.rs). So for a positive code, which libudev does not return, the current model registers the filter and the old model changes nothing; the two models drive the same library alike on every code libudev produces.
- The `udev_monitor_new_from_netlink` workaround (src/monitor.rs:38-44); the model allocates a monitor and leaves out the netlink handshake.
- The sysfs effect of `set_attribute_value`. Only its argument checks and how it reads the return code are modelled.
- `strerror` text, `Display`/`Debug` for `Error` and for `Device`, and the `From<Error> for io::Error` conversion. These are libc string lookups and formatting. `StrerrorErrno` models only the errno selection.
- The mio `Evented` impl (src/monitor.rs:245-270), `as_raw_fd` (src/monitor.rs:139-144) and `Event::sequence_number`. They are OS file-descriptor registration, or a plain native getter with nothing to check.
- The getters `devpath`, `devnode`, `subsystem`, `sysname`, `devtype`, `driver` and `action`, in both revisions, and the old revision's unmodelled getters (`devnum`, `syspath`, `sysnum`, `property_value`, `set_attribute_value`). Each reads one field through `ptr_to_os_str(_unchecked)` exactly as the modelled getters do.
- `Property::name`/`value` of src/lib.rs are field reads of the `Property` datatype.
- Lifetimes and `PhantomData`: borrowed `&OsStr` views are copied byte sequences here.
- The tests whose results depend on the host (the hwdb query expecting two entries, enumerating hidraw devices) and the example programs.
- `::device::new` of the revision that has src/context.rs is not part of this model. `Contexts.Context.DeviceFromSyspath` therefore returns the new device's pointer, owning its reference; the lib.rs revision wraps that pointer in `Legacy.Device.FromSyspath`.
- That revision's `util::os_str_to_cstring` and `try_alloc!` are not in view. `contexts.dfy` uses the ones of src/lib.rs, which belong to the same era and the same `Error`.
- Hwdb.Hwdb.Query: the source unwraps the C-string conversion and so panics on a modalias with NUL. The model requires a NUL-free modalias instead of modelling the panic.
- Hwdb.Hwdb.QueryOne: `.find(..).map(|e| e.value)` returns the entry's `Option` value, nested inside `find`'s `Option`. The model flattens the two: a matching entry without a value reads as nothing. As for Query, a modalias with NUL is excluded by a requires.
- Monitor.Socket.Next: the received device's context handle is modelled as a context reference returned with the device, which the new `Udev` takes over. How libudev links a device to its context is not modelled.
- Legacy.Properties.Next: the source reads the value pointer without a null check. A null value there is undefined behaviour, so the model requires the node under the cursor to have a value.
- Integer widths: `c_int` is bounded to 32 bits and negated with wrap-around, which is Rust's release-build behaviour (a debug build panics on negating `c_int::MIN`, as in `Errors.FromErrno` and `Util.ErrnoToResult`); `dev_t` and `usize` are bounded naturals.

## Findings

| source | as written | input that shows it | evidently intended | confidence | as-written member | corrected member |
|---|---|---|---|---|---|---|
| src/monitor.rs:133-135 | `into_raw(self)` returns `self.inner.monitor` and then drops `self`, so the `Builder` inside unrefs the monitor | a socket holding the only reference to its monitor: after `into_raw` the count is 0 and the returned pointer dangles | the reference passes to the caller, as `into_raw`/`from_raw` round trips of the other handles (src/udev.rs:66-75) expect | not executed | Monitor.Socket.IntoRaw, shown by Monitor.IntoRawDangles | Monitor.Socket.IntoRawOwned, shown by Monitor.IntoRawOwnedKeepsAlive |
