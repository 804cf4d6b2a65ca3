/**
 * The handle types of the single-file revision in src/lib.rs. Unlike the
 * current revision, its devices and enumerators do not own a context
 * reference: they borrow the `Context` (src/context.rs, which lib.rs
 * repeats), so dropping them unrefs their own object only. Native return
 * codes are read by that revision's `errno_to_result` (only 0 is success),
 * failures are the binding's `Error`, and list values are read unchecked.
 */
module Legacy {
  import opened Sys
  import opened Errors
  import opened Libudev
  import LegacyUtil
  import Contexts
  import DeviceRs = Device
  import EnumeratorRs = Enumerator
  import List

  /** `is_initialized` of this revision: any nonzero native answer. */
  function Initialized(answer: CInt): (b: bool)
    ensures b <==> answer != 0
  {
    answer != 0
  }

  /** The two revisions part only on negative answers: src/device.rs asks for a positive one. */
  lemma InitializedRevisions(answer: CInt)
    ensures Initialized(answer) != (answer > 0) <==> answer < 0
  {
  }

  class Device {
    const context: Contexts.Context
    const lib: Library
    const raw: Id

    /** A live device handle over the live context it borrows. */
    ghost predicate Valid()
      reads this, lib, context
    {
      && context.lib == lib && context.Valid()
      && raw in lib.objects && lib.objects[raw].Device? && lib.Holds(this, raw)
    }

    /** What the native getters of this device return. */
    function Record(): DeviceRecord
      reads this, lib
      requires raw in lib.objects && lib.objects[raw].Device?
    {
      lib.objects[raw].record
    }

    /** `Device { _context: self, device: ptr }`: the handle takes over the pointer's reference. */
    constructor Wrap(context: Contexts.Context, p: Id)
      requires context.Valid()
      requires p in context.lib.objects && context.lib.objects[p].Device? && context.lib.unwrapped[p] > 0
      modifies context.lib
      ensures Valid() && this.context == context && lib == context.lib && raw == p
      ensures lib.holders == With(old(context.lib.holders), p, this)
      ensures lib.unwrapped == Dec(old(context.lib.unwrapped), p)
      ensures lib.refs == old(context.lib.refs) && lib.objects == old(context.lib.objects)
    {
      this.context := context;
      lib := context.lib;
      raw := p;
      new;
      lib.Adopt(p, this);
    }

    /**
     * `Context::device_from_syspath`: the errors of the context's lookup, or
     * a device owning the only reference to the object found; the context's
     * count is untouched.
     */
    static method FromSyspath(context: Contexts.Context, syspath: Bytes) returns (r: Result<Device, Error>)
      requires context.Valid()
      modifies context.lib
      ensures context.Valid()
      ensures r.Err? <==> NUL in syspath || !context.lib.Resolves(BySyspath(syspath))
      ensures r.Err? ==> context.lib.Unchanged()
      ensures r.Err? ==> Kind(r.error) == (if NUL in syspath then InvalidInput else NoMem)
      ensures r.Ok? ==> var d := r.value;
                        && fresh(d) && d.Valid() && d.context == context && d.lib == context.lib
                        && context.lib.Created(d.raw, d, Libudev.Device(context.lib.table[BySyspath(syspath)]))
    {
      var p := context.DeviceFromSyspath(syspath);
      if p.Err? {
        return Err(p.error);
      }
      var d := new Device.Wrap(context, p.value);
      r := Ok(d);
    }

    /** `drop`: one `udev_device_unref`; the borrowed context is left alone. */
    method Drop()
      requires Valid()
      modifies lib
      ensures lib.Valid() && !lib.Holds(this, raw) && lib.Dropped(raw, this)
    {
      lib.UnrefHeld(raw, this);
    }

    /** `is_initialized`: the native answer read by `Initialized`. */
    function IsInitialized(): (b: bool)
      reads this, lib, context
      requires Valid()
      ensures b <==> Record().initialized != 0
    {
      Initialized(Record().initialized)
    }

    /**
     * `attribute_value`: nothing for a name with NUL or an attribute the
     * device lacks, else the attribute's bytes; read from the device's
     * state at the time of the call.
     */
    function AttributeValue(name: Bytes): (v: Option<Bytes>)
      reads this, lib, context
      requires Valid()
      ensures NUL in name ==> v.None?
      ensures NUL !in name && name !in Record().sysattrs ==> v.None?
      ensures NUL !in name && name in Record().sysattrs ==> v == LegacyUtil.PtrToOsStr(Record().sysattrs[name])
    {
      match LegacyUtil.OsStrToCString(name)
      case Err(_) => None
      case Ok(attr) => LegacyUtil.PtrToOsStr(GetSysattrValue(Record(), attr))
    }

    /** `properties`: a cursor at the head of the device's property list. */
    method Properties() returns (ps: Properties)
      requires Valid()
      ensures fresh(ps) && ps.Valid() && ps.device == this && ps.nodes == Record().properties && ps.pos == 0
    {
      ps := new Properties(this, Record().properties);
    }

    /** `attributes`: a cursor at the head of the device's attribute list. */
    method Attributes() returns (as_: Attributes)
      requires Valid()
      ensures fresh(as_) && as_.Valid() && as_.device == this && as_.nodes == Record().sysattrList && as_.pos == 0
    {
      as_ := new Attributes(this, Record().sysattrList);
    }
  }

  /** Both revisions read an attribute the same way. */
  lemma AttributeRevisions(d: Device, name: Bytes)
    requires d.Valid()
    ensures d.AttributeValue(name) == DeviceRs.AttributeValueOf(d.Record(), name)
  {
    if NUL !in name && name in d.Record().sysattrs {
      LegacyUtil.PtrRevisions(d.Record().sysattrs[name]);
    }
  }

  class Enumerator {
    const context: Contexts.Context
    const lib: Library
    const raw: Id

    /** A live enumerator handle over the live context it borrows. */
    ghost predicate Valid()
      reads this, lib, context
    {
      && context.lib == lib && context.Valid()
      && raw in lib.objects && lib.objects[raw].Enumerate? && lib.Holds(this, raw)
    }

    /** The filters registered so far, in the order they were added. */
    function Filters(): seq<EnumFilter>
      reads this, lib
      requires raw in lib.objects && lib.objects[raw].Enumerate?
    {
      lib.objects[raw].matches
    }

    /** The device list the last scan produced. */
    function Scanned(): seq<ListNode>
      reads this, lib
      requires raw in lib.objects && lib.objects[raw].Enumerate?
    {
      lib.objects[raw].list
    }

    /** Filter `f` was registered, and nothing else in the library changed. */
    twostate predicate Added(f: EnumFilter)
      reads this, lib
      requires old(raw in lib.objects && lib.objects[raw].Enumerate?)
    {
      && lib.objects == old(lib.objects)[raw := Enumerate(old(Filters()) + [f], old(Scanned()))]
      && lib.refs == old(lib.refs) && lib.holders == old(lib.holders) && lib.unwrapped == old(lib.unwrapped)
    }

    constructor Wrap(context: Contexts.Context, p: Id)
      requires context.Valid()
      requires p in context.lib.objects && context.lib.objects[p].Enumerate? && context.lib.unwrapped[p] > 0
      modifies context.lib
      ensures Valid() && this.context == context && lib == context.lib && raw == p
      ensures lib.holders == With(old(context.lib.holders), p, this)
      ensures lib.unwrapped == Dec(old(context.lib.unwrapped), p)
      ensures lib.refs == old(context.lib.refs) && lib.objects == old(context.lib.objects)
    {
      this.context := context;
      lib := context.lib;
      raw := p;
      new;
      lib.Adopt(p, this);
    }

    /** `new`: null from `udev_enumerate_new` is `NoMem`; the context is borrowed, its count untouched. */
    static method New(context: Contexts.Context) returns (r: Result<Enumerator, Error>)
      requires context.Valid()
      modifies context.lib
      ensures context.Valid()
      ensures r.Err? <==> context.lib.outOfMemory
      ensures r.Err? ==> Kind(r.error) == NoMem && context.lib.Unchanged()
      ensures r.Ok? ==> var e := r.value;
                        && fresh(e) && e.Valid() && e.context == context && e.Filters() == [] && e.Scanned() == []
                        && context.lib.Created(e.raw, e, Enumerate([], []))
    {
      var lib := context.lib;
      var p := lib.Alloc(Enumerate([], []));
      var q := LegacyUtil.TryAlloc(p);
      if q.Err? {
        return Err(q.error);
      }
      var e := new Enumerator.Wrap(context, q.value);
      r := Ok(e);
    }

    /** `drop`: one `udev_enumerate_unref`; the borrowed context is left alone. */
    method Drop()
      requires Valid()
      modifies lib
      ensures lib.Valid() && !lib.Holds(this, raw) && lib.Dropped(raw, this)
    {
      lib.UnrefHeld(raw, this);
    }

    /**
     * One `udev_enumerate_add_*` call with return code `rc`, read by this
     * revision's `errno_to_result`: registered exactly when `rc` is 0.
     */
    method Register(f: EnumFilter, rc: CInt) returns (r: Result<Unit, Error>)
      requires Valid()
      modifies lib
      ensures Valid()
      ensures r == LegacyUtil.ErrnoToResult(rc)
      ensures r.Ok? ==> Added(f)
      ensures r.Err? ==> lib.Unchanged()
    {
      r := LegacyUtil.ErrnoToResult(rc);
      if r.Ok? {
        lib.Update(raw, Enumerate(Filters() + [f], Scanned()));
      }
    }

    /** `match_is_initialized`. */
    method MatchIsInitialized(rc: CInt) returns (r: Result<Unit, Error>)
      requires Valid()
      modifies lib
      ensures Valid()
      ensures r == LegacyUtil.ErrnoToResult(rc)
      ensures r.Ok? ==> Added(EnumFilter.MatchIsInitialized)
      ensures r.Err? ==> lib.Unchanged()
    {
      r := Register(EnumFilter.MatchIsInitialized, rc);
    }

    /** `match_subsystem`: `InvalidInput` and no native call for a name with NUL. */
    method MatchSubsystem(subsystem: Bytes, rc: CInt) returns (r: Result<Unit, Error>)
      requires Valid()
      modifies lib
      ensures Valid()
      ensures NUL in subsystem ==> r == Err(Errors.New(InvalidInput))
      ensures NUL !in subsystem ==> r == LegacyUtil.ErrnoToResult(rc)
      ensures r.Ok? ==> Added(EnumFilter.MatchSubsystem(subsystem))
      ensures r.Err? ==> lib.Unchanged()
    {
      var s := LegacyUtil.OsStrToCString(subsystem);
      if s.Err? {
        return Err(s.error);
      }
      r := Register(EnumFilter.MatchSubsystem(s.value), rc);
    }

    /** `match_attribute`: both strings are checked before the native call. */
    method MatchAttribute(attribute: Bytes, value: Bytes, rc: CInt) returns (r: Result<Unit, Error>)
      requires Valid()
      modifies lib
      ensures Valid()
      ensures NUL in attribute || NUL in value ==> r == Err(Errors.New(InvalidInput))
      ensures NUL !in attribute && NUL !in value ==> r == LegacyUtil.ErrnoToResult(rc)
      ensures r.Ok? ==> Added(MatchSysattr(attribute, value))
      ensures r.Err? ==> lib.Unchanged()
    {
      var a := LegacyUtil.OsStrToCString(attribute);
      if a.Err? {
        return Err(a.error);
      }
      var v := LegacyUtil.OsStrToCString(value);
      if v.Err? {
        return Err(v.error);
      }
      r := Register(MatchSysattr(a.value, v.value), rc);
    }

    /** `match_sysname`. */
    method MatchSysname(sysname: Bytes, rc: CInt) returns (r: Result<Unit, Error>)
      requires Valid()
      modifies lib
      ensures Valid()
      ensures NUL in sysname ==> r == Err(Errors.New(InvalidInput))
      ensures NUL !in sysname ==> r == LegacyUtil.ErrnoToResult(rc)
      ensures r.Ok? ==> Added(EnumFilter.MatchSysname(sysname))
      ensures r.Err? ==> lib.Unchanged()
    {
      var s := LegacyUtil.OsStrToCString(sysname);
      if s.Err? {
        return Err(s.error);
      }
      r := Register(EnumFilter.MatchSysname(s.value), rc);
    }

    /** `match_property`: both strings are checked before the native call. */
    method MatchProperty(property: Bytes, value: Bytes, rc: CInt) returns (r: Result<Unit, Error>)
      requires Valid()
      modifies lib
      ensures Valid()
      ensures NUL in property || NUL in value ==> r == Err(Errors.New(InvalidInput))
      ensures NUL !in property && NUL !in value ==> r == LegacyUtil.ErrnoToResult(rc)
      ensures r.Ok? ==> Added(EnumFilter.MatchProperty(property, value))
      ensures r.Err? ==> lib.Unchanged()
    {
      var p := LegacyUtil.OsStrToCString(property);
      if p.Err? {
        return Err(p.error);
      }
      var v := LegacyUtil.OsStrToCString(value);
      if v.Err? {
        return Err(v.error);
      }
      r := Register(EnumFilter.MatchProperty(p.value, v.value), rc);
    }

    /** `match_tag`. */
    method MatchTag(tag: Bytes, rc: CInt) returns (r: Result<Unit, Error>)
      requires Valid()
      modifies lib
      ensures Valid()
      ensures NUL in tag ==> r == Err(Errors.New(InvalidInput))
      ensures NUL !in tag ==> r == LegacyUtil.ErrnoToResult(rc)
      ensures r.Ok? ==> Added(EnumFilter.MatchTag(tag))
      ensures r.Err? ==> lib.Unchanged()
    {
      var t := LegacyUtil.OsStrToCString(tag);
      if t.Err? {
        return Err(t.error);
      }
      r := Register(EnumFilter.MatchTag(t.value), rc);
    }

    /** `match_parent`: the parent's device pointer, no string to check. */
    method MatchParent(parent: Device, rc: CInt) returns (r: Result<Unit, Error>)
      requires Valid() && parent.Valid() && parent.lib == lib
      modifies lib
      ensures Valid()
      ensures r == LegacyUtil.ErrnoToResult(rc)
      ensures r.Ok? ==> Added(EnumFilter.MatchParent(parent.raw))
      ensures r.Err? ==> lib.Unchanged()
    {
      r := Register(EnumFilter.MatchParent(parent.raw), rc);
    }

    /** `nomatch_subsystem`. */
    method NomatchSubsystem(subsystem: Bytes, rc: CInt) returns (r: Result<Unit, Error>)
      requires Valid()
      modifies lib
      ensures Valid()
      ensures NUL in subsystem ==> r == Err(Errors.New(InvalidInput))
      ensures NUL !in subsystem ==> r == LegacyUtil.ErrnoToResult(rc)
      ensures r.Ok? ==> Added(EnumFilter.NomatchSubsystem(subsystem))
      ensures r.Err? ==> lib.Unchanged()
    {
      var s := LegacyUtil.OsStrToCString(subsystem);
      if s.Err? {
        return Err(s.error);
      }
      r := Register(EnumFilter.NomatchSubsystem(s.value), rc);
    }

    /** `nomatch_attribute`: both strings are checked before the native call. */
    method NomatchAttribute(attribute: Bytes, value: Bytes, rc: CInt) returns (r: Result<Unit, Error>)
      requires Valid()
      modifies lib
      ensures Valid()
      ensures NUL in attribute || NUL in value ==> r == Err(Errors.New(InvalidInput))
      ensures NUL !in attribute && NUL !in value ==> r == LegacyUtil.ErrnoToResult(rc)
      ensures r.Ok? ==> Added(NomatchSysattr(attribute, value))
      ensures r.Err? ==> lib.Unchanged()
    {
      var a := LegacyUtil.OsStrToCString(attribute);
      if a.Err? {
        return Err(a.error);
      }
      var v := LegacyUtil.OsStrToCString(value);
      if v.Err? {
        return Err(v.error);
      }
      r := Register(NomatchSysattr(a.value, v.value), rc);
    }

    /** `add_syspath`. */
    method AddSyspath(syspath: Bytes, rc: CInt) returns (r: Result<Unit, Error>)
      requires Valid()
      modifies lib
      ensures Valid()
      ensures NUL in syspath ==> r == Err(Errors.New(InvalidInput))
      ensures NUL !in syspath ==> r == LegacyUtil.ErrnoToResult(rc)
      ensures r.Ok? ==> Added(EnumFilter.AddSyspath(syspath))
      ensures r.Err? ==> lib.Unchanged()
    {
      var s := LegacyUtil.OsStrToCString(syspath);
      if s.Err? {
        return Err(s.error);
      }
      r := Register(EnumFilter.AddSyspath(s.value), rc);
    }

    /**
     * `scan_devices` with native return code `rc` and resulting device list
     * `found`: any nonzero code is an error and the list is not read; else a
     * cursor at the head of that list.
     */
    method ScanDevices(rc: CInt, found: seq<ListNode>) returns (r: Result<Devices, Error>)
      requires Valid()
      modifies lib
      ensures Valid()
      ensures r.Err? <==> rc != 0
      ensures r.Err? ==> r.error == FromErrno(rc) && lib.Unchanged()
      ensures r.Ok? ==> var ds := r.value;
                        && fresh(ds) && ds.Valid() && ds.enumerator == this && ds.nodes == found && ds.pos == 0
                        && lib.objects == old(lib.objects)[raw := Enumerate(old(Filters()), found)]
                        && lib.refs == old(lib.refs) && lib.holders == old(lib.holders)
                        && lib.unwrapped == old(lib.unwrapped)
    {
      var s := LegacyUtil.ErrnoToResult(rc);
      if s.Err? {
        return Err(s.error);
      }
      lib.Update(raw, Enumerate(Filters(), found));
      var ds := new Devices(this, Scanned());
      r := Ok(ds);
    }
  }

  class Devices {
    const enumerator: Enumerator
    const nodes: seq<ListNode>
    var pos: nat

    ghost predicate Valid()
      reads this, enumerator, enumerator.lib, enumerator.context
    {
      pos <= |nodes| && enumerator.Valid()
    }

    constructor (enumerator: Enumerator, nodes: seq<ListNode>)
      requires enumerator.Valid()
      ensures Valid() && this.enumerator == enumerator && this.nodes == nodes && pos == 0
    {
      this.enumerator := enumerator;
      this.nodes := nodes;
      pos := 0;
    }

    /**
     * One turn of `next`'s loop: read the node under the cursor, advance the
     * cursor, and ask the enumerator's context for the device at that syspath.
     */
    method Step() returns (r: Option<Device>)
      requires Valid() && pos < |nodes|
      modifies this, enumerator.lib
      ensures Valid() && pos == old(pos) + 1
      ensures var key := EnumeratorRs.SyspathKey(nodes[old(pos)]);
              && (r.None? <==> !enumerator.lib.Resolves(key))
              && (r.None? ==> enumerator.lib.Unchanged())
              && (r.Some? ==> fresh(r.value) && r.value.Valid() && r.value.context == enumerator.context
                              && enumerator.lib.Created(r.value.raw, r.value, Libudev.Device(enumerator.lib.table[key])))
    {
      var syspath := LegacyUtil.PtrToOsStrUnchecked(At(nodes[pos].name));
      pos := pos + 1;
      var d := Device.FromSyspath(enumerator.context, syspath);
      r := if d.Ok? then Some(d.value) else None;
    }

    /**
     * `next`: step past nodes whose syspath does not resolve, leaving the
     * library as it was; the first that does becomes a device borrowing the
     * enumerator's context, and the cursor rests after it. Every call on a
     * non-empty rest of the list moves the cursor.
     */
    method Next() returns (r: Option<Device>)
      requires Valid()
      modifies this, enumerator.lib
      ensures Valid() && old(pos) <= pos
      ensures old(pos) < |nodes| ==> old(pos) < pos
      ensures r.None? ==> pos == |nodes| && enumerator.lib.Unchanged()
                          && (forall i :: old(pos) <= i < pos ==> !enumerator.lib.Resolves(EnumeratorRs.SyspathKey(nodes[i])))
      ensures r.Some? ==> old(pos) < pos
      ensures r.Some? ==>
                          var d := r.value;
                          var key := EnumeratorRs.SyspathKey(nodes[pos - 1]);
                          && (forall i :: old(pos) <= i < pos - 1 ==> !enumerator.lib.Resolves(EnumeratorRs.SyspathKey(nodes[i])))
                          && enumerator.lib.Resolves(key)
                          && fresh(d) && d.Valid() && d.context == enumerator.context && d.Record() == enumerator.lib.table[key]
                          && enumerator.lib.Created(d.raw, d, Libudev.Device(enumerator.lib.table[key]))
    {
      while pos < |nodes|
        invariant Valid() && old(pos) <= pos
        invariant forall i :: old(pos) <= i < pos ==> !enumerator.lib.Resolves(EnumeratorRs.SyspathKey(nodes[i]))
        invariant enumerator.lib.Unchanged()
        decreases |nodes| - pos
      {
        r := Step();
        if r.Some? {
          return;
        }
      }
      return None;
    }
  }

  /** What a collecting loop keeps: the records so far, then the rest's, are all of them. */
  ghost predicate Yielded(lib: Library, nodes: seq<ListNode>, recs: seq<DeviceRecord>, p: nat, all: seq<DeviceRecord>)
    requires p <= |nodes|
  {
    recs + EnumeratorRs.Found(lib, nodes[p..]) == all
  }

  /** `next` on a cursor before the end, seen through the record of the device it yields. */
  method NextRecord(ds: Devices) returns (rec: Option<DeviceRecord>)
    requires ds.Valid() && ds.pos < |ds.nodes|
    modifies ds, ds.enumerator.lib
    ensures ds.Valid() && old(ds.pos) < ds.pos
    ensures rec.None? ==> ds.pos == |ds.nodes|
                          && forall i :: old(ds.pos) <= i < ds.pos ==> !ds.enumerator.lib.Resolves(EnumeratorRs.SyspathKey(ds.nodes[i]))
    ensures rec.Some? ==> var key := EnumeratorRs.SyspathKey(ds.nodes[ds.pos - 1]);
                          && (forall i :: old(ds.pos) <= i < ds.pos - 1 ==> !ds.enumerator.lib.Resolves(EnumeratorRs.SyspathKey(ds.nodes[i])))
                          && ds.enumerator.lib.Resolves(key) && rec.value == ds.enumerator.lib.table[key]
  {
    var d := ds.Next();
    rec := if d.Some? then Some(d.value.Record()) else None;
  }

  /**
   * Collecting a `Devices` iterator of this revision yields, in list order,
   * exactly the records the current revision's `Devices` yields.
   */
  method CollectRecords(ds: Devices) returns (recs: seq<DeviceRecord>)
    requires ds.Valid()
    modifies ds, ds.enumerator.lib
    ensures ds.Valid() && ds.pos == |ds.nodes|
    ensures recs == EnumeratorRs.Found(ds.enumerator.lib, ds.nodes[old(ds.pos)..])
  {
    recs := [];
    ghost var all := EnumeratorRs.Found(ds.enumerator.lib, ds.nodes[ds.pos..]);
    while ds.pos < |ds.nodes|
      invariant ds.Valid() && old(ds.pos) <= ds.pos
      invariant Yielded(ds.enumerator.lib, ds.nodes, recs, ds.pos, all)
      decreases |ds.nodes| - ds.pos
    {
      recs := CollectTurn(ds, recs, all);
    }
  }

  /** One turn of the collecting loop: `next`, and its record, if any, appended. */
  method CollectTurn(ds: Devices, recs: seq<DeviceRecord>, ghost all: seq<DeviceRecord>) returns (recs': seq<DeviceRecord>)
    requires ds.Valid() && ds.pos < |ds.nodes| && Yielded(ds.enumerator.lib, ds.nodes, recs, ds.pos, all)
    modifies ds, ds.enumerator.lib
    ensures ds.Valid() && old(ds.pos) < ds.pos && Yielded(ds.enumerator.lib, ds.nodes, recs', ds.pos, all)
  {
    ghost var p := ds.pos;
    var r := NextRecord(ds);
    if r.Some? {
      EnumeratorRs.CollectStep(ds.enumerator.lib, ds.nodes, recs, p, ds.pos, all);
      recs' := recs + [r.value];
    } else {
      EnumeratorRs.FoundSkips(ds.enumerator.lib, ds.nodes, p, ds.pos);
      recs' := recs;
    }
  }

  /** An item of `Properties`: a name and a value, both borrowed from the list. */
  datatype Property = Property(name: Bytes, value: Bytes)

  /** The property a list node yields: its name and its value, each read as a C string. */
  function PropertyOf(n: ListNode): (p: Property)
    requires n.value.At?
    ensures p.name == Text(n.name) && NUL !in p.value && p.value == Text(n.value.mem)
  {
    Property(LegacyUtil.PtrToOsStrUnchecked(At(n.name)), LegacyUtil.PtrToOsStrUnchecked(n.value))
  }

  /**
   * Where a node has a value, this revision's property is the entry the
   * current revision's list iterator decodes from it.
   */
  lemma PropertyRevisions(n: ListNode)
    requires n.value.At?
    ensures List.Decode(n) == List.Entry(PropertyOf(n).name, Some(PropertyOf(n).value))
  {
    LegacyUtil.PtrRevisions(n.value);
  }

  class Properties {
    const device: Device
    const nodes: seq<ListNode>
    var pos: nat

    ghost predicate Valid()
      reads this
    {
      pos <= |nodes|
    }

    constructor (device: Device, nodes: seq<ListNode>)
      ensures Valid() && this.device == device && this.nodes == nodes && pos == 0
    {
      this.device := device;
      this.nodes := nodes;
      pos := 0;
    }

    /**
     * `next`: nothing at the null cursor; else the node's name and value, and
     * the cursor moves on. The value is read without a null check, so the
     * node under the cursor must have one.
     */
    method Next() returns (r: Option<Property>)
      requires Valid() && (pos < |nodes| ==> nodes[pos].value.At?)
      modifies this
      ensures Valid()
      ensures old(pos) == |nodes| ==> r.None? && pos == old(pos)
      ensures old(pos) < |nodes| ==>
                && pos == old(pos) + 1
                && r == Some(PropertyOf(nodes[old(pos)]))
    {
      if pos == |nodes| {
        return None;
      }
      var name := LegacyUtil.PtrToOsStrUnchecked(At(nodes[pos].name));
      var value := LegacyUtil.PtrToOsStrUnchecked(nodes[pos].value);
      pos := pos + 1;
      r := Some(Property(name, value));
    }
  }

  /** Collecting a `Properties` cursor: the remaining nodes' properties, one per node, in list order. */
  method CollectProperties(ps: Properties) returns (out: seq<Property>)
    requires ps.Valid() && forall i :: ps.pos <= i < |ps.nodes| ==> ps.nodes[i].value.At?
    modifies ps
    ensures ps.Valid() && ps.pos == |ps.nodes|
    ensures |out| == |ps.nodes| - old(ps.pos)
    ensures forall k :: 0 <= k < |out| ==> out[k] == PropertyOf(ps.nodes[old(ps.pos) + k])
  {
    out := [];
    while ps.pos < |ps.nodes|
      invariant ps.Valid() && old(ps.pos) <= ps.pos
      invariant |out| == ps.pos - old(ps.pos)
      invariant forall k :: 0 <= k < |out| ==> out[k] == PropertyOf(ps.nodes[old(ps.pos) + k])
      decreases |ps.nodes| - ps.pos
    {
      var p := ps.Next();
      out := out + [p.value];
    }
  }

  /** An item of `Attributes`: the device and a name; the value is not read until asked for. */
  datatype Attribute = Attribute(device: Device, name: Bytes)

  /** `Attribute::value`: the device's attribute under that name, as it is when asked. */
  function Value(a: Attribute): (v: Option<Bytes>)
    reads a.device, a.device.lib, a.device.context
    requires a.device.Valid()
    ensures v == DeviceRs.AttributeValueOf(a.device.Record(), a.name)
  {
    AttributeRevisions(a.device, a.name);
    a.device.AttributeValue(a.name)
  }

  class Attributes {
    const device: Device
    const nodes: seq<ListNode>
    var pos: nat

    ghost predicate Valid()
      reads this
    {
      pos <= |nodes|
    }

    constructor (device: Device, nodes: seq<ListNode>)
      ensures Valid() && this.device == device && this.nodes == nodes && pos == 0
    {
      this.device := device;
      this.nodes := nodes;
      pos := 0;
    }

    /** `next`: nothing at the null cursor; else an attribute named by the node, and the cursor moves on. */
    method Next() returns (r: Option<Attribute>)
      requires Valid()
      modifies this
      ensures Valid()
      ensures old(pos) == |nodes| ==> r.None? && pos == old(pos)
      ensures old(pos) < |nodes| ==> pos == old(pos) + 1 && r == Some(Attribute(device, Text(nodes[old(pos)].name)))
    {
      if pos < |nodes| {
        var name := LegacyUtil.PtrToOsStrUnchecked(At(nodes[pos].name));
        pos := pos + 1;
        r := Some(Attribute(device, name));
      } else {
        r := None;
      }
    }
  }
}
