/**
 * src/device.rs: the `Device` handle. A device owns one native reference to
 * its `udev_device` and, in its `udev` field, a `Udev` handle for the context
 * it belongs to. The accessors read the native getters through the
 * conversions of src/util.rs.
 */
module Device {
  import opened Sys
  import opened Util
  import opened Libudev
  import opened List
  import Udev

  /** What `from_devnum` is told about the special file. */
  datatype DeviceType = Character | Block

  /** `dev_type as c_char`: the `#[repr(u8)]` discriminant. */
  function DeviceTypeByte(t: DeviceType): (b: Byte)
    ensures t == Character ==> b == 'c' as int
    ensures t == Block ==> b == 'b' as int
  {
    match t
    case Character => 0x63
    case Block => 0x62
  }

  /** The inverse reading of a discriminant byte. */
  function DeviceTypeOf(b: Byte): (t: Option<DeviceType>)
    ensures t.Some? <==> b == 'c' as int || b == 'b' as int
  {
    if b == 0x63 then Some(Character) else if b == 0x62 then Some(Block) else None
  }

  /** The encoding is injective: each type has its own byte, and reading it back gives the type. */
  lemma DeviceTypeRoundTrip(t: DeviceType, b: Byte)
    ensures DeviceTypeOf(DeviceTypeByte(t)) == Some(t)
    ensures DeviceTypeOf(b) == Some(t) ==> DeviceTypeByte(t) == b
  {
  }

  /** `sysnum`'s reading of the native pointer: null, non-UTF-8 or unparsable is nothing. */
  function SysnumOf(p: CPtr): (r: Option<nat>)
    ensures p.Null? ==> r.None?
    ensures p.At? && !ValidUtf8(CBytes(p)) ==> r.None?
    ensures p.At? && ValidUtf8(CBytes(p)) ==> r == ParseUsize(CBytes(p))
    ensures r.Some? ==> r.value <= USIZE_MAX
  {
    if p.Null? then None
    else
      match ToStr(PtrToOsStrUnchecked(p))
      case None => None
      case Some(s) => ParseUsize(s)
  }

  /** A sysnum the kernel writes in decimal reads back as that number. */
  lemma SysnumOfDecimal(n: nat)
    requires n <= USIZE_MAX
    ensures SysnumOf(At(CStrOf(Decimal(n)))) == Some(n)
  {
    var s := Decimal(n);
    assert CBytes(At(CStrOf(s))) == s;
    AsciiIsUtf8(s);
    ParseDecimal(n);
  }

  /** `property_value` on a device record. */
  function PropertyValueOf(rec: DeviceRecord, name: Bytes): (v: Option<Bytes>)
    ensures NUL in name ==> v.None?
    ensures NUL !in name ==> v == Lookup(DecodeAll(rec.properties), name)
  {
    match OsStrToCString(name)
    case Err(_) => None
    case Ok(prop) =>
      NativeLookup(rec.properties, prop);
      PtrToOsStr(GetPropertyValue(rec, prop))
  }

  /** `attribute_value` on a device record. */
  function AttributeValueOf(rec: DeviceRecord, name: Bytes): (v: Option<Bytes>)
    ensures NUL in name ==> v.None?
    ensures NUL !in name && name !in rec.sysattrs ==> v.None?
    ensures NUL !in name && name in rec.sysattrs ==> v == PtrToOsStr(rec.sysattrs[name])
  {
    match OsStrToCString(name)
    case Err(_) => None
    case Ok(attr) => PtrToOsStr(GetSysattrValue(rec, attr))
  }

  /** A new device handle owns the single reference of a new native object for `key`. */
  twostate predicate Made(lib: Library, new d: Device, key: DeviceKey)
    reads lib, d, d.udev
  {
    && d.lib == lib && d.Valid() && key in lib.table && d.Record() == lib.table[key]
    && lib.Created(d.raw, d, Libudev.Device(lib.table[key]))
  }

  /**
   * As `Made`, and the device's context is new as well: the two new objects
   * are the only change, each with one reference owned by its handle.
   */
  twostate predicate MadeWithContext(lib: Library, new d: Device, key: DeviceKey)
    reads lib, d, d.udev
  {
    && d.lib == lib && d.Valid() && key in lib.table && d.Record() == lib.table[key]
    && d.raw != d.udev.raw && d.raw !in old(lib.refs) && d.udev.raw !in old(lib.refs)
    && lib.refs == old(lib.refs)[d.udev.raw := 1][d.raw := 1]
    && lib.objects == old(lib.objects)[d.udev.raw := Context][d.raw := Libudev.Device(lib.table[key])]
    && lib.holders == old(lib.holders)[d.udev.raw := {d.udev}][d.raw := {d}]
    && lib.unwrapped == old(lib.unwrapped)[d.udev.raw := 0][d.raw := 0]
  }

  class Device {
    const udev: Udev.Udev
    const lib: Library
    const raw: Id

    /** A live device handle over a live context handle of the same library. */
    ghost predicate Valid()
      reads this, lib, udev
    {
      && udev.lib == lib && udev.Valid()
      && raw in lib.objects && lib.objects[raw].Device? && lib.Holds(this, raw)
    }

    /** What the native getters of this device return. */
    function Record(): DeviceRecord
      reads this, lib
      requires raw in lib.objects && lib.objects[raw].Device?
    {
      lib.objects[raw].record
    }

    /** `from_raw(udev, ptr)`: the handle takes over the pointer's reference and the context handle. */
    constructor FromRaw(udev: Udev.Udev, p: Id)
      requires udev.Valid()
      requires p in udev.lib.objects && udev.lib.objects[p].Device? && udev.lib.unwrapped[p] > 0
      modifies udev.lib
      ensures Valid() && this.udev == udev && lib == udev.lib && raw == p
      ensures lib.holders == With(old(udev.lib.holders), p, this)
      ensures lib.unwrapped == Dec(old(udev.lib.unwrapped), p)
      ensures lib.refs == old(udev.lib.refs) && lib.objects == old(udev.lib.objects)
    {
      this.udev := udev;
      lib := udev.lib;
      raw := p;
      new;
      lib.Adopt(p, this);
    }

    /**
     * The shared tail of every constructor taking a context: look the device
     * up; on null the context handle, moved in, is dropped.
     */
    static method Resolve(udev: Udev.Udev, key: DeviceKey) returns (r: Result<Device, IoError>)
      requires udev.Valid()
      modifies udev.lib
      ensures udev.lib.Valid()
      ensures r.Err? <==> !udev.lib.Resolves(key)
      ensures r.Err? ==> r.error == AllocFailed && udev.lib.Dropped(udev.raw, udev)
      ensures r.Ok? ==> fresh(r.value) && r.value.udev == udev && Made(udev.lib, r.value, key)
    {
      var lib := udev.lib;
      var p := lib.NewDevice(key);
      if p.None? {
        udev.Drop();
        return Err(AllocFailed);
      }
      var d := new Device.FromRaw(udev, p.value);
      r := Ok(d);
    }

    /** `from_syspath_with_context`: EINVAL for a path with NUL, an error when nothing resolves. */
    static method FromSyspathWithContext(udev: Udev.Udev, syspath: Bytes) returns (r: Result<Device, IoError>)
      requires udev.Valid()
      modifies udev.lib
      ensures udev.lib.Valid()
      ensures r.Err? <==> NUL in syspath || !udev.lib.Resolves(BySyspath(syspath))
      ensures r.Err? ==> udev.lib.Dropped(udev.raw, udev)
      ensures r.Err? ==> r.error == (if NUL in syspath then Os(EINVAL) else AllocFailed)
      ensures r.Ok? ==> fresh(r.value) && r.value.udev == udev && Made(udev.lib, r.value, BySyspath(syspath))
    {
      var c := OsStrToCString(syspath);
      if c.Err? {
        udev.Drop();
        return Err(c.error);
      }
      r := Resolve(udev, BySyspath(c.value));
    }

    /** `from_syspath`: a new context first, then the lookup; a failure leaves nothing behind. */
    static method FromSyspath(lib: Library, syspath: Bytes) returns (r: Result<Device, IoError>)
      requires lib.Valid()
      modifies lib
      ensures lib.Valid()
      ensures r.Err? <==> lib.outOfMemory || NUL in syspath || !lib.Resolves(BySyspath(syspath))
      ensures r.Err? ==> r.error == (if !lib.outOfMemory && NUL in syspath then Os(EINVAL) else AllocFailed)
      ensures r.Err? ==> lib.Extends() && lib.FreedSince({})
      ensures r.Ok? ==> fresh(r.value) && fresh(r.value.udev) && MadeWithContext(lib, r.value, BySyspath(syspath))
    {
      var u := Udev.Udev.New(lib);
      if u.Err? {
        return Err(u.error);
      }
      r := FromSyspathWithContext(u.value, syspath);
    }

    /** `from_subsystem_sysname`: both names are checked before any native call is made. */
    static method FromSubsystemSysname(lib: Library, subsystem: Bytes, sysname: Bytes) returns (r: Result<Device, IoError>)
      requires lib.Valid()
      modifies lib
      ensures lib.Valid()
      ensures r.Err? <==> NUL in subsystem || NUL in sysname || !lib.Resolves(BySubsystemSysname(subsystem, sysname))
      ensures r.Err? ==> r.error == (if NUL in subsystem || NUL in sysname then Os(EINVAL) else AllocFailed)
      ensures r.Err? && (NUL in subsystem || NUL in sysname) ==> lib.Unchanged()
      ensures r.Err? ==> lib.Extends() && lib.FreedSince({})
      ensures r.Ok? ==> fresh(r.value) && fresh(r.value.udev)
                        && MadeWithContext(lib, r.value, BySubsystemSysname(subsystem, sysname))
    {
      var s := OsStrToCString(subsystem);
      if s.Err? {
        return Err(Os(EINVAL));
      }
      var n := OsStrToCString(sysname);
      if n.Err? {
        return Err(Os(EINVAL));
      }
      var u := Udev.Udev.New(lib);
      if u.Err? {
        return Err(u.error);
      }
      r := Resolve(u.value, BySubsystemSysname(s.value, n.value));
    }

    /** `from_subsystem_sysname_with_context`: the same checks; the context is dropped on any error. */
    static method FromSubsystemSysnameWithContext(udev: Udev.Udev, subsystem: Bytes, sysname: Bytes)
      returns (r: Result<Device, IoError>)
      requires udev.Valid()
      modifies udev.lib
      ensures udev.lib.Valid()
      ensures r.Err? <==> NUL in subsystem || NUL in sysname || !udev.lib.Resolves(BySubsystemSysname(subsystem, sysname))
      ensures r.Err? ==> r.error == (if NUL in subsystem || NUL in sysname then Os(EINVAL) else AllocFailed)
      ensures r.Err? ==> udev.lib.Dropped(udev.raw, udev)
      ensures r.Ok? ==> fresh(r.value) && r.value.udev == udev
                        && Made(udev.lib, r.value, BySubsystemSysname(subsystem, sysname))
    {
      var s := OsStrToCString(subsystem);
      if s.Err? {
        udev.Drop();
        return Err(Os(EINVAL));
      }
      var n := OsStrToCString(sysname);
      if n.Err? {
        udev.Drop();
        return Err(Os(EINVAL));
      }
      r := Resolve(udev, BySubsystemSysname(s.value, n.value));
    }

    /** `from_devnum`: a new context, then the lookup by type byte and number. */
    static method FromDevnum(lib: Library, devType: DeviceType, devnum: DevT) returns (r: Result<Device, IoError>)
      requires lib.Valid()
      modifies lib
      ensures lib.Valid()
      ensures r.Err? <==> !lib.Resolves(ByDevnum(DeviceTypeByte(devType), devnum))
      ensures r.Err? ==> r.error == AllocFailed && lib.Extends() && lib.FreedSince({})
      ensures r.Ok? ==> fresh(r.value) && fresh(r.value.udev)
                        && MadeWithContext(lib, r.value, ByDevnum(DeviceTypeByte(devType), devnum))
    {
      var u := Udev.Udev.New(lib);
      if u.Err? {
        return Err(u.error);
      }
      r := FromDevnumWithContext(u.value, devType, devnum);
    }

    /** `from_devnum_with_context`. */
    static method FromDevnumWithContext(udev: Udev.Udev, devType: DeviceType, devnum: DevT)
      returns (r: Result<Device, IoError>)
      requires udev.Valid()
      modifies udev.lib
      ensures udev.lib.Valid()
      ensures r.Err? <==> !udev.lib.Resolves(ByDevnum(DeviceTypeByte(devType), devnum))
      ensures r.Err? ==> r.error == AllocFailed && udev.lib.Dropped(udev.raw, udev)
      ensures r.Ok? ==> fresh(r.value) && r.value.udev == udev
                        && Made(udev.lib, r.value, ByDevnum(DeviceTypeByte(devType), devnum))
    {
      r := Resolve(udev, ByDevnum(DeviceTypeByte(devType), devnum));
    }

    /** `clone`: one more reference to the device and, through the cloned `udev`, to its context. */
    method Clone() returns (c: Device)
      requires Valid()
      modifies lib
      ensures Valid() && fresh(c) && fresh(c.udev) && c.Valid()
      ensures c.lib == lib && c.raw == raw && c.udev.raw == udev.raw
      ensures lib.refs == Inc(Inc(old(lib.refs), udev.raw), raw)
      ensures lib.holders == With(With(old(lib.holders), udev.raw, c.udev), raw, c)
      ensures lib.unwrapped == old(lib.unwrapped) && lib.objects == old(lib.objects)
    {
      var u := udev.Clone();
      ghost var before := lib.unwrapped;
      var p := lib.Ref(raw);
      c := new Device.FromRaw(u, p);
      DecInc(before, raw);
    }

    /** `drop`: one device reference less, and then the `udev` field's drop: one context reference less. */
    method Drop()
      requires Valid()
      modifies lib
      ensures lib.Valid() && !lib.Holds(this, raw) && !lib.Holds(udev, udev.raw)
      ensures lib.refs == Dec(Dec(old(lib.refs), raw), udev.raw)
      ensures lib.holders == Without(Without(old(lib.holders), raw, this), udev.raw, udev)
      ensures lib.unwrapped == old(lib.unwrapped) && lib.objects == old(lib.objects)
    {
      lib.UnrefHeld(raw, this);
      udev.Drop();
    }

    /** `is_initialized`: true exactly when the native answer is strictly positive. */
    function IsInitialized(): (b: bool)
      reads this, lib, udev
      requires Valid()
      ensures b <==> Record().initialized > 0
    {
      Record().initialized > 0
    }

    /** `devnum`: 0 is the sentinel for "none"; any other number is returned unchanged. */
    function Devnum(): (r: Option<DevT>)
      reads this, lib, udev
      requires Valid()
      ensures r.None? <==> Record().devnum == 0
      ensures r.Some? ==> r.value == Record().devnum
    {
      if Record().devnum == 0 then None else Some(Record().devnum)
    }

    /** `syspath`: read unchecked, since libudev never returns null for it. */
    function Syspath(): (r: Bytes)
      reads this, lib, udev
      requires Valid()
      ensures NUL !in r && r == Text(Record().syspath)
    {
      PtrToOsStrUnchecked(At(Record().syspath))
    }

    /** `sysnum`: the parsed instance number, nothing when it is absent or not a `usize`. */
    function Sysnum(): (r: Option<nat>)
      reads this, lib, udev
      requires Valid()
      ensures Record().sysnum.Null? ==> r.None?
      ensures Record().sysnum.At? && !ValidUtf8(CBytes(Record().sysnum)) ==> r.None?
      ensures Record().sysnum.At? && ValidUtf8(CBytes(Record().sysnum)) ==> r == ParseUsize(CBytes(Record().sysnum))
      ensures r.Some? ==> r.value <= USIZE_MAX
    {
      SysnumOf(Record().sysnum)
    }

    /** `property_value`: nothing (not an error) for a name with NUL; else the first property of that name. */
    function PropertyValue(name: Bytes): (v: Option<Bytes>)
      reads this, lib, udev
      requires Valid()
      ensures NUL in name ==> v.None?
      ensures NUL !in name ==> v == Lookup(DecodeAll(Record().properties), name)
    {
      PropertyValueOf(Record(), name)
    }

    /** `attribute_value`: nothing (not an error) for a name with NUL; else the native attribute. */
    function AttributeValue(name: Bytes): (v: Option<Bytes>)
      reads this, lib, udev
      requires Valid()
      ensures NUL in name ==> v.None?
      ensures NUL !in name && name !in Record().sysattrs ==> v.None?
      ensures NUL !in name && name in Record().sysattrs ==> v == PtrToOsStr(Record().sysattrs[name])
    {
      AttributeValueOf(Record(), name)
    }

    /**
     * `set_attribute_value`: EINVAL before any native call when either
     * string has a NUL; otherwise the native return code, read by
     * `errno_to_result` (the write itself is not modelled).
     */
    method SetAttributeValue(attribute: Bytes, value: Bytes, rc: CInt) returns (r: Result<Unit, IoError>)
      requires Valid()
      ensures NUL in attribute || NUL in value ==> r == Err(Os(EINVAL))
      ensures NUL !in attribute && NUL !in value ==> (r.Ok? <==> rc >= 0)
      ensures NUL !in attribute && NUL !in value && r.Err? ==> r.error == Os(WrappingNeg(rc))
    {
      var a := OsStrToCString(attribute);
      if a.Err? {
        return Err(a.error);
      }
      var v := OsStrToCString(value);
      if v.Err? {
        return Err(v.error);
      }
      r := ErrnoToResult(rc);
    }

    /** A parent the native side found: a new handle with one extra reference and a cloned context. */
    method WrapParent(p: Id) returns (d: Device)
      requires Valid() && p in lib.objects && lib.objects[p].Device? && lib.Live(p)
      modifies lib
      ensures Valid() && fresh(d) && fresh(d.udev) && d.Valid()
      ensures d.lib == lib && d.raw == p && d.udev.raw == udev.raw
      ensures lib.refs == Inc(Inc(old(lib.refs), udev.raw), p)
      ensures lib.holders == With(With(old(lib.holders), udev.raw, d.udev), p, d)
      ensures lib.unwrapped == old(lib.unwrapped) && lib.objects == old(lib.objects)
    {
      var u := udev.Clone();
      ghost var before := lib.unwrapped;
      var q := lib.Ref(p);
      d := new Device.FromRaw(u, q);
      DecInc(before, p);
    }

    /**
     * `parent`: `found` is what `udev_device_get_parent` returned. Null is
     * nothing (never an error) and changes nothing.
     */
    method Parent(found: Option<Id>) returns (r: Option<Device>)
      requires Valid()
      requires found.Some? ==> found.value in lib.objects && lib.objects[found.value].Device? && lib.Live(found.value)
      modifies lib
      ensures Valid()
      ensures r.None? <==> found.None?
      ensures r.None? ==> lib.Unchanged()
      ensures r.Some? ==> fresh(r.value) && fresh(r.value.udev) && r.value.Valid()
                          && r.value.raw == found.value && r.value.udev.raw == udev.raw
                          && lib.refs == Inc(Inc(old(lib.refs), udev.raw), found.value)
                          && lib.holders == With(With(old(lib.holders), udev.raw, r.value.udev), found.value, r.value)
                          && lib.unwrapped == old(lib.unwrapped) && lib.objects == old(lib.objects)
    {
      if found.None? {
        return None;
      }
      var d := WrapParent(found.value);
      r := Some(d);
    }

    /** `parent_with_subsystem`: EINVAL for a subsystem with NUL; otherwise as `parent`, wrapped in `Ok`. */
    method ParentWithSubsystem(subsystem: Bytes, found: Option<Id>) returns (r: Result<Option<Device>, IoError>)
      requires Valid()
      requires found.Some? ==> found.value in lib.objects && lib.objects[found.value].Device? && lib.Live(found.value)
      modifies lib
      ensures Valid()
      ensures r.Err? <==> NUL in subsystem
      ensures r.Err? ==> r.error == Os(EINVAL)
      ensures r.Err? || r.value.None? ==> lib.Unchanged()
      ensures r.Ok? ==> (r.value.None? <==> found.None?)
      ensures r.Ok? && r.value.Some? ==> var d := r.value.value;
                          && fresh(d) && fresh(d.udev) && d.Valid()
                          && d.raw == found.value && d.udev.raw == udev.raw
                          && lib.refs == Inc(Inc(old(lib.refs), udev.raw), found.value)
                          && lib.holders == With(With(old(lib.holders), udev.raw, d.udev), found.value, d)
                          && lib.unwrapped == old(lib.unwrapped) && lib.objects == old(lib.objects)
    {
      var s := OsStrToCString(subsystem);
      if s.Err? {
        return Err(s.error);
      }
      if found.None? {
        return Ok(None);
      }
      var d := WrapParent(found.value);
      r := Ok(Some(d));
    }

    /** `parent_with_subsystem_devtype`: EINVAL when either string has NUL; otherwise as `parent`. */
    method ParentWithSubsystemDevtype(subsystem: Bytes, devtype: Bytes, found: Option<Id>)
      returns (r: Result<Option<Device>, IoError>)
      requires Valid()
      requires found.Some? ==> found.value in lib.objects && lib.objects[found.value].Device? && lib.Live(found.value)
      modifies lib
      ensures Valid()
      ensures r.Err? <==> NUL in subsystem || NUL in devtype
      ensures r.Err? ==> r.error == Os(EINVAL)
      ensures r.Err? || r.value.None? ==> lib.Unchanged()
      ensures r.Ok? ==> (r.value.None? <==> found.None?)
      ensures r.Ok? && r.value.Some? ==> var d := r.value.value;
                          && fresh(d) && fresh(d.udev) && d.Valid()
                          && d.raw == found.value && d.udev.raw == udev.raw
                          && lib.refs == Inc(Inc(old(lib.refs), udev.raw), found.value)
                          && lib.holders == With(With(old(lib.holders), udev.raw, d.udev), found.value, d)
                          && lib.unwrapped == old(lib.unwrapped) && lib.objects == old(lib.objects)
    {
      var s := OsStrToCString(subsystem);
      if s.Err? {
        return Err(s.error);
      }
      var t := OsStrToCString(devtype);
      if t.Err? {
        return Err(t.error);
      }
      if found.None? {
        return Ok(None);
      }
      var d := WrapParent(found.value);
      r := Ok(Some(d));
    }

    /** `properties`: an iterator at the head of the device's property list. */
    method Properties() returns (l: EntryList)
      requires Valid()
      ensures fresh(l) && l.Valid() && l.nodes == Record().properties && l.pos == 0
    {
      l := new EntryList(Record().properties);
    }

    /** `attributes`: an iterator at the head of the device's attribute list. */
    method Attributes() returns (a: Attributes)
      requires Valid()
      ensures fresh(a) && fresh(a.entries) && a.Valid() && a.device == this && a.entries.pos == 0
    {
      var l := new EntryList(Record().sysattrList);
      a := new Attributes(l, this);
    }
  }

  /**
   * The device's attribute iterator. The native list holds the names only;
   * each step asks the device for the value under that name, at that step.
   */
  class Attributes {
    const entries: EntryList
    const device: Device

    ghost predicate Valid()
      reads this, entries, device, device.lib, device.udev
    {
      entries.Valid() && device.Valid() && entries.nodes == device.Record().sysattrList
    }

    constructor (entries: EntryList, device: Device)
      requires entries.Valid() && device.Valid() && entries.nodes == device.Record().sysattrList
      ensures this.entries == entries && this.device == device
    {
      this.entries := entries;
      this.device := device;
    }

    /** `next`: the next name in list order with its value looked up now; nothing at the end. */
    method Next() returns (r: Option<Entry>)
      requires Valid()
      modifies entries
      ensures Valid()
      ensures old(entries.pos) == |entries.nodes| ==> r.None? && entries.pos == old(entries.pos)
      ensures old(entries.pos) < |entries.nodes| ==>
                var name := Decode(entries.nodes[old(entries.pos)]).name;
                && entries.pos == old(entries.pos) + 1
                && r == Some(Entry(name, device.AttributeValue(name)))
    {
      var e := entries.Next();
      match e {
        case None => r := None;
        case Some(Entry(name, _)) => r := Some(Entry(name, device.AttributeValue(name)));
      }
    }
  }

  /** A device clone dropped again leaves the native counts and owners as they were. */
  method CloneDropBalanced(d: Device)
    requires d.Valid()
    modifies d.lib
    ensures d.Valid() && d.lib.Unchanged()
  {
    var lib := d.lib;
    ghost var refs0, holders0 := lib.refs, lib.holders;
    var c := d.Clone();
    c.Drop();
    DecInc(Inc(refs0, d.udev.raw), d.raw);
    DecInc(refs0, d.udev.raw);
    WithoutWith(With(holders0, d.udev.raw, c.udev), d.raw, c);
    WithoutWith(holders0, d.udev.raw, c.udev);
  }
}
