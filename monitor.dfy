/**
 * src/monitor.rs: the monitor `Builder`, the listening `Socket` and the
 * events it receives. A builder owns one native reference to a
 * `udev_monitor`. Its filter methods consume it and hand the same builder
 * back on success; on any error the builder is dropped, giving its reference
 * back. `listen` turns it into a `Socket` holding the builder, and each
 * received device comes out as an `Event`.
 */
module Monitor {
  import opened Sys
  import opened Util
  import opened Libudev
  import opened List
  import Udev
  import Device

  /** The bytes of an ASCII literal. */
  function Ascii(s: string): (b: Bytes)
    requires forall i :: 0 <= i < |s| ==> s[i] < 128 as char
    ensures |b| == |s| && forall i :: 0 <= i < |s| ==> b[i] == s[i] as int
  {
    seq(|s|, i requires 0 <= i < |s| => s[i] as int)
  }

  /** The kinds of event udev reports. */
  datatype EventType = Add | Change | Remove | Bind | Unbind | Unknown

  /** `Default for EventType`. */
  function Default(): (t: EventType)
    ensures t == Unknown
  {
    Unknown
  }

  /** `Display for EventType`: the lowercase name of the variant. */
  function Display(t: EventType): (s: Bytes)
    ensures |s| > 0 && forall i :: 0 <= i < |s| ==> 0x61 <= s[i] <= 0x7A
  {
    match t
    case Add => Ascii("add")
    case Change => Ascii("change")
    case Remove => Ascii("remove")
    case Bind => Ascii("bind")
    case Unbind => Ascii("unbind")
    case Unknown => Ascii("unknown")
  }

  /** The property holding a device event's action. */
  function ActionKey(): (k: Bytes)
    ensures |k| == 6 && forall i :: 0 <= i < |k| ==> 0x41 <= k[i] <= 0x5A
  {
    Ascii("ACTION")
  }

  /**
   * `event_type`'s reading of the `ACTION` property: it must be there and be
   * UTF-8, and then one of the five known names; anything else is `Unknown`.
   */
  function Classify(action: Option<Bytes>): (t: EventType)
    ensures action.None? ==> t == Default()
    ensures t != Unknown ==> action.Some? && action.value == Display(t)
  {
    match action
    case None => Unknown
    case Some(a) =>
      match ToStr(a)
      case None => Unknown
      case Some(s) =>
        if s == Display(Add) then Add
        else if s == Display(Change) then Change
        else if s == Display(Remove) then Remove
        else if s == Display(Bind) then Bind
        else if s == Display(Unbind) then Unbind
        else Unknown
  }

  /** Every printed name is ASCII, so UTF-8. */
  lemma DisplayIsUtf8(t: EventType)
    ensures ValidUtf8(Display(t))
  {
    AsciiIsUtf8(Display(t));
  }

  /** Each variant prints to a name of its own. */
  lemma DisplayInjective(t: EventType, u: EventType)
    ensures Display(t) == Display(u) ==> t == u
  {
    if t != u {
      assert Display(t)[1] != Display(u)[1] || Display(t)[0] != Display(u)[0] || |Display(t)| != |Display(u)|;
    }
  }

  /**
   * Classifying a printed name gives the variant back, for every variant
   * (`unknown` is not one of the five names, and reads as `Unknown`).
   */
  lemma ClassifyDisplay(t: EventType)
    ensures Classify(Some(Display(t))) == t
  {
    DisplayIsUtf8(t);
    forall u ensures Display(u) == Display(t) ==> u == t {
      DisplayInjective(u, t);
    }
  }

  /**
   * `Builder`: one native reference to a monitor object that is not
   * listening yet (or that a `Socket` holds).
   */
  class Builder {
    const lib: Library
    const raw: Id

    ghost predicate Valid()
      reads this, lib
    {
      lib.Valid() && raw in lib.objects && lib.objects[raw].Monitor? && lib.Holds(this, raw)
    }

    /** The filters registered so far. */
    function Filters(): seq<MonitorFilter>
      reads this, lib
      requires raw in lib.objects && lib.objects[raw].Monitor?
    {
      lib.objects[raw].filters
    }

    /** The monitor's filters became `fs`; nothing else in the library changed. */
    twostate predicate Filtered(fs: seq<MonitorFilter>)
      reads this, lib
      requires old(raw in lib.objects && lib.objects[raw].Monitor?)
    {
      && lib.objects == old(lib.objects)[raw := old(lib.objects[raw]).(filters := fs)]
      && lib.refs == old(lib.refs) && lib.holders == old(lib.holders) && lib.unwrapped == old(lib.unwrapped)
    }

    /** `from_raw`: the builder takes over the pointer's reference. */
    constructor FromRaw(lib: Library, p: Id)
      requires lib.Valid() && p in lib.objects && lib.objects[p].Monitor? && lib.unwrapped[p] > 0
      modifies lib
      ensures Valid() && this.lib == lib && raw == p
      ensures lib.holders == With(old(lib.holders), p, this)
      ensures lib.unwrapped == Dec(old(lib.unwrapped), p)
      ensures lib.refs == old(lib.refs) && lib.objects == old(lib.objects)
    {
      this.lib := lib;
      raw := p;
      new;
      lib.Adopt(p, this);
    }

    /** `new`: null from `udev_monitor_new_from_netlink` is an error; else a fresh monitor with no filters. */
    static method New(lib: Library) returns (r: Result<Builder, IoError>)
      requires lib.Valid()
      modifies lib
      ensures lib.Valid()
      ensures r.Err? <==> lib.outOfMemory
      ensures r.Err? ==> r.error == AllocFailed && lib.Unchanged()
      ensures r.Ok? ==> var b := r.value;
                        && fresh(b) && b.Valid() && b.lib == lib && b.Filters() == []
                        && lib.Created(b.raw, b, Monitor([], false, []))
    {
      var p := lib.Alloc(Monitor([], false, []));
      if p.None? {
        return Err(AllocFailed);
      }
      var b := new Builder.FromRaw(lib, p.value);
      r := Ok(b);
    }

    /** `drop`: exactly one monitor reference less. */
    method Drop()
      requires Valid()
      modifies lib
      ensures lib.Valid() && !lib.Holds(this, raw) && lib.Dropped(raw, this)
    {
      lib.UnrefHeld(raw, this);
    }

    /**
     * A native filter call with return code `rc` that would leave the
     * filters at `fs`, followed by `.and(Ok(self))`: on success the same
     * builder, on failure the error, and the builder is dropped.
     */
    method Apply(fs: seq<MonitorFilter>, rc: CInt) returns (r: Result<Builder, IoError>)
      requires Valid()
      modifies lib
      ensures lib.Valid()
      ensures r.Err? <==> rc < 0
      ensures r.Err? ==> r.error == Os(WrappingNeg(rc)) && lib.Dropped(raw, this)
      ensures r.Ok? ==> r.value == this && Valid() && Filtered(fs)
    {
      var s := ErrnoToResult(rc);
      if s.Err? {
        Drop();
        return Err(s.error);
      }
      lib.Update(raw, lib.objects[raw].(filters := fs));
      r := Ok(this);
    }

    /** `match_subsystem`: EINVAL (and the builder dropped) for a name with NUL; no devtype is given. */
    method MatchSubsystem(subsystem: Bytes, rc: CInt) returns (r: Result<Builder, IoError>)
      requires Valid()
      modifies lib
      ensures lib.Valid()
      ensures r.Err? <==> NUL in subsystem || rc < 0
      ensures r.Err? ==> r.error == (if NUL in subsystem then Os(EINVAL) else Os(WrappingNeg(rc)))
      ensures r.Err? ==> lib.Dropped(raw, this)
      ensures r.Ok? ==> r.value == this && Valid()
                        && Filtered(old(Filters()) + [SubsystemDevtype(subsystem, None)])
    {
      var s := OsStrToCString(subsystem);
      if s.Err? {
        Drop();
        return Err(s.error);
      }
      r := Apply(Filters() + [SubsystemDevtype(s.value, None)], rc);
    }

    /** `match_subsystem_devtype`: both strings are checked before the native call. */
    method MatchSubsystemDevtype(subsystem: Bytes, devtype: Bytes, rc: CInt) returns (r: Result<Builder, IoError>)
      requires Valid()
      modifies lib
      ensures lib.Valid()
      ensures r.Err? <==> NUL in subsystem || NUL in devtype || rc < 0
      ensures r.Err? ==> r.error == (if NUL in subsystem || NUL in devtype then Os(EINVAL) else Os(WrappingNeg(rc)))
      ensures r.Err? ==> lib.Dropped(raw, this)
      ensures r.Ok? ==> r.value == this && Valid()
                        && Filtered(old(Filters()) + [SubsystemDevtype(subsystem, Some(devtype))])
    {
      var s := OsStrToCString(subsystem);
      if s.Err? {
        Drop();
        return Err(s.error);
      }
      var t := OsStrToCString(devtype);
      if t.Err? {
        Drop();
        return Err(t.error);
      }
      r := Apply(Filters() + [SubsystemDevtype(s.value, Some(t.value))], rc);
    }

    /** `match_tag`. */
    method MatchTag(tag: Bytes, rc: CInt) returns (r: Result<Builder, IoError>)
      requires Valid()
      modifies lib
      ensures lib.Valid()
      ensures r.Err? <==> NUL in tag || rc < 0
      ensures r.Err? ==> r.error == (if NUL in tag then Os(EINVAL) else Os(WrappingNeg(rc)))
      ensures r.Err? ==> lib.Dropped(raw, this)
      ensures r.Ok? ==> r.value == this && Valid() && Filtered(old(Filters()) + [Tag(tag)])
    {
      var t := OsStrToCString(tag);
      if t.Err? {
        Drop();
        return Err(t.error);
      }
      r := Apply(Filters() + [Tag(t.value)], rc);
    }

    /** `clear_filters`: on success the same builder, with no filters at all. */
    method ClearFilters(rc: CInt) returns (r: Result<Builder, IoError>)
      requires Valid()
      modifies lib
      ensures lib.Valid()
      ensures r.Err? <==> rc < 0
      ensures r.Err? ==> r.error == Os(WrappingNeg(rc)) && lib.Dropped(raw, this)
      ensures r.Ok? ==> r.value == this && Valid() && r.value.Filters() == [] && Filtered([])
    {
      r := Apply([], rc);
    }

    /**
     * `listen`: `rc` is what `udev_monitor_enable_receiving` returned. On
     * success a socket over this builder, with the monitor receiving; on
     * failure the builder is dropped.
     */
    method Listen(rc: CInt) returns (r: Result<Socket, IoError>)
      requires Valid()
      modifies lib
      ensures lib.Valid()
      ensures r.Err? <==> rc < 0
      ensures r.Err? ==> r.error == Os(WrappingNeg(rc)) && lib.Dropped(raw, this)
      ensures r.Ok? ==> var s := r.value;
                        && fresh(s) && s.inner == this && s.Valid() && lib.objects[raw].receiving
                        && lib.objects == old(lib.objects)[raw := old(lib.objects[raw]).(receiving := true)]
                        && lib.refs == old(lib.refs) && lib.holders == old(lib.holders)
                        && lib.unwrapped == old(lib.unwrapped)
    {
      var e := ErrnoToResult(rc);
      if e.Err? {
        Drop();
        return Err(e.error);
      }
      lib.Update(raw, lib.objects[raw].(receiving := true));
      var s := new Socket(this);
      r := Ok(s);
    }
  }

  /** A listening monitor: the builder it was made from. */
  class Socket {
    const inner: Builder

    ghost predicate Valid()
      reads this, inner, inner.lib
    {
      inner.Valid()
    }

    constructor (inner: Builder)
      requires inner.Valid()
      ensures Valid() && this.inner == inner
    {
      this.inner := inner;
    }

    /** `clone`: a new builder over the same monitor, owning exactly one more reference. */
    method Clone() returns (c: Socket)
      requires Valid()
      modifies inner.lib
      ensures Valid() && fresh(c) && fresh(c.inner) && c.Valid()
      ensures c.inner.lib == inner.lib && c.inner.raw == inner.raw
      ensures inner.lib.refs == Inc(old(inner.lib.refs), inner.raw)
      ensures inner.lib.holders == With(old(inner.lib.holders), inner.raw, c.inner)
      ensures inner.lib.unwrapped == old(inner.lib.unwrapped) && inner.lib.objects == old(inner.lib.objects)
    {
      var lib := inner.lib;
      ghost var before := lib.unwrapped;
      var p := lib.Ref(inner.raw);
      var b := new Builder.FromRaw(lib, p);
      DecInc(before, inner.raw);
      c := new Socket(b);
    }

    /**
     * `into_raw` as written: it returns the monitor pointer and then drops
     * `self`, so the builder inside gives its reference back. The caller gets
     * a pointer that owns no reference.
     */
    method IntoRaw() returns (p: Id)
      requires Valid()
      modifies inner.lib
      ensures p == inner.raw && inner.lib.Valid() && inner.lib.Dropped(p, inner)
      ensures inner.lib.unwrapped[p] == old(inner.lib.unwrapped[p])
    {
      p := inner.raw;
      inner.Drop();
    }

    /**
     * `into_raw` as the raw-pointer round trip intends it: the builder's
     * reference passes to the pointer, and the count does not change.
     */
    method IntoRawOwned() returns (p: Id)
      requires Valid()
      modifies inner.lib
      ensures p == inner.raw && inner.lib.Valid() && !inner.lib.Holds(inner, p)
      ensures inner.lib.refs == old(inner.lib.refs) && inner.lib.objects == old(inner.lib.objects)
      ensures inner.lib.holders == Without(old(inner.lib.holders), p, inner)
      ensures inner.lib.unwrapped == Inc(old(inner.lib.unwrapped), p)
    {
      p := inner.raw;
      inner.lib.Release(p, inner);
    }

    /**
     * `next`: null from `udev_monitor_receive_device` (nothing queued) is
     * nothing; otherwise the first queued device, as an event whose device
     * owns the device reference and a context reference.
     */
    method Next() returns (r: Option<Event>)
      requires Valid()
      modifies inner.lib
      ensures Valid()
      ensures r.None? <==> old(inner.lib.objects[inner.raw].queue) == [] || inner.lib.outOfMemory
      ensures r.None? ==> inner.lib.Unchanged()
      ensures r.Some? ==> var d := r.value.device;
                          var q := old(inner.lib.objects[inner.raw].queue);
                          && fresh(r.value) && fresh(d) && fresh(d.udev) && d.Valid() && d.lib == inner.lib
                          && d.Record() == q[0] && inner.lib.objects[inner.raw].queue == q[1..]
      ensures r.Some? ==> var d := r.value.device;
                          var q := old(inner.lib.objects[inner.raw].queue);
                          && d.raw != d.udev.raw && d.raw !in old(inner.lib.refs) && d.udev.raw !in old(inner.lib.refs)
                          && inner.lib.refs == old(inner.lib.refs)[d.udev.raw := 1][d.raw := 1]
                          && inner.lib.objects == old(inner.lib.objects)[inner.raw := old(inner.lib.objects[inner.raw]).(queue := q[1..])]
                                                   [d.udev.raw := Libudev.Context][d.raw := Libudev.Device(q[0])]
                          && inner.lib.holders == old(inner.lib.holders)[d.udev.raw := {d.udev}][d.raw := {d}]
                          && inner.lib.unwrapped == old(inner.lib.unwrapped)[d.udev.raw := 0][d.raw := 0]
    {
      var lib := inner.lib;
      var got := lib.Receive(inner.raw);
      if got.None? {
        return None;
      }
      var (dev, ctx) := got.value;
      var e := Adopt(lib, dev, ctx);
      Overwrite<Id, set<object>>(old(lib.holders), ctx, dev, {}, {}, {e.device.udev}, {e.device});
      Overwrite<Id, nat>(old(lib.unwrapped), ctx, dev, 1, 1, 0, 0);
      r := Some(e);
    }
  }

  /** Two keys written twice: the second writes are all that show. */
  lemma Overwrite<K, V>(m: map<K, V>, a: K, b: K, x: V, y: V, x': V, y': V)
    ensures m[a := x][b := y][a := x'][b := y'] == m[a := x'][b := y']
  {
  }

  /**
   * `Device::from_raw` on a received device, and the event around it: the
   * device and its context each had one reference, owned by the bare
   * pointers; the new handles take both over.
   */
  method Adopt(lib: Library, dev: Id, ctx: Id) returns (e: Event)
    requires lib.Valid() && dev != ctx
    requires dev in lib.objects && lib.objects[dev].Device? && lib.refs[dev] == 1 && lib.unwrapped[dev] == 1
    requires ctx in lib.objects && lib.objects[ctx].Context? && lib.refs[ctx] == 1 && lib.unwrapped[ctx] == 1
    requires lib.holders[dev] == {} && lib.holders[ctx] == {}
    modifies lib
    ensures fresh(e) && fresh(e.device) && fresh(e.device.udev)
    ensures var d := e.device; d.Valid() && d.lib == lib && d.raw == dev && d.udev.raw == ctx
    ensures lib.refs == old(lib.refs) && lib.objects == old(lib.objects)
    ensures lib.holders == old(lib.holders)[ctx := {e.device.udev}][dev := {e.device}]
    ensures lib.unwrapped == old(lib.unwrapped)[ctx := 0][dev := 0]
  {
    var u := new Udev.Udev.FromRaw(lib, ctx);
    var d := new Device.Device.FromRaw(u, dev);
    e := new Event(d);
  }

  /** A received event: the device it is about. */
  class Event {
    const device: Device.Device

    constructor (device: Device.Device)
      ensures this.device == device
    {
      this.device := device;
    }

    /** `event_type`: the classification of the device's `ACTION` property. */
    function EventType(): (t: EventType)
      reads this, device, device.lib, device.udev
      requires device.Valid()
      ensures t == Classify(Lookup(DecodeAll(device.Record().properties), ActionKey()))
    {
      Classify(device.PropertyValue(ActionKey()))
    }

    /** `device`: a clone of the event's device. */
    method Device() returns (d: Device.Device)
      requires device.Valid()
      modifies device.lib
      ensures device.Valid() && fresh(d) && fresh(d.udev) && d.Valid()
      ensures d.lib == device.lib && d.raw == device.raw && d.Record() == device.Record()
      ensures d.udev.raw == device.udev.raw
      ensures device.lib.refs == Inc(Inc(old(device.lib.refs), device.udev.raw), device.raw)
      ensures device.lib.holders == With(With(old(device.lib.holders), device.udev.raw, d.udev), device.raw, d)
      ensures device.lib.unwrapped == old(device.lib.unwrapped) && device.lib.objects == old(device.lib.objects)
    {
      d := device.Clone();
    }
  }

  /**
   * The raw pointer `into_raw` hands out for a socket that owns the only
   * reference to its monitor: the monitor's count is already zero, so the
   * pointer is dangling.
   */
  method IntoRawDangles(lib: Library) returns (p: Option<Id>)
    requires lib.Valid()
    modifies lib
    ensures lib.Valid()
    ensures p.None? <==> lib.outOfMemory
    ensures p.Some? ==> p.value in lib.refs && !lib.Live(p.value)
  {
    var b := Builder.New(lib);
    if b.Err? {
      return None;
    }
    var s := b.value.Listen(0);
    var q := s.value.IntoRaw();
    p := Some(q);
  }

  /** The corrected hand-over keeps the monitor alive, its one reference owned by the pointer. */
  method IntoRawOwnedKeepsAlive(lib: Library) returns (p: Option<Id>)
    requires lib.Valid()
    modifies lib
    ensures lib.Valid()
    ensures p.None? <==> lib.outOfMemory
    ensures p.Some? ==> lib.Live(p.value) && lib.refs[p.value] == lib.unwrapped[p.value] == 1
  {
    var b := Builder.New(lib);
    if b.Err? {
      return None;
    }
    var s := b.value.Listen(0);
    var q := s.value.IntoRawOwned();
    p := Some(q);
  }

  /**
   * The monitor life cycle: a listening socket receives an event the kernel
   * delivers, as the device it describes, and then has nothing more.
   */
  method ReceiveDelivered(lib: Library, event: DeviceRecord) returns (first: Option<Event>, second: Option<Event>)
    requires lib.Valid() && !lib.outOfMemory
    modifies lib
    ensures first.Some? && first.value.device.Valid() && first.value.device.Record() == event
    ensures second.None?
  {
    var b := Builder.New(lib);
    var s := b.value.Listen(0);
    lib.Deliver(s.value.inner.raw, event);
    first := s.value.Next();
    second := s.value.Next();
  }
}
