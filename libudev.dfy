/**
 * The native libudev library as the binding sees it: an oracle. It hands out
 * object ids (non-null pointers), keeps a reference count per object, and
 * holds the per-object state the binding can observe (device records, the
 * enumerator's filters and scan list, the monitor's filters, receive flag and
 * queue). What libudev computes internally (sysfs reads, filter matching,
 * the netlink socket) is not modelled: the answers come from the constant
 * resolution table and hardware database given at creation, or from the
 * callers as the native return codes.
 *
 * A ghost ledger says who owns each counted reference: a wrapper handle
 * (`holders`) or a bare pointer outside any wrapper (`unwrapped`). The
 * library's invariant is that the native count is exactly the number of
 * owners, so every reference taken is released by exactly one owner.
 */
module Libudev {
  import opened Sys

  /** A non-null native pointer; null is `None` wherever a call may return it. */
  type Id = nat

  /** A `udev_list_entry` node: a name (never null) and an optional value. */
  datatype ListNode = ListNode(name: CStr, value: CPtr)

  /**
   * What the native getters of one `udev_device` return. libudev never
   * returns null for the syspath, devpath and sysname of a device.
   */
  datatype DeviceRecord = DeviceRecord(
    syspath: CStr, devpath: CStr, sysname: CStr, sysnum: CPtr,
    devnode: CPtr, subsystem: CPtr, devtype: CPtr, driver: CPtr, action: CPtr,
    devnum: DevT, initialized: CInt,
    properties: seq<ListNode>,
    sysattrList: seq<ListNode>,
    sysattrs: map<Bytes, CPtr>)

  /** The ways a device is looked up by the native constructors. */
  datatype DeviceKey =
    | BySyspath(syspath: Bytes)
    | BySubsystemSysname(subsystem: Bytes, sysname: Bytes)
    | ByDevnum(devType: Byte, devnum: DevT)

  /** A filter registered on a `udev_enumerate`. */
  datatype EnumFilter =
    | MatchIsInitialized
    | MatchSubsystem(subsystem: Bytes)
    | MatchSysattr(attribute: Bytes, value: Bytes)
    | MatchSysname(sysname: Bytes)
    | MatchProperty(property: Bytes, value: Bytes)
    | MatchTag(tag: Bytes)
    | MatchParent(parent: Id)
    | NomatchSubsystem(subsystem: Bytes)
    | NomatchSysattr(attribute: Bytes, value: Bytes)
    | AddSyspath(syspath: Bytes)

  /** A filter registered on a `udev_monitor`. */
  datatype MonitorFilter =
    | SubsystemDevtype(subsystem: Bytes, devtype: Option<Bytes>)
    | Tag(tag: Bytes)

  /** The native objects, by kind. */
  datatype Object =
    | Context
    | Device(record: DeviceRecord)
    | Enumerate(matches: seq<EnumFilter>, list: seq<ListNode>)
    | Monitor(filters: seq<MonitorFilter>, receiving: bool, queue: seq<DeviceRecord>)
    | Hwdb

  /** The bytes of a C string: those before its terminating NUL. */
  function Text(s: CStr): Bytes {
    s[..Strlen(s)]
  }

  /** The bytes a C string comparison in libudev sees (none for null). */
  function CBytes(p: CPtr): Bytes {
    if p.Null? then [] else Text(p.mem)
  }

  /** `udev_device_get_property_value`: the value of the first property with that name. */
  function GetPropertyValue(r: DeviceRecord, name: Bytes): CPtr {
    FindValue(r.properties, name)
  }

  function FindValue(nodes: seq<ListNode>, name: Bytes): CPtr {
    if nodes == [] then Null
    else if Text(nodes[0].name) == name then nodes[0].value
    else FindValue(nodes[1..], name)
  }

  /** `udev_device_get_sysattr_value`: null when the attribute is not there. */
  function GetSysattrValue(r: DeviceRecord, name: Bytes): CPtr {
    if name in r.sysattrs then r.sysattrs[name] else Null
  }

  /** `udev_hwdb_get_properties_list_entry`: an empty (null) list when nothing matches. */
  function HwdbQuery(hwdb: map<Bytes, seq<ListNode>>, modalias: Bytes): seq<ListNode> {
    if modalias in hwdb then hwdb[modalias] else []
  }

  function Inc(m: map<Id, nat>, id: Id): map<Id, nat>
    requires id in m
  {
    m[id := m[id] + 1]
  }

  function Dec(m: map<Id, nat>, id: Id): map<Id, nat>
    requires id in m
  {
    m[id := if m[id] > 0 then m[id] - 1 else 0]
  }

  ghost function With(h: map<Id, set<object>>, id: Id, o: object): map<Id, set<object>>
    requires id in h
  {
    h[id := h[id] + {o}]
  }

  ghost function Without(h: map<Id, set<object>>, id: Id, o: object): map<Id, set<object>>
    requires id in h
  {
    h[id := h[id] - {o}]
  }

  /** A reference taken and given back leaves the count where it was. */
  lemma DecInc(m: map<Id, nat>, id: Id)
    requires id in m
    ensures Dec(Inc(m, id), id) == m
  {
    assert Dec(Inc(m, id), id)[id] == m[id];
  }

  /** An owner added and removed again leaves the owners as they were. */
  lemma WithoutWith(h: map<Id, set<object>>, id: Id, o: object)
    requires id in h && o !in h[id]
    ensures Without(With(h, id, o), id, o) == h
  {
    assert Without(With(h, id, o), id, o)[id] == h[id];
  }

  /** The library's observable maps at one moment, kept to compare two moments. */
  datatype Snapshot = Snapshot(
    refs: map<Id, nat>, objects: map<Id, Object>, holders: map<Id, set<object>>, unwrapped: map<Id, nat>)

  /**
   * From `s` to `t` only new objects appeared: every object of `s` keeps its
   * count, state and owners, and every new one outside `kept` was freed again.
   */
  ghost predicate Grown(s: Snapshot, t: Snapshot, kept: set<Id>) {
    && (forall id :: id in s.refs ==>
          && id in t.refs && t.refs[id] == s.refs[id]
          && id in s.objects && id in t.objects && t.objects[id] == s.objects[id]
          && id in s.holders && id in t.holders && t.holders[id] == s.holders[id]
          && id in s.unwrapped && id in t.unwrapped && t.unwrapped[id] == s.unwrapped[id])
    && (forall id :: id in t.refs && id !in s.refs && id !in kept ==> t.refs[id] == 0)
  }

  /** Growth that kept nothing, followed by growth that kept `kept`, kept only `kept`. */
  lemma GrownTrans(a: Snapshot, b: Snapshot, c: Snapshot, kept: set<Id>)
    requires Grown(a, b, {}) && Grown(b, c, kept)
    ensures Grown(a, c, kept)
  {
  }

  /** Two new objects `a` and `b`, and no other change: growth that kept exactly those two. */
  lemma PairGrown(s: Snapshot, t: Snapshot, a: Id, b: Id, oa: Object, ob: Object, ha: set<object>, hb: set<object>)
    requires s.refs.Keys == s.objects.Keys == s.holders.Keys == s.unwrapped.Keys
    requires a !in s.refs && b !in s.refs
    requires t.refs == s.refs[b := 1][a := 1] && t.objects == s.objects[b := ob][a := oa]
    requires t.holders == s.holders[b := hb][a := ha] && t.unwrapped == s.unwrapped[b := 0][a := 0]
    ensures Grown(s, t, {a, b})
  {
  }

  class Library {
    /** The kernel's view of devices: which lookups resolve, and to what. */
    const table: map<DeviceKey, DeviceRecord>
    /** The hardware database: the property list each modalias query returns. */
    const hwdb: map<Bytes, seq<ListNode>>
    /** When set, every native allocation returns null. */
    const outOfMemory: bool

    var refs: map<Id, nat>
    var objects: map<Id, Object>
    var next: Id

    ghost var holders: map<Id, set<object>>
    ghost var unwrapped: map<Id, nat>

    ghost predicate Valid()
      reads this
    {
      && refs.Keys == objects.Keys == holders.Keys == unwrapped.Keys
      && (forall id :: id in refs ==> id < next)
      && (forall id :: id in refs ==> refs[id] == |holders[id]| + unwrapped[id])
    }

    /**
     * Since the old state, only new objects appeared: every object that existed
     * keeps its state, its count and its owners.
     */
    twostate predicate Extends()
      requires old(Valid()) && Valid()
      reads this
    {
      forall id :: id in old(refs) ==>
        && id in refs && refs[id] == old(refs[id]) && objects[id] == old(objects[id])
        && holders[id] == old(holders[id]) && unwrapped[id] == old(unwrapped[id])
    }

    /** Every object created since the old state, other than those in `kept`, was freed again. */
    twostate predicate FreedSince(kept: set<Id>)
      reads this
    {
      forall id :: id in refs && id !in old(refs) && id !in kept ==> refs[id] == 0
    }

    /** The observable maps, as a value. */
    ghost function Snap(): (s: Snapshot)
      reads this
      ensures s.refs == refs && s.objects == objects && s.holders == holders && s.unwrapped == unwrapped
    {
      Snapshot(refs, objects, holders, unwrapped)
    }

    /** `Extends` and `FreedSince` together, read on snapshots. */
    twostate lemma GrownSince(kept: set<Id>)
      requires old(Valid()) && Valid() && Extends() && FreedSince(kept)
      ensures Grown(old(Snap()), Snap(), kept)
    {
    }

    /** And back. */
    twostate lemma SinceGrown(kept: set<Id>)
      requires old(Valid()) && Valid() && Grown(old(Snap()), Snap(), kept)
      ensures Extends() && FreedSince(kept)
    {
    }

    /** Nothing observable changed. */
    twostate predicate Unchanged()
      reads this
    {
      refs == old(refs) && objects == old(objects) && holders == old(holders) && unwrapped == old(unwrapped)
    }

    /** One new object `obj` appeared, with its single reference owned by `o`. */
    twostate predicate Created(id: Id, new o: object, obj: Object)
      reads this
    {
      && id !in old(refs)
      && refs == old(refs)[id := 1] && objects == old(objects)[id := obj]
      && holders == old(holders)[id := {o}] && unwrapped == old(unwrapped)[id := 0]
    }

    /** One new object `obj` appeared, with its single reference held by a bare pointer. */
    twostate predicate Allocated(id: Id, obj: Object)
      reads this
    {
      && id !in old(refs)
      && refs == old(refs)[id := 1] && objects == old(objects)[id := obj]
      && holders == old(holders)[id := {}] && unwrapped == old(unwrapped)[id := 1]
    }

    /** Owner `o` gave its reference to `id` back: one reference less, nothing else changed. */
    twostate predicate Dropped(id: Id, o: object)
      reads this
    {
      && id in old(refs) && id in old(holders) && o in old(holders[id])
      && refs == Dec(old(refs), id) && holders == Without(old(holders), id, o)
      && objects == old(objects) && unwrapped == old(unwrapped)
    }

    /** `o` is a live wrapper owning one reference to `id`. */
    ghost predicate Holds(o: object, id: Id)
      reads this
    {
      id in holders && o in holders[id]
    }

    /** An object with at least one reference: its memory is still valid. */
    predicate Live(id: Id)
      reads this
    {
      id in refs && refs[id] > 0
    }

    /** Whether a lookup would find a device. */
    predicate Resolves(key: DeviceKey) {
      !outOfMemory && key in table
    }

    constructor (table: map<DeviceKey, DeviceRecord>, hwdb: map<Bytes, seq<ListNode>>, outOfMemory: bool)
      ensures Valid()
      ensures this.table == table && this.hwdb == hwdb && this.outOfMemory == outOfMemory
      ensures refs == map[] && objects == map[]
    {
      this.table, this.hwdb, this.outOfMemory := table, hwdb, outOfMemory;
      refs, objects, next := map[], map[], 0;
      holders, unwrapped := map[], map[];
    }

    /** Every owner of a reference keeps the object alive. */
    lemma HolderKeepsAlive(o: object, id: Id)
      requires Valid() && Holds(o, id)
      ensures Live(id)
    {
      assert holders[id] != {};
    }

    /**
     * A native constructor: null when memory is exhausted, else a fresh
     * object with count one, owned by the pointer returned.
     */
    method Alloc(o: Object) returns (p: Option<Id>)
      requires Valid()
      modifies this
      ensures Valid()
      ensures p.None? <==> outOfMemory
      ensures p.None? ==> refs == old(refs) && objects == old(objects)
                          && holders == old(holders) && unwrapped == old(unwrapped)
      ensures p.Some? ==> p.value !in old(refs)
                          && refs == old(refs)[p.value := 1]
                          && objects == old(objects)[p.value := o]
                          && holders == old(holders)[p.value := {}]
                          && unwrapped == old(unwrapped)[p.value := 1]
    {
      if outOfMemory {
        return None;
      }
      var id := next;
      refs, objects, next := refs[id := 1], objects[id := o], next + 1;
      holders, unwrapped := holders[id := {}], unwrapped[id := 1];
      p := Some(id);
    }

    /** `udev_device_new_from_*`: null unless the lookup resolves. */
    method NewDevice(key: DeviceKey) returns (p: Option<Id>)
      requires Valid()
      modifies this
      ensures Valid()
      ensures p.Some? <==> Resolves(key)
      ensures p.None? ==> refs == old(refs) && objects == old(objects)
                          && holders == old(holders) && unwrapped == old(unwrapped)
      ensures p.Some? ==> p.value !in old(refs)
                          && refs == old(refs)[p.value := 1]
                          && objects == old(objects)[p.value := Device(table[key])]
                          && holders == old(holders)[p.value := {}]
                          && unwrapped == old(unwrapped)[p.value := 1]
    {
      if key in table {
        p := Alloc(Device(table[key]));
      } else {
        p := None;
      }
    }

    /** `*_ref`: one more reference, owned by the pointer it returns. */
    method Ref(id: Id) returns (p: Id)
      requires Valid() && Live(id)
      modifies this
      ensures Valid() && p == id
      ensures refs == Inc(old(refs), id) && unwrapped == Inc(old(unwrapped), id)
      ensures objects == old(objects) && holders == old(holders)
    {
      refs := refs[id := refs[id] + 1];
      unwrapped := unwrapped[id := unwrapped[id] + 1];
      p := id;
    }

    /** `*_unref`: gives back a reference owned by a bare pointer; at zero the object is freed. */
    method Unref(id: Id)
      requires Valid() && id in refs && unwrapped[id] > 0
      modifies this
      ensures Valid()
      ensures refs == Dec(old(refs), id) && refs[id] == old(refs[id]) - 1
      ensures unwrapped == Dec(old(unwrapped), id)
      ensures objects == old(objects) && holders == old(holders)
    {
      refs := refs[id := refs[id] - 1];
      unwrapped := unwrapped[id := unwrapped[id] - 1];
    }

    /** A wrapper's drop: `*_unref` on the reference wrapper `o` owned. */
    method UnrefHeld(id: Id, o: object)
      requires Valid() && Holds(o, id)
      modifies this
      ensures Valid() && !Holds(o, id)
      ensures refs == Dec(old(refs), id) && refs[id] == old(refs[id]) - 1
      ensures holders == Without(old(holders), id, o)
      ensures objects == old(objects) && unwrapped == old(unwrapped)
    {
      ghost var before := unwrapped;
      Release(id, o);
      Unref(id);
      DecInc(before, id);
    }

    /** `from_raw`: wrapper `o` takes over a reference a bare pointer owned. */
    ghost method Adopt(id: Id, o: object)
      requires Valid() && id in refs && unwrapped[id] > 0 && o !in holders[id]
      modifies this
      ensures Valid()
      ensures holders == With(old(holders), id, o) && unwrapped == Dec(old(unwrapped), id)
      ensures refs == old(refs) && objects == old(objects)
    {
      holders := holders[id := holders[id] + {o}];
      unwrapped := unwrapped[id := unwrapped[id] - 1];
    }

    /** The reverse: wrapper `o` gives up its reference to a bare pointer (drop, `into_raw`). */
    ghost method Release(id: Id, o: object)
      requires Valid() && Holds(o, id)
      modifies this
      ensures Valid()
      ensures holders == Without(old(holders), id, o) && unwrapped == Inc(old(unwrapped), id)
      ensures refs == old(refs) && objects == old(objects)
    {
      holders := holders[id := holders[id] - {o}];
      unwrapped := unwrapped[id := unwrapped[id] + 1];
    }

    /** A native call that changes an object's state, not its references. */
    method Update(id: Id, o: Object)
      requires Valid() && id in objects
      modifies this
      ensures Valid()
      ensures objects == old(objects)[id := o]
      ensures refs == old(refs) && holders == old(holders) && unwrapped == old(unwrapped)
    {
      objects := objects[id := o];
    }

    /** An event the kernel delivers to a listening monitor joins its receive queue. */
    method Deliver(m: Id, event: DeviceRecord)
      requires Valid() && m in objects && objects[m].Monitor?
      modifies this
      ensures Valid()
      ensures objects == old(objects)[m := old(objects[m]).(queue := old(objects[m]).queue + [event])]
      ensures refs == old(refs) && holders == old(holders) && unwrapped == old(unwrapped)
    {
      objects := objects[m := objects[m].(queue := objects[m].queue + [event])];
    }

    /**
     * `udev_monitor_receive_device`: null when nothing is queued (or memory is
     * exhausted); otherwise the first queued event leaves the queue as a new
     * device object, handed over with one reference together with a reference
     * to a context for it.
     */
    method Receive(m: Id) returns (got: Option<(Id, Id)>)
      requires Valid() && m in objects && objects[m].Monitor?
      modifies this
      ensures Valid()
      ensures got.None? <==> old(objects[m]).queue == [] || outOfMemory
      ensures got.None? ==> refs == old(refs) && objects == old(objects)
                            && holders == old(holders) && unwrapped == old(unwrapped)
      ensures got.Some? ==>
        var (dev, ctx) := got.value;
        var q := old(objects[m]).queue;
        && dev != ctx && dev !in old(refs) && ctx !in old(refs) && q != []
        && refs == old(refs)[ctx := 1][dev := 1]
        && objects == old(objects)[m := old(objects[m]).(queue := q[1..])][ctx := Context][dev := Device(q[0])]
        && holders == old(holders)[ctx := {}][dev := {}]
        && unwrapped == old(unwrapped)[ctx := 1][dev := 1]
    {
      var q := objects[m].queue;
      if q == [] || outOfMemory {
        return None;
      }
      Update(m, objects[m].(queue := q[1..]));
      var ctx := Alloc(Context);
      var dev := Alloc(Device(q[0]));
      got := Some((dev.value, ctx.value));
    }
  }
}
