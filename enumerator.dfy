/**
 * src/enumerator.rs: the `Enumerator` handle and its `Devices` iterator. An
 * enumerator owns one native reference to a `udev_enumerate` and a `Udev`
 * handle for its context. Filters accumulate on the native object; a scan
 * fills its device list, which `Devices` walks, turning each syspath into a
 * `Device` of its own (with a context of its own) and skipping the ones that
 * no longer resolve.
 */
module Enumerator {
  import opened Sys
  import opened Util
  import opened Libudev
  import opened List
  import Udev
  import Device

  /** The lookup `Devices::next` makes for a list node: by the node's name, as a syspath. */
  function SyspathKey(n: ListNode): (k: DeviceKey)
    ensures k.BySyspath? && k.syspath == Decode(n).name && NUL !in k.syspath
  {
    BySyspath(PtrToOsStrUnchecked(At(n.name)))
  }

  /**
   * `d` is a device made for `key` whose device and context references are
   * each held by `d` (and its `udev`) alone.
   */
  ghost predicate SoleOwner(lib: Library, d: Device.Device, key: DeviceKey)
    reads lib, d, d.udev
  {
    && d.lib == lib && d.Valid() && key in lib.table && d.Record() == lib.table[key]
    && lib.refs[d.raw] == 1 && lib.holders[d.raw] == {d}
    && lib.refs[d.udev.raw] == 1 && lib.holders[d.udev.raw] == {d.udev}
  }

  class Enumerator {
    const udev: Udev.Udev
    const lib: Library
    const raw: Id

    /** A live enumerator handle over a live context handle of the same library. */
    ghost predicate Valid()
      reads this, lib, udev
    {
      && udev.lib == lib && udev.Valid()
      && raw in lib.objects && lib.objects[raw].Enumerate? && lib.Holds(this, raw)
    }

    /** The filters registered so far, in the order they were added. */
    function Filters(): seq<EnumFilter>
      reads this, lib
      requires raw in lib.objects && lib.objects[raw].Enumerate?
    {
      lib.objects[raw].matches
    }

    /** The device list the last scan produced. */
    function Scanned(): seq<ListNode>
      reads this, lib
      requires raw in lib.objects && lib.objects[raw].Enumerate?
    {
      lib.objects[raw].list
    }

    /**
     * Filter `f` was registered: the enumerator's filters grew by exactly `f`,
     * and nothing else in the library changed.
     */
    twostate predicate Added(f: EnumFilter)
      reads this, lib
      requires old(raw in lib.objects && lib.objects[raw].Enumerate?)
    {
      && lib.objects == old(lib.objects)[raw := Enumerate(old(Filters()) + [f], old(Scanned()))]
      && lib.refs == old(lib.refs) && lib.holders == old(lib.holders) && lib.unwrapped == old(lib.unwrapped)
    }

    /** `from_raw_with_context`: the handle takes over the pointer's reference and the context handle. */
    constructor FromRaw(udev: Udev.Udev, p: Id)
      requires udev.Valid()
      requires p in udev.lib.objects && udev.lib.objects[p].Enumerate? && udev.lib.unwrapped[p] > 0
      modifies udev.lib
      ensures Valid() && this.udev == udev && lib == udev.lib && raw == p
      ensures lib.holders == With(old(udev.lib.holders), p, this)
      ensures lib.unwrapped == Dec(old(udev.lib.unwrapped), p)
      ensures lib.refs == old(udev.lib.refs) && lib.objects == old(udev.lib.objects)
    {
      this.udev := udev;
      lib := udev.lib;
      raw := p;
      new;
      lib.Adopt(p, this);
    }

    /**
     * `with_udev`: null from `udev_enumerate_new` is an error, and the context
     * handle moved in is dropped; else the new enumerator keeps that context.
     */
    static method WithUdev(udev: Udev.Udev) returns (r: Result<Enumerator, IoError>)
      requires udev.Valid()
      modifies udev.lib
      ensures udev.lib.Valid()
      ensures r.Err? <==> udev.lib.outOfMemory
      ensures r.Err? ==> r.error == AllocFailed && udev.lib.Dropped(udev.raw, udev)
      ensures r.Ok? ==> var e := r.value;
                        && fresh(e) && e.Valid() && e.udev == udev && e.Filters() == [] && e.Scanned() == []
                        && udev.lib.Created(e.raw, e, Enumerate([], []))
    {
      var lib := udev.lib;
      var p := lib.Alloc(Enumerate([], []));
      if p.None? {
        udev.Drop();
        return Err(AllocFailed);
      }
      var e := new Enumerator.FromRaw(udev, p.value);
      r := Ok(e);
    }

    /** `new`: a new context, then `with_udev`; a failure leaves the library as it was. */
    static method New(lib: Library) returns (r: Result<Enumerator, IoError>)
      requires lib.Valid()
      modifies lib
      ensures lib.Valid()
      ensures r.Err? <==> lib.outOfMemory
      ensures r.Err? ==> r.error == AllocFailed && lib.Unchanged()
      ensures r.Ok? ==> var e := r.value;
                        && fresh(e) && fresh(e.udev) && e.Valid() && e.lib == lib
                        && e.Filters() == [] && e.Scanned() == [] && e.raw != e.udev.raw
                        && e.raw !in old(lib.refs) && e.udev.raw !in old(lib.refs)
                        && lib.refs == old(lib.refs)[e.udev.raw := 1][e.raw := 1]
                        && lib.holders == old(lib.holders)[e.udev.raw := {e.udev}][e.raw := {e}]
                        && lib.unwrapped == old(lib.unwrapped)[e.udev.raw := 0][e.raw := 0]
                        && lib.objects == old(lib.objects)[e.udev.raw := Libudev.Context][e.raw := Enumerate([], [])]
    {
      var u := Udev.Udev.New(lib);
      if u.Err? {
        return Err(u.error);
      }
      r := WithUdev(u.value);
    }

    /** `clone`: one more reference to the enumerator and, through the cloned `udev`, to its context. */
    method Clone() returns (c: Enumerator)
      requires Valid()
      modifies lib
      ensures Valid() && fresh(c) && fresh(c.udev) && c.Valid()
      ensures c.lib == lib && c.raw == raw && c.udev.raw == udev.raw
      ensures lib.refs == Inc(Inc(old(lib.refs), udev.raw), raw)
      ensures lib.holders == With(With(old(lib.holders), udev.raw, c.udev), raw, c)
      ensures lib.unwrapped == old(lib.unwrapped) && lib.objects == old(lib.objects)
    {
      var u := udev.Clone();
      ghost var before := lib.unwrapped;
      var p := lib.Ref(raw);
      c := new Enumerator.FromRaw(u, p);
      DecInc(before, raw);
    }

    /** `drop`: one enumerator reference less, and then the `udev` field's drop. */
    method Drop()
      requires Valid()
      modifies lib
      ensures lib.Valid() && !lib.Holds(this, raw) && !lib.Holds(udev, udev.raw)
      ensures lib.refs == Dec(Dec(old(lib.refs), raw), udev.raw)
      ensures lib.holders == Without(Without(old(lib.holders), raw, this), udev.raw, udev)
      ensures lib.unwrapped == old(lib.unwrapped) && lib.objects == old(lib.objects)
    {
      lib.UnrefHeld(raw, this);
      udev.Drop();
    }

    /**
     * One `udev_enumerate_add_*` call with return code `rc`, read by
     * `errno_to_result`: the filter is registered exactly when the call succeeds.
     */
    method Register(f: EnumFilter, rc: CInt) returns (r: Result<Unit, IoError>)
      requires Valid()
      modifies lib
      ensures Valid()
      ensures r == ErrnoToResult(rc)
      ensures r.Ok? ==> Added(f)
      ensures r.Err? ==> lib.Unchanged()
    {
      r := ErrnoToResult(rc);
      if r.Ok? {
        lib.Update(raw, Enumerate(Filters() + [f], Scanned()));
      }
    }

    /** `match_is_initialized`. */
    method MatchIsInitialized(rc: CInt) returns (r: Result<Unit, IoError>)
      requires Valid()
      modifies lib
      ensures Valid()
      ensures r == ErrnoToResult(rc)
      ensures r.Ok? ==> Added(EnumFilter.MatchIsInitialized)
      ensures r.Err? ==> lib.Unchanged()
    {
      r := Register(EnumFilter.MatchIsInitialized, rc);
    }

    /** `match_subsystem`: EINVAL and no native call for a name with NUL. */
    method MatchSubsystem(subsystem: Bytes, rc: CInt) returns (r: Result<Unit, IoError>)
      requires Valid()
      modifies lib
      ensures Valid()
      ensures NUL in subsystem ==> r == Err(Os(EINVAL))
      ensures NUL !in subsystem ==> r == ErrnoToResult(rc)
      ensures r.Ok? ==> Added(EnumFilter.MatchSubsystem(subsystem))
      ensures r.Err? ==> lib.Unchanged()
    {
      var s := OsStrToCString(subsystem);
      if s.Err? {
        return Err(s.error);
      }
      r := Register(EnumFilter.MatchSubsystem(s.value), rc);
    }

    /** `match_attribute`: both strings are checked before the native call. */
    method MatchAttribute(attribute: Bytes, value: Bytes, rc: CInt) returns (r: Result<Unit, IoError>)
      requires Valid()
      modifies lib
      ensures Valid()
      ensures NUL in attribute || NUL in value ==> r == Err(Os(EINVAL))
      ensures NUL !in attribute && NUL !in value ==> r == ErrnoToResult(rc)
      ensures r.Ok? ==> Added(MatchSysattr(attribute, value))
      ensures r.Err? ==> lib.Unchanged()
    {
      var a := OsStrToCString(attribute);
      if a.Err? {
        return Err(a.error);
      }
      var v := OsStrToCString(value);
      if v.Err? {
        return Err(v.error);
      }
      r := Register(MatchSysattr(a.value, v.value), rc);
    }

    /** `match_sysname`. */
    method MatchSysname(sysname: Bytes, rc: CInt) returns (r: Result<Unit, IoError>)
      requires Valid()
      modifies lib
      ensures Valid()
      ensures NUL in sysname ==> r == Err(Os(EINVAL))
      ensures NUL !in sysname ==> r == ErrnoToResult(rc)
      ensures r.Ok? ==> Added(EnumFilter.MatchSysname(sysname))
      ensures r.Err? ==> lib.Unchanged()
    {
      var s := OsStrToCString(sysname);
      if s.Err? {
        return Err(s.error);
      }
      r := Register(EnumFilter.MatchSysname(s.value), rc);
    }

    /** `match_property`. */
    method MatchProperty(property: Bytes, value: Bytes, rc: CInt) returns (r: Result<Unit, IoError>)
      requires Valid()
      modifies lib
      ensures Valid()
      ensures NUL in property || NUL in value ==> r == Err(Os(EINVAL))
      ensures NUL !in property && NUL !in value ==> r == ErrnoToResult(rc)
      ensures r.Ok? ==> Added(EnumFilter.MatchProperty(property, value))
      ensures r.Err? ==> lib.Unchanged()
    {
      var p := OsStrToCString(property);
      if p.Err? {
        return Err(p.error);
      }
      var v := OsStrToCString(value);
      if v.Err? {
        return Err(v.error);
      }
      r := Register(EnumFilter.MatchProperty(p.value, v.value), rc);
    }

    /** `match_tag`. */
    method MatchTag(tag: Bytes, rc: CInt) returns (r: Result<Unit, IoError>)
      requires Valid()
      modifies lib
      ensures Valid()
      ensures NUL in tag ==> r == Err(Os(EINVAL))
      ensures NUL !in tag ==> r == ErrnoToResult(rc)
      ensures r.Ok? ==> Added(EnumFilter.MatchTag(tag))
      ensures r.Err? ==> lib.Unchanged()
    {
      var t := OsStrToCString(tag);
      if t.Err? {
        return Err(t.error);
      }
      r := Register(EnumFilter.MatchTag(t.value), rc);
    }

    /** `match_parent`: the filter names the parent's native device; there is no string to check. */
    method MatchParent(parent: Device.Device, rc: CInt) returns (r: Result<Unit, IoError>)
      requires Valid() && parent.Valid() && parent.lib == lib
      modifies lib
      ensures Valid()
      ensures r == ErrnoToResult(rc)
      ensures r.Ok? ==> Added(EnumFilter.MatchParent(parent.raw))
      ensures r.Err? ==> lib.Unchanged()
    {
      r := Register(EnumFilter.MatchParent(parent.raw), rc);
    }

    /** `nomatch_subsystem`. */
    method NomatchSubsystem(subsystem: Bytes, rc: CInt) returns (r: Result<Unit, IoError>)
      requires Valid()
      modifies lib
      ensures Valid()
      ensures NUL in subsystem ==> r == Err(Os(EINVAL))
      ensures NUL !in subsystem ==> r == ErrnoToResult(rc)
      ensures r.Ok? ==> Added(EnumFilter.NomatchSubsystem(subsystem))
      ensures r.Err? ==> lib.Unchanged()
    {
      var s := OsStrToCString(subsystem);
      if s.Err? {
        return Err(s.error);
      }
      r := Register(EnumFilter.NomatchSubsystem(s.value), rc);
    }

    /** `nomatch_attribute`. */
    method NomatchAttribute(attribute: Bytes, value: Bytes, rc: CInt) returns (r: Result<Unit, IoError>)
      requires Valid()
      modifies lib
      ensures Valid()
      ensures NUL in attribute || NUL in value ==> r == Err(Os(EINVAL))
      ensures NUL !in attribute && NUL !in value ==> r == ErrnoToResult(rc)
      ensures r.Ok? ==> Added(NomatchSysattr(attribute, value))
      ensures r.Err? ==> lib.Unchanged()
    {
      var a := OsStrToCString(attribute);
      if a.Err? {
        return Err(a.error);
      }
      var v := OsStrToCString(value);
      if v.Err? {
        return Err(v.error);
      }
      r := Register(NomatchSysattr(a.value, v.value), rc);
    }

    /** `add_syspath`. */
    method AddSyspath(syspath: Bytes, rc: CInt) returns (r: Result<Unit, IoError>)
      requires Valid()
      modifies lib
      ensures Valid()
      ensures NUL in syspath ==> r == Err(Os(EINVAL))
      ensures NUL !in syspath ==> r == ErrnoToResult(rc)
      ensures r.Ok? ==> Added(EnumFilter.AddSyspath(syspath))
      ensures r.Err? ==> lib.Unchanged()
    {
      var s := OsStrToCString(syspath);
      if s.Err? {
        return Err(s.error);
      }
      r := Register(EnumFilter.AddSyspath(s.value), rc);
    }

    /**
     * `scan_devices`: `rc` is what `udev_enumerate_scan_devices` returned and
     * `found` the list it produced. A failing scan is the native error and
     * changes nothing; a successful one yields an iterator at the list's head.
     */
    method ScanDevices(rc: CInt, found: seq<ListNode>) returns (r: Result<Devices, IoError>)
      requires Valid()
      modifies lib
      ensures Valid()
      ensures r.Err? <==> rc < 0
      ensures r.Err? ==> r.error == Os(WrappingNeg(rc)) && lib.Unchanged()
      ensures r.Ok? ==> var ds := r.value;
                        && fresh(ds) && ds.Valid() && ds.lib == lib && ds.nodes == found && ds.pos == 0
                        && lib.objects == old(lib.objects)[raw := Enumerate(old(Filters()), found)]
                        && lib.refs == old(lib.refs) && lib.holders == old(lib.holders)
                        && lib.unwrapped == old(lib.unwrapped)
    {
      var s := ErrnoToResult(rc);
      if s.Err? {
        return Err(s.error);
      }
      lib.Update(raw, Enumerate(Filters(), found));
      var ds := new Devices(lib, Scanned());
      r := Ok(ds);
    }
  }

  /**
   * The devices a scanned list yields: for each node in list order, the
   * device its syspath resolves to, with the nodes that do not resolve left out.
   */
  function Found(lib: Library, nodes: seq<ListNode>): (rs: seq<DeviceRecord>)
    ensures |rs| <= |nodes|
  {
    if nodes == [] then []
    else
      var k := SyspathKey(nodes[0]);
      (if lib.Resolves(k) then [lib.table[k]] else []) + Found(lib, nodes[1..])
  }

  /** Nodes that do not resolve contribute nothing. */
  lemma {:induction false} FoundSkips(lib: Library, nodes: seq<ListNode>, p: nat, q: nat)
    requires p <= q <= |nodes|
    requires forall i :: p <= i < q ==> !lib.Resolves(SyspathKey(nodes[i]))
    ensures Found(lib, nodes[p..]) == Found(lib, nodes[q..])
    decreases q - p
  {
    if p < q {
      assert nodes[p..][1..] == nodes[p + 1..];
      FoundSkips(lib, nodes, p + 1, q);
    }
  }

  /** A node that resolves contributes its device, ahead of the rest of the list. */
  lemma FoundHead(lib: Library, nodes: seq<ListNode>, q: nat)
    requires q < |nodes| && lib.Resolves(SyspathKey(nodes[q]))
    ensures Found(lib, nodes[q..]) == [lib.table[SyspathKey(nodes[q])]] + Found(lib, nodes[q + 1..])
  {
    assert nodes[q..][1..] == nodes[q + 1..];
  }

  /**
   * The positions, from `i` on, of the nodes whose syspath resolves: strictly
   * increasing, each one resolving, and every resolving position among them.
   */
  function Hits(lib: Library, nodes: seq<ListNode>, i: nat): (h: seq<nat>)
    requires i <= |nodes|
    ensures forall k :: 0 <= k < |h| ==> i <= h[k] < |nodes| && lib.Resolves(SyspathKey(nodes[h[k]]))
    decreases |nodes| - i
  {
    if i == |nodes| then []
    else (if lib.Resolves(SyspathKey(nodes[i])) then [i] else []) + Hits(lib, nodes, i + 1)
  }

  /** Each position comes before every later one. */
  ghost predicate Increasing(h: seq<nat>) {
    forall k, l :: 0 <= k < l < |h| ==> h[k] < h[l]
  }

  /** The positions `Hits` lists are strictly increasing. */
  lemma {:induction false} HitsIncreasing(lib: Library, nodes: seq<ListNode>, i: nat)
    requires i <= |nodes|
    ensures Increasing(Hits(lib, nodes, i))
    decreases |nodes| - i
  {
    if i < |nodes| {
      HitsIncreasing(lib, nodes, i + 1);
      var rest := Hits(lib, nodes, i + 1);
      var h := Hits(lib, nodes, i);
      if lib.Resolves(SyspathKey(nodes[i])) {
        assert h == [i] + rest;
        forall k, l | 0 <= k < l < |h| ensures h[k] < h[l] {
          assert h[l] == rest[l - 1] && i + 1 <= rest[l - 1];
          if k > 0 {
            assert h[k] == rest[k - 1] && rest[k - 1] < rest[l - 1];
          }
        }
      } else {
        assert h == rest;
      }
    }
  }

  /** Every position from `i` on whose syspath resolves is among `Hits`. */
  lemma {:induction false} HitsComplete(lib: Library, nodes: seq<ListNode>, i: nat)
    requires i <= |nodes|
    ensures forall j :: i <= j < |nodes| && lib.Resolves(SyspathKey(nodes[j])) ==> j in Hits(lib, nodes, i)
    decreases |nodes| - i
  {
    if i < |nodes| {
      HitsComplete(lib, nodes, i + 1);
      var rest := Hits(lib, nodes, i + 1);
      assert Hits(lib, nodes, i) == (if lib.Resolves(SyspathKey(nodes[i])) then [i] else []) + rest;
    }
  }

  /**
   * The yielded devices are a subsequence of the scanned list, in its order:
   * the `k`-th is the device of the `k`-th node that resolves.
   */
  lemma {:induction false} FoundInOrder(lib: Library, nodes: seq<ListNode>, i: nat)
    requires i <= |nodes|
    ensures |Found(lib, nodes[i..])| == |Hits(lib, nodes, i)|
    ensures forall k :: 0 <= k < |Hits(lib, nodes, i)| ==>
              Found(lib, nodes[i..])[k] == lib.table[SyspathKey(nodes[Hits(lib, nodes, i)[k]])]
    decreases |nodes| - i
  {
    if i < |nodes| {
      FoundInOrder(lib, nodes, i + 1);
      assert nodes[i..][1..] == nodes[i + 1..];
    }
  }

  /**
   * The `Devices` iterator (`List<Enumerator, Device>`): a cursor into the
   * scanned list; `pos == |nodes|` is the null cursor.
   */
  class Devices {
    const lib: Library
    const nodes: seq<ListNode>
    var pos: nat

    ghost predicate Valid()
      reads this, lib
    {
      pos <= |nodes| && lib.Valid()
    }

    constructor (lib: Library, nodes: seq<ListNode>)
      requires lib.Valid()
      ensures Valid() && this.lib == lib && this.nodes == nodes && pos == 0
    {
      this.lib := lib;
      this.nodes := nodes;
      pos := 0;
    }

    /**
     * One turn of `next`'s loop: read the node under the cursor, advance the
     * cursor, and try `Device::from_syspath` on the node's name. `since` is
     * the library as `next` found it: growth from there keeps only the device
     * this turn yields, if any.
     */
    method Step(ghost since: Snapshot) returns (r: Option<Device.Device>)
      requires Valid() && pos < |nodes| && Grown(since, lib.Snap(), {})
      modifies this, lib
      ensures Valid() && pos == old(pos) + 1
      ensures r.None? <==> !lib.Resolves(SyspathKey(nodes[old(pos)]))
      ensures r.None? ==> Grown(since, lib.Snap(), {})
      ensures r.Some? ==> fresh(r.value) && fresh(r.value.udev) && SoleOwner(lib, r.value, SyspathKey(nodes[old(pos)]))
      ensures r.Some? ==> Grown(since, lib.Snap(), {r.value.raw, r.value.udev.raw})
    {
      ghost var before := lib.Snap();
      var syspath := PtrToOsStrUnchecked(At(nodes[pos].name));
      pos := pos + 1;
      var d := Device.Device.FromSyspath(lib, syspath);
      if d.Ok? {
        var dv := d.value;
        PairGrown(before, lib.Snap(), dv.raw, dv.udev.raw, Libudev.Device(lib.table[BySyspath(syspath)]), Libudev.Context, {dv}, {dv.udev});
        GrownTrans(since, before, lib.Snap(), {dv.raw, dv.udev.raw});
        r := Some(dv);
      } else {
        lib.GrownSince({});
        GrownTrans(since, before, lib.Snap(), {});
        r := None;
      }
    }

    /**
     * `next`: step the cursor past nodes whose syspath does not resolve; the
     * first that does becomes a new device with a context of its own, and the
     * cursor rests after it. At the end of the list, nothing. Either way the
     * objects that existed are untouched, and the devices and contexts made for
     * skipped nodes are freed again.
     */
    method Next() returns (r: Option<Device.Device>)
      requires Valid()
      modifies this, lib
      ensures Valid() && old(pos) <= pos
      ensures r.None? ==> pos == |nodes| && (forall i :: old(pos) <= i < pos ==> !lib.Resolves(SyspathKey(nodes[i])))
      ensures r.None? ==> Grown(old(lib.Snap()), lib.Snap(), {})
      ensures r.Some? ==> var d := r.value;
                          && old(pos) < pos && (forall i :: old(pos) <= i < pos - 1 ==> !lib.Resolves(SyspathKey(nodes[i])))
                          && lib.Resolves(SyspathKey(nodes[pos - 1]))
                          && fresh(d) && fresh(d.udev) && SoleOwner(lib, d, SyspathKey(nodes[pos - 1]))
                          && d.Valid() && d.Record() == lib.table[SyspathKey(nodes[pos - 1])]
      ensures r.Some? ==> Grown(old(lib.Snap()), lib.Snap(), {r.value.raw, r.value.udev.raw})
    {
      ghost var since := lib.Snap();
      while pos < |nodes|
        invariant Valid() && old(pos) <= pos
        invariant forall i :: old(pos) <= i < pos ==> !lib.Resolves(SyspathKey(nodes[i]))
        invariant Grown(since, lib.Snap(), {})
        decreases |nodes| - pos
      {
        r := Step(since);
        if r.Some? {
          return;
        }
      }
      return None;
    }
  }

  /** One turn of a collecting loop: the skipped nodes add nothing, the device found is the next record. */
  lemma CollectStep(lib: Library, nodes: seq<ListNode>, recs: seq<DeviceRecord>, p: nat, q: nat, all: seq<DeviceRecord>)
    requires p < q <= |nodes| && recs + Found(lib, nodes[p..]) == all
    requires forall i :: p <= i < q - 1 ==> !lib.Resolves(SyspathKey(nodes[i]))
    requires lib.Resolves(SyspathKey(nodes[q - 1]))
    ensures (recs + [lib.table[SyspathKey(nodes[q - 1])]]) + Found(lib, nodes[q..]) == all
  {
    FoundSkips(lib, nodes, p, q - 1);
    FoundHead(lib, nodes, q - 1);
  }

  /**
   * Collecting a `Devices` iterator: the records of the devices it yields are
   * exactly `Found` of the rest of the list, and the cursor ends at the null entry.
   */
  method CollectRecords(ds: Devices) returns (recs: seq<DeviceRecord>)
    requires ds.Valid()
    modifies ds, ds.lib
    ensures ds.Valid() && ds.pos == |ds.nodes|
    ensures recs == Found(ds.lib, ds.nodes[old(ds.pos)..])
  {
    recs := [];
    ghost var all := Found(ds.lib, ds.nodes[ds.pos..]);
    while ds.pos < |ds.nodes|
      invariant ds.Valid() && old(ds.pos) <= ds.pos
      invariant recs + Found(ds.lib, ds.nodes[ds.pos..]) == all
      decreases |ds.nodes| - ds.pos
    {
      recs := CollectTurn(ds, recs, all);
    }
  }

  /** One turn of the collecting loop: `next`, and the record of the device it yields, if any, appended. */
  method CollectTurn(ds: Devices, recs: seq<DeviceRecord>, ghost all: seq<DeviceRecord>) returns (recs': seq<DeviceRecord>)
    requires ds.Valid() && ds.pos < |ds.nodes| && recs + Found(ds.lib, ds.nodes[ds.pos..]) == all
    modifies ds, ds.lib
    ensures ds.Valid() && old(ds.pos) < ds.pos && recs' + Found(ds.lib, ds.nodes[ds.pos..]) == all
  {
    ghost var p := ds.pos;
    var r := ds.Next();
    if r.Some? {
      var rec := r.value.Record();
      CollectStep(ds.lib, ds.nodes, recs, p, ds.pos, all);
      recs' := recs + [rec];
    } else {
      FoundSkips(ds.lib, ds.nodes, p, ds.pos);
      recs' := recs;
    }
  }
}
