/**
 * src/hwdb.rs: the `Hwdb` handle, one native reference to a `udev_hwdb`,
 * and its queries. A query walks the property list the database returns for
 * a modalias.
 */
module Hwdb {
  import opened Sys
  import opened Util
  import opened Libudev
  import opened List
  import Udev

  class Hwdb {
    const lib: Library
    const raw: Id

    ghost predicate Valid()
      reads this, lib
    {
      lib.Valid() && raw in lib.objects && lib.objects[raw].Hwdb? && lib.Holds(this, raw)
    }

    /** `from_raw`: the handle takes over the pointer's reference. */
    constructor FromRaw(lib: Library, p: Id)
      requires lib.Valid() && p in lib.objects && lib.objects[p].Hwdb? && lib.unwrapped[p] > 0
      modifies lib
      ensures Valid() && this.lib == lib && raw == p
      ensures lib.holders == With(old(lib.holders), p, this)
      ensures lib.unwrapped == Dec(old(lib.unwrapped), p)
      ensures lib.refs == old(lib.refs) && lib.objects == old(lib.objects)
    {
      this.lib := lib;
      raw := p;
      new;
      lib.Adopt(p, this);
    }

    /**
     * `new`: the context is only borrowed for the call, its count untouched;
     * null from `udev_hwdb_new` is an error.
     */
    static method New(udev: Udev.Udev) returns (r: Result<Hwdb, IoError>)
      requires udev.Valid()
      modifies udev.lib
      ensures udev.Valid()
      ensures r.Err? <==> udev.lib.outOfMemory
      ensures r.Err? ==> r.error == AllocFailed && udev.lib.Unchanged()
      ensures r.Ok? ==> fresh(r.value) && r.value.Valid() && r.value.lib == udev.lib
                        && udev.lib.Created(r.value.raw, r.value, Libudev.Hwdb)
    {
      var lib := udev.lib;
      var p := lib.Alloc(Libudev.Hwdb);
      if p.None? {
        return Err(AllocFailed);
      }
      var h := new Hwdb.FromRaw(lib, p.value);
      r := Ok(h);
    }

    /** `clone`: the same database, one more native reference, owned by the copy. */
    method Clone() returns (c: Hwdb)
      requires Valid()
      modifies lib
      ensures Valid() && fresh(c) && c.Valid() && c.lib == lib && c.raw == raw
      ensures lib.refs == Inc(old(lib.refs), raw)
      ensures lib.holders == With(old(lib.holders), raw, c)
      ensures lib.unwrapped == old(lib.unwrapped) && lib.objects == old(lib.objects)
    {
      ghost var before := lib.unwrapped;
      var p := lib.Ref(raw);
      c := new Hwdb.FromRaw(lib, p);
      DecInc(before, raw);
    }

    /** `drop`: exactly one native reference less. */
    method Drop()
      requires Valid()
      modifies lib
      ensures lib.Valid() && !lib.Holds(this, raw) && lib.Dropped(raw, this)
    {
      lib.UnrefHeld(raw, this);
    }

    /**
     * `query`: an iterator at the head of the list the database holds for
     * `modalias`. A modalias with NUL is a panic in the source (it unwraps
     * the C string conversion), so it is excluded here.
     */
    method Query(modalias: Bytes) returns (l: EntryList)
      requires Valid() && NUL !in modalias
      ensures fresh(l) && l.Valid() && l.pos == 0 && l.nodes == HwdbQuery(lib.hwdb, modalias)
    {
      var m := OsStrToCString(modalias);
      l := new EntryList(HwdbQuery(lib.hwdb, m.value));
    }

    /**
     * `query_one`: the value of the first entry of the query named `name`;
     * nothing when no entry has that name (or that entry has no value).
     */
    function QueryOne(modalias: Bytes, name: Bytes): (v: Option<Bytes>)
      requires NUL !in modalias
      ensures var nodes := HwdbQuery(lib.hwdb, modalias);
              (forall i :: 0 <= i < |nodes| ==> Text(nodes[i].name) != name) ==> v.None?
      ensures var nodes := HwdbQuery(lib.hwdb, modalias);
              forall i :: 0 <= i < |nodes| && Text(nodes[i].name) == name
                       && (forall j :: 0 <= j < i ==> Text(nodes[j].name) != name)
                       ==> v == PtrToOsStr(nodes[i].value)
    {
      var es := DecodeAll(HwdbQuery(lib.hwdb, modalias));
      assert forall i :: 0 <= i < |es| ==> es[i].name == Text(HwdbQuery(lib.hwdb, modalias)[i].name);
      Lookup(es, name)
    }
  }
}
