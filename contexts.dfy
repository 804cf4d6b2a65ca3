/**
 * src/context.rs: the `Context` of an older revision, one native reference
 * to a `udev` context. It reports failures with the binding's `Error` and
 * checks paths with that revision's `os_str_to_cstring`. The `Context` of
 * src/lib.rs:96-124 behaves the same on these paths; it has no `as_ptr`
 * (`AsPtr` stands for its field read there) and builds its `Device` itself,
 * by wrapping the pointer `DeviceFromSyspath` returns.
 */
module Contexts {
  import opened Sys
  import opened Errors
  import opened Libudev
  import LegacyUtil

  class Context {
    const lib: Library
    const raw: Id

    /** A live context handle owning one reference. */
    ghost predicate Valid()
      reads this, lib
    {
      lib.Valid() && raw in lib.objects && lib.objects[raw].Context? && lib.Holds(this, raw)
    }

    /** `Context { udev: ptr }`: the handle takes over the pointer's reference. */
    constructor Wrap(lib: Library, p: Id)
      requires lib.Valid() && p in lib.objects && lib.objects[p].Context? && lib.unwrapped[p] > 0
      modifies lib
      ensures Valid() && this.lib == lib && raw == p
      ensures lib.holders == With(old(lib.holders), p, this)
      ensures lib.unwrapped == Dec(old(lib.unwrapped), p)
      ensures lib.refs == old(lib.refs) && lib.objects == old(lib.objects)
    {
      this.lib := lib;
      raw := p;
      new;
      lib.Adopt(p, this);
    }

    /** `new`: null from `udev_new` is `NoMem`; otherwise the handle owns the new context. */
    static method New(lib: Library) returns (r: Result<Context, Error>)
      requires lib.Valid()
      modifies lib
      ensures lib.Valid()
      ensures r.Err? <==> lib.outOfMemory
      ensures r.Err? ==> Kind(r.error) == NoMem && lib.Unchanged()
      ensures r.Ok? ==> fresh(r.value) && r.value.Valid() && r.value.lib == lib
                        && lib.Created(r.value.raw, r.value, Libudev.Context)
    {
      var p := lib.Alloc(Libudev.Context);
      var q := LegacyUtil.TryAlloc(p);
      if q.Err? {
        return Err(q.error);
      }
      var c := new Context.Wrap(lib, q.value);
      r := Ok(c);
    }

    /** `drop`: exactly one `udev_unref`, the reference this handle owned. */
    method Drop()
      requires Valid()
      modifies lib
      ensures lib.Valid() && !lib.Holds(this, raw) && lib.Dropped(raw, this)
    {
      lib.UnrefHeld(raw, this);
    }

    /** `as_ptr`: the pointer stored at construction, alive while the handle is. */
    function AsPtr(): (p: Id)
      reads this, lib
      requires Valid()
      ensures lib.Live(p) && lib.objects[p].Context? && lib.Holds(this, p)
    {
      lib.HolderKeepsAlive(this, raw);
      raw
    }

    /**
     * `device_from_syspath`: a path with NUL is `InvalidInput` before any
     * native call; a lookup that does not resolve is `NoMem`, as `try_alloc!`
     * reads every null. On success the caller gets the new device's only
     * reference; the context's own count is untouched.
     */
    method DeviceFromSyspath(syspath: Bytes) returns (r: Result<Id, Error>)
      requires Valid()
      modifies lib
      ensures Valid()
      ensures r.Err? <==> NUL in syspath || !lib.Resolves(BySyspath(syspath))
      ensures r.Err? ==> lib.Unchanged()
      ensures r.Err? ==> Kind(r.error) == (if NUL in syspath then InvalidInput else NoMem)
      ensures r.Ok? ==> r.value != raw && lib.Allocated(r.value, Device(lib.table[BySyspath(syspath)]))
    {
      var s := LegacyUtil.OsStrToCString(syspath);
      if s.Err? {
        return Err(s.error);
      }
      var p := lib.NewDevice(BySyspath(s.value));
      var q := LegacyUtil.TryAlloc(p);
      if q.Err? {
        return Err(q.error);
      }
      r := Ok(q.value);
    }
  }
}
