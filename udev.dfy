/**
 * The `Udev` handle: a wrapper owning one reference to a native libudev
 * context. Cloning takes one more native reference for the new handle;
 * dropping gives the handle's reference back.
 */
module Udev {
  import opened Sys
  import opened Util
  import opened Libudev

  class Udev {
    const lib: Library
    const raw: Id

    /** A live handle: it is one of the owners of a context object. */
    ghost predicate Valid()
      reads this, lib
    {
      lib.Valid() && raw in lib.objects && lib.objects[raw].Context? && lib.Holds(this, raw)
    }

    /** `from_raw`: the new handle takes over the reference the pointer owned. */
    constructor FromRaw(lib: Library, p: Id)
      requires lib.Valid() && p in lib.objects && lib.objects[p].Context? && lib.unwrapped[p] > 0
      modifies lib
      ensures Valid() && this.lib == lib && raw == p
      ensures lib.holders == With(old(lib.holders), p, this)
      ensures lib.unwrapped == Dec(old(lib.unwrapped), p)
      ensures lib.refs == old(lib.refs) && lib.objects == old(lib.objects)
    {
      this.lib := lib;
      raw := p;
      new;
      lib.Adopt(p, this);
    }

    /** `Udev::new`: fails when `udev_new` gives null, else owns the one reference. */
    static method New(lib: Library) returns (r: Result<Udev, IoError>)
      requires lib.Valid()
      modifies lib
      ensures lib.Valid()
      ensures r.Err? <==> lib.outOfMemory
      ensures r.Err? ==> r.error == AllocFailed && lib.refs == old(lib.refs)
                         && lib.objects == old(lib.objects) && lib.holders == old(lib.holders)
                         && lib.unwrapped == old(lib.unwrapped)
      ensures r.Ok? ==> var u := r.value;
                        && fresh(u) && u.Valid() && u.lib == lib && u.raw !in old(lib.refs)
                        && lib.refs == old(lib.refs)[u.raw := 1]
                        && lib.objects == old(lib.objects)[u.raw := Context]
                        && lib.holders == old(lib.holders)[u.raw := {u}]
                        && lib.unwrapped == old(lib.unwrapped)[u.raw := 0]
    {
      var p := lib.Alloc(Context);
      if p.None? {
        return Err(AllocFailed);
      }
      var u := new Udev.FromRaw(lib, p.value);
      r := Ok(u);
    }

    /** `clone`: the same pointer, one more native reference, owned by the copy. */
    method Clone() returns (c: Udev)
      requires Valid()
      modifies lib
      ensures fresh(c) && c.Valid() && Valid() && c.lib == lib && c.raw == raw
      ensures lib.refs == Inc(old(lib.refs), raw)
      ensures lib.holders == With(old(lib.holders), raw, c)
      ensures lib.unwrapped == old(lib.unwrapped) && lib.objects == old(lib.objects)
    {
      ghost var before := lib.unwrapped;
      var p := lib.Ref(raw);
      c := new Udev.FromRaw(lib, p);
      DecInc(before, raw);
    }

    /** `drop`: exactly one native reference less; the handle owns nothing afterwards. */
    method Drop()
      requires Valid()
      modifies lib
      ensures lib.Valid() && !lib.Holds(this, raw)
      ensures lib.refs == Dec(old(lib.refs), raw) && lib.refs[raw] == old(lib.refs[raw]) - 1
      ensures lib.holders == Without(old(lib.holders), raw, this)
      ensures lib.unwrapped == old(lib.unwrapped) && lib.objects == old(lib.objects)
    {
      lib.UnrefHeld(raw, this);
    }

    /** `into_raw`: the pointer is handed out together with the handle's reference. */
    method IntoRaw() returns (p: Id)
      requires Valid()
      modifies lib
      ensures lib.Valid() && !lib.Holds(this, p) && p == raw
      ensures lib.refs == old(lib.refs) && lib.objects == old(lib.objects)
      ensures lib.holders == Without(old(lib.holders), raw, this)
      ensures lib.unwrapped == Inc(old(lib.unwrapped), raw)
    {
      lib.Release(raw, this);
      p := raw;
    }
  }

  /**
   * The clone/drop exercise: `n` times, clone the handle and assign the clone
   * over it (which drops the old one). The native count ends where it began,
   * and the final handle has the same pointer.
   */
  method CloneDropCycles(udev: Udev, n: nat) returns (u: Udev)
    requires udev.Valid()
    modifies udev.lib
    ensures u.Valid() && u.lib == udev.lib && u.raw == udev.raw
    ensures udev.lib.refs == old(udev.lib.refs) && udev.lib.objects == old(udev.lib.objects)
    ensures udev.lib.unwrapped == old(udev.lib.unwrapped)
    ensures udev.lib.holders == old(udev.lib.holders)[udev.raw := old(udev.lib.holders[udev.raw]) - {udev} + {u}]
  {
    var lib := udev.lib;
    ghost var others := lib.holders[udev.raw] - {udev};
    assert others + {udev} == lib.holders[udev.raw];
    assert lib.holders == lib.holders[udev.raw := others + {udev}];
    u := udev;
    var i := 0;
    while i < n
      invariant u.Valid() && u.lib == lib && u.raw == udev.raw && u !in others
      invariant lib.refs == old(lib.refs) && lib.objects == old(lib.objects)
      invariant lib.unwrapped == old(lib.unwrapped)
      invariant lib.holders == old(lib.holders)[udev.raw := others + {u}]
    {
      u := CycleOnce(u, others);
      i := i + 1;
    }
  }

  /** One turn of the cycle: clone `u`, drop `u`; the clone takes `u`'s place among the owners. */
  method CycleOnce(u: Udev, ghost others: set<object>) returns (c: Udev)
    requires u.Valid() && u !in others && u.lib.holders[u.raw] == others + {u}
    modifies u.lib
    ensures fresh(c) && c.Valid() && c.lib == u.lib && c.raw == u.raw && c !in others
    ensures u.lib.refs == old(u.lib.refs) && u.lib.objects == old(u.lib.objects)
    ensures u.lib.unwrapped == old(u.lib.unwrapped)
    ensures u.lib.holders == old(u.lib.holders)[u.raw := others + {c}]
  {
    ghost var refs0 := u.lib.refs;
    c := u.Clone();
    u.Drop();
    DecInc(refs0, u.raw);
    assert others + {u} + {c} - {u} == others + {c};
  }

  /** The round trip to raw pointers: `from_raw(into_raw(u))` has the same pointer and restores the count's owners. */
  method RoundTripRaw(udev: Udev) returns (u: Udev)
    requires udev.Valid()
    modifies udev.lib
    ensures fresh(u) && u.Valid() && u.lib == udev.lib && u.raw == udev.raw
    ensures udev.lib.refs == old(udev.lib.refs) && udev.lib.objects == old(udev.lib.objects)
    ensures udev.lib.unwrapped == old(udev.lib.unwrapped)
    ensures udev.lib.holders == old(udev.lib.holders)[udev.raw := old(udev.lib.holders[udev.raw]) - {udev} + {u}]
  {
    ghost var before := udev.lib.unwrapped;
    var p := udev.IntoRaw();
    u := new Udev.FromRaw(udev.lib, p);
    DecInc(before, p);
  }
}
