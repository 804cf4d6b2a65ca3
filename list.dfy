/**
 * src/list.rs: walking a native `udev_list_entry` list. The iterator holds
 * nothing but a cursor into the list; each step decodes the node under the
 * cursor into an `Entry` and moves the cursor to the node's successor.
 */
module List {
  import opened Sys
  import opened Util
  import opened Libudev

  /** An item of a list: the name, and the value when the node has one. */
  datatype Entry = Entry(name: Bytes, value: Option<Bytes>)

  /** `Entry::name`: the stored name, unchanged. */
  function Name(e: Entry): (r: Bytes)
    ensures r == e.name
  {
    e.name
  }

  /** `Entry::value`: the value, or the empty string when the node had none. */
  function Value(e: Entry): (r: Bytes)
    ensures e.value.None? ==> r == []
    ensures e.value.Some? ==> r == e.value.value
  {
    if e.value.Some? then e.value.value else []
  }

  /** One step's decoding: the name read unchecked, the value read through a null check. */
  function Decode(n: ListNode): (e: Entry)
    ensures NUL !in e.name && e.name == Text(n.name)
    ensures e.value.None? <==> n.value.Null?
    ensures e.value.Some? ==> NUL !in e.value.value && e.value.value == CBytes(n.value)
  {
    Entry(PtrToOsStrUnchecked(At(n.name)), PtrToOsStr(n.value))
  }

  /** The entries a list yields, in list order. */
  function DecodeAll(nodes: seq<ListNode>): (es: seq<Entry>)
    ensures |es| == |nodes|
    ensures forall i :: 0 <= i < |nodes| ==> es[i] == Decode(nodes[i])
  {
    if nodes == [] then []
    else [Decode(nodes[0])] + DecodeAll(nodes[1..])
  }

  /** The index of the first entry with that name; the length when there is none. */
  function FirstNamed(es: seq<Entry>, name: Bytes): (i: nat)
    ensures i <= |es|
    ensures i < |es| ==> es[i].name == name
    ensures forall j :: 0 <= j < i ==> es[j].name != name
  {
    if es == [] then 0
    else if es[0].name == name then 0
    else 1 + FirstNamed(es[1..], name)
  }

  /** The value of the first entry with that name; nothing when no entry has it, or that entry has no value. */
  function Lookup(es: seq<Entry>, name: Bytes): (v: Option<Bytes>)
    ensures (forall j :: 0 <= j < |es| ==> es[j].name != name) ==> v.None?
    ensures v.Some? ==> exists i :: 0 <= i < |es| && es[i].name == name && es[i].value == v
                                    && forall j :: 0 <= j < i ==> es[j].name != name
    ensures forall i :: 0 <= i < |es| && es[i].name == name && (forall j :: 0 <= j < i ==> es[j].name != name)
                        ==> v == es[i].value
  {
    var i := FirstNamed(es, name);
    if i < |es| then es[i].value else None
  }

  /** `Lookup` looks at the head first, and past it only when the head has another name. */
  lemma LookupCons(es: seq<Entry>, name: Bytes)
    requires es != []
    ensures Lookup(es, name) == if es[0].name == name then es[0].value else Lookup(es[1..], name)
  {
    if es[0].name != name {
      assert FirstNamed(es, name) == 1 + FirstNamed(es[1..], name);
    }
  }

  /** The native lookup by name in a list, read through a null check, is `Lookup` on the decoded list. */
  lemma {:induction false} NativeLookup(nodes: seq<ListNode>, name: Bytes)
    ensures PtrToOsStr(FindValue(nodes, name)) == Lookup(DecodeAll(nodes), name)
  {
    if nodes != [] {
      var es := DecodeAll(nodes);
      assert es == [Decode(nodes[0])] + DecodeAll(nodes[1..]);
      assert es[1..] == DecodeAll(nodes[1..]);
      LookupCons(es, name);
      if Text(nodes[0].name) != name {
        NativeLookup(nodes[1..], name);
      }
    }
  }

  /** `EntryList`: a cursor into a native list; `pos == |nodes|` is the null cursor. */
  class EntryList {
    const nodes: seq<ListNode>
    var pos: nat

    ghost predicate Valid()
      reads this
    {
      pos <= |nodes|
    }

    /** What the remaining calls to `next` yield. */
    ghost function Remaining(): seq<Entry>
      reads this
      requires Valid()
    {
      DecodeAll(nodes[pos..])
    }

    /** An iterator whose cursor is the list's head. */
    constructor (nodes: seq<ListNode>)
        ensures Valid() && this.nodes == nodes && pos == 0
    {
      this.nodes := nodes;
      pos := 0;
    }

    /**
     * `next`: at the null cursor, nothing, and the cursor stays null; else the
     * decoded node under the cursor, and the cursor moves to its successor.
     */
    method Next() returns (r: Option<Entry>)
      requires Valid()
      modifies this
      ensures Valid()
      ensures old(pos) == |nodes| ==> r.None? && pos == old(pos)
      ensures old(pos) < |nodes| ==> r == Some(Decode(nodes[old(pos)])) && pos == old(pos) + 1
      ensures r.None? <==> old(Remaining()) == []
      ensures r.Some? ==> old(Remaining()) == [r.value] + Remaining()
    {
      if pos == |nodes| {
        return None;
      }
      assert nodes[pos..][1..] == nodes[pos + 1..];
      r := Some(Decode(nodes[pos]));
      pos := pos + 1;
    }
  }

  /** `Iterator::collect` on a list iterator: it yields exactly what remains, then stays exhausted. */
  method Drain(l: EntryList) returns (es: seq<Entry>)
    requires l.Valid()
    modifies l
    ensures l.Valid() && l.pos == |l.nodes|
    ensures es == old(l.Remaining())
  {
    es := [];
    while l.pos < |l.nodes|
      invariant l.Valid() && old(l.pos) <= l.pos && |es| == l.pos - old(l.pos)
      invariant forall i :: 0 <= i < |es| ==> es[i] == Decode(l.nodes[old(l.pos) + i])
      decreases |l.nodes| - l.pos
    {
      var r := l.Next();
      es := es + [r.value];
    }
    var _ := l.Next();
  }

  /** A fresh iterator over a list yields every node, in order, and nothing more. */
  method CollectEntries(nodes: seq<ListNode>) returns (es: seq<Entry>)
    ensures |es| == |nodes|
    ensures forall i :: 0 <= i < |nodes| ==> es[i] == Decode(nodes[i])
  {
    var l := new EntryList(nodes);
    assert nodes[0..] == nodes;
    es := Drain(l);
  }

  /**
   * Two iterators over one list share nothing but the list: advancing one
   * leaves the other at the head, and both yield the same entries.
   */
  method TwoCursors(nodes: seq<ListNode>) returns (xs: seq<Entry>, ys: seq<Entry>)
    ensures xs == ys == DecodeAll(nodes)
  {
    var a := new EntryList(nodes);
    var b := new EntryList(nodes);
    assert nodes[0..] == nodes;
    var first := a.Next();
    assert b.pos == 0;
    ys := Drain(b);
    var rest := Drain(a);
    xs := if first.Some? then [first.value] + rest else rest;
  }
}
