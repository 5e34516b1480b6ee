/** The child lists of a snapshot (domain/clone.go:88-102), on the heap where they can
    alias: the tracker's lists are slices over buffers that are overwritten and appended
    to in place, and the snapshot owns copies no later write reaches. */
module Snapshots {

  /** A slice header: the first `len` cells of a buffer whose length is its capacity. */
  datatype Slice<T> = Slice(buf: array<T>, len: nat)

  /** Every list lies in a buffer of `owned`. */
  ghost predicate Within<T>(lists: map<string, Slice<T>>, owned: set<array<T>>) {
    forall k :: k in lists ==> lists[k].buf in owned && lists[k].len <= lists[k].buf.Length
  }

  /** No two lists of one tracker share a buffer. */
  ghost predicate Apart<T>(lists: map<string, Slice<T>>) {
    forall k, l :: k in lists && l in lists && k != l ==> lists[k].buf != lists[l].buf
  }

  ghost function Contents<T>(lists: map<string, Slice<T>>, owned: set<array<T>>): map<string, seq<T>>
    requires Within(lists, owned)
    reads owned
  {
    map k | k in lists :: lists[k].buf[..lists[k].len]
  }

  datatype Write<T> = Overwrite(key: string, at: nat, value: T) | Append(key: string, value: T)

  function ApplyWrite<T>(m: map<string, seq<T>>, w: Write<T>): map<string, seq<T>> {
    match w
    case Overwrite(key, at, value) => if key in m && at < |m[key]| then m[key := m[key][at := value]] else m
    case Append(key, value) => m[key := (if key in m then m[key] else []) + [value]]
  }

  /** Putting a slice over a buffer of its own into the map. */
  lemma PutSlice<T>(lists: map<string, Slice<T>>, owned: set<array<T>>, key: string, s: Slice<T>)
    requires Within(lists, owned) && Apart(lists) && s.buf !in owned && s.len <= s.buf.Length
    ensures Within(lists[key := s], owned + {s.buf}) && Apart(lists[key := s])
    ensures Contents(lists[key := s], owned + {s.buf}) == Contents(lists, owned)[key := s.buf[..s.len]]
  {
  }

  /** Taking more cells of its own buffer into a list. */
  lemma LongerSlice<T>(lists: map<string, Slice<T>>, owned: set<array<T>>, key: string, s: Slice<T>)
    requires Within(lists, owned) && Apart(lists) && key in lists && s.buf == lists[key].buf && s.len <= s.buf.Length
    ensures Within(lists[key := s], owned) && Apart(lists[key := s])
    ensures Contents(lists[key := s], owned) == Contents(lists, owned)[key := s.buf[..s.len]]
  {
  }

  method NewBuffer<T>(list: seq<T>, spare: nat, filler: T) returns (buf: array<T>)
    ensures fresh(buf) && buf.Length == |list| + spare && buf[..|list|] == list
  {
    buf := new T[|list| + spare](i => if 0 <= i < |list| then list[i] else filler);
    assert buf[..|list|] == list;
  }

  method NewExactBuffer<T>(list: seq<T>) returns (buf: array<T>)
    ensures fresh(buf) && buf.Length == |list| && buf[..|list|] == list
  {
    buf := new T[|list|](i requires 0 <= i < |list| => list[i]);
    assert buf[..|list|] == list;
  }

  class Lists<T> {
    var lists: map<string, Slice<T>>
    ghost var owned: set<array<T>>

    ghost predicate Valid()
      reads this
    {
      Within(lists, owned) && Apart(lists)
    }

    ghost function View(): map<string, seq<T>>
      requires Valid()
      reads this, owned
    {
      Contents(lists, owned)
    }

    constructor ()
      ensures Valid() && View() == map[] && owned == {}
    {
      lists, owned := map[], {};
    }

    function Size(key: string): (n: nat)
      requires Valid()
      reads this, owned
      ensures n == if key in View() then |View()[key]| else 0
    {
      if key in lists then lists[key].len else 0
    }

    function At(key: string, i: nat): (value: T)
      requires Valid() && i < Size(key)
      reads this, owned
      ensures value == View()[key][i]
    {
      lists[key].buf[i]
    }

    /** A key without a list gets an empty one. */
    method Hold(key: string)
      requires Valid()
      modifies this
      ensures Valid() && fresh(owned - old(owned))
      ensures View() == if key in old(View()) then old(View()) else old(View())[key := []]
    {
      if key in lists { return; }
      var buf := NewExactBuffer<T>([]);
      Adopt(key, Slice(buf, 0));
    }

    method DoOverwrite(key: string, at: nat, value: T)
      requires Valid()
      modifies owned
      ensures Valid() && View() == ApplyWrite(old(View()), Overwrite(key, at, value))
    {
      if key in lists && at < lists[key].len {
        lists[key].buf[at] := value;
        assert View()[key] == old(View())[key][at := value];
      }
    }

    /** As append does: into spare capacity of the same buffer, or into a larger copy. */
    method DoAppend(key: string, value: T)
      requires Valid()
      modifies this, owned
      ensures Valid() && fresh(owned - old(owned))
      ensures View() == ApplyWrite(old(View()), Append(key, value))
    {
      if key in lists && lists[key].len < lists[key].buf.Length {
        AppendInPlace(key, value);
      } else {
        AppendGrown(key, value);
      }
    }

    method AppendInPlace(key: string, value: T)
      requires Valid() && key in lists && lists[key].len < lists[key].buf.Length
      modifies this, owned
      ensures Valid() && owned == old(owned)
      ensures View() == ApplyWrite(old(View()), Append(key, value))
    {
      var Slice(buf, len) := lists[key];
      buf[len] := value;
      assert View() == old(View());
      var longer := Slice(buf, len + 1);
      LongerSlice(lists, owned, key, longer);
      lists := lists[key := longer];
      assert buf[..longer.len] == old(View())[key] + [value];
    }

    method AppendGrown(key: string, value: T)
      requires Valid()
      modifies this
      ensures Valid() && fresh(owned - old(owned))
      ensures View() == ApplyWrite(old(View()), Append(key, value))
    {
      var list := if key in lists then lists[key].buf[..lists[key].len] else [];
      var spare: nat :| spare >= 0;
      var buf := NewBuffer(list + [value], spare, value);
      Adopt(key, Slice(buf, |list| + 1));
    }

    /** Point a key at a slice over a buffer of its own. */
    method Adopt(key: string, s: Slice<T>)
      requires Valid() && s.buf !in owned && s.len <= s.buf.Length
      modifies this
      ensures Valid() && owned == old(owned) + {s.buf}
      ensures View() == old(View())[key := s.buf[..s.len]]
    {
      PutSlice(lists, owned, key, s);
      lists := lists[key := s];
      owned := owned + {s.buf};
    }

    /** The snapshot: same contents, every buffer new. */
    method CopyAggregateMap() returns (out: map<string, Slice<T>>, ghost copies: set<array<T>>)
      requires Valid()
      ensures fresh(copies) && Within(out, copies) && Contents(out, copies) == View()
    {
      out, copies := map[], {};
      var todo := lists.Keys;
      while todo != {}
        invariant todo <= lists.Keys && out.Keys == lists.Keys - todo
        invariant fresh(copies) && Within(out, copies)
        invariant forall k :: k in out ==> out[k].buf[..out[k].len] == lists[k].buf[..lists[k].len]
      {
        var k :| k in todo;
        var list := lists[k].buf[..lists[k].len];
        var buf := NewExactBuffer(list);
        out, copies := out[k := Slice(buf, |list|)], copies + {buf};
        todo := todo - {k};
      }
    }
  }
}
