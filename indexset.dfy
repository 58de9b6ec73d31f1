/** `indexmap::IndexSet`, the insertion-ordered hash set the converter uses to
    give every distinct value (vertex bit pattern, texture, image) one stable
    index. Only the part the converter uses is modelled: `insert_full`, which
    returns the index of the value, appending it when it is new. */
module IndexSets {
  import opened Common

  /** No value occurs twice. */
  ghost predicate NoDup<T>(s: seq<T>) {
    forall i, j :: 0 <= i < j < |s| ==> s[i] != s[j]
  }

  /** `get_index_of`: the position of `x`, if present. */
  function IndexOf<T(==)>(s: seq<T>, x: T): (r: Option<nat>)
    ensures r.None? <==> x !in s
    ensures r.Some? ==> r.value < |s| && s[r.value] == x && x !in s[..r.value]
  {
    if s == [] then None
    else if s[0] == x then Some(0)
    else match IndexOf(s[1..], x)
      case None => None
      case Some(i) => assert s[1..][..i] == s[1..i + 1]; Some(i + 1)
  }

  /** `insert_full` on the ordered contents `s`: the new contents and the
      index of `x` in them. */
  function Inserted<T(==)>(s: seq<T>, x: T): (r: (seq<T>, nat))
    ensures r.1 < |r.0| && r.0[r.1] == x
    ensures x in s ==> r.0 == s
    ensures x !in s ==> r.0 == s + [x] && r.1 == |s|
    ensures NoDup(s) ==> NoDup(r.0)
  {
    match IndexOf(s, x)
    case Some(i) => (s, i)
    case None => (s + [x], |s|)
  }

  /** `insert_full` applied to each of `xs` in turn: the final contents and
      the index handed out for each element. */
  function InternAll<T(==)>(s: seq<T>, xs: seq<T>): (r: (seq<T>, seq<nat>))
    ensures |r.1| == |xs|
  {
    if xs == [] then (s, [])
    else
      var (s1, idx) := InternAll(s, xs[..|xs| - 1]);
      var (s2, i) := Inserted(s1, xs[|xs| - 1]);
      (s2, idx + [i])
  }

  /** Interning only appends, hands out in-bounds indices that point back
      at the interned values, and keeps the contents free of duplicates. */
  lemma {:induction false} InternAllSpec<T>(s: seq<T>, xs: seq<T>)
    ensures |s| <= |InternAll(s, xs).0| && InternAll(s, xs).0[..|s|] == s
    ensures forall k :: 0 <= k < |xs| ==>
      InternAll(s, xs).1[k] < |InternAll(s, xs).0| && InternAll(s, xs).0[InternAll(s, xs).1[k]] == xs[k]
    ensures forall x :: x in InternAll(s, xs).0 ==> x in s || x in xs
    ensures NoDup(s) ==> NoDup(InternAll(s, xs).0)
  {
    if xs != [] {
      var pre := xs[..|xs| - 1];
      InternAllSpec(s, pre);
      var (s1, idx) := InternAll(s, pre);
      var (s2, i) := Inserted(s1, xs[|xs| - 1]);
      assert s2[..|s1|] == s1;
      assert s2[..|s|] == s1[..|s|];
      forall k | 0 <= k < |xs|
        ensures InternAll(s, xs).1[k] < |s2| && s2[InternAll(s, xs).1[k]] == xs[k]
      {
        if k < |pre| {
          assert InternAll(s, xs).1[k] == idx[k];
          assert xs[k] == pre[k];
        }
      }
      forall x | x in s2 ensures x in s || x in xs {
        if x in s1 {
          assert x in s || x in pre;
          if x in pre {
            var j :| 0 <= j < |pre| && pre[j] == x;
            assert xs[j] == x;
          }
        } else {
          assert x == xs[|xs| - 1];
        }
      }
    }
  }

  /** Interning `a + b` is interning `a`, then interning `b` into the result. */
  lemma {:induction false} InternAllAppend<T>(s: seq<T>, a: seq<T>, b: seq<T>)
    ensures var (s1, i1) := InternAll(s, a);
      var (s2, i2) := InternAll(s1, b);
      InternAll(s, a + b) == (s2, i1 + i2)
    decreases |b|
  {
    if b != [] {
      var pre := b[..|b| - 1];
      assert (a + b)[..|a + b| - 1] == a + pre;
      assert (a + b)[|a + b| - 1] == b[|b| - 1];
      InternAllAppend(s, a, pre);
      var (s1, i1) := InternAll(s, a);
      var (t1, j1) := InternAll(s1, pre);
      var (t2, i) := Inserted(t1, b[|b| - 1]);
      assert InternAll(s1, b) == (t2, j1 + [i]);
      assert InternAll(s, a + b) == (t2, (i1 + j1) + [i]);
      assert (i1 + j1) + [i] == i1 + (j1 + [i]);
    } else {
      var (s1, i1) := InternAll(s, a);
      assert a + b == a;
      assert i1 + [] == i1;
    }
  }

  /** Bit-identical values receive the same index: once the contents are
      duplicate-free, an index determines its value and the value its index. */
  lemma {:induction false} InternAllSameIndex<T>(s: seq<T>, xs: seq<T>, j: nat, k: nat)
    requires NoDup(s) && j < |xs| && k < |xs|
    ensures InternAll(s, xs).1[j] == InternAll(s, xs).1[k] <==> xs[j] == xs[k]
  {
    InternAllSpec(s, xs);
  }

  /** An insertion-ordered set of distinct values. */
  class IndexSet<T(==)> {
    var items: seq<T>

    ghost predicate Valid()
      reads this
    {
      NoDup(items)
    }

    constructor ()
      ensures Valid() && items == []
    {
      items := [];
    }

    /** `insert_full`: the index of `x`, appending it when it is new. */
    method InsertFull(x: T) returns (index: nat)
      requires Valid()
      modifies this
      ensures Valid()
      ensures (items, index) == Inserted(old(items), x)
    {
      var found := IndexOf(items, x);
      if found.Some? {
        index := found.value;
      } else {
        index := |items|;
        items := items + [x];
      }
    }
  }
}

/** `indexmap::IndexMap<String, V>`: an insertion-ordered map with string
    keys, as a sequence of entries whose keys are distinct. */
module IndexMaps {
  import opened Common

  datatype Entry<V> = Entry(key: string, value: V)

  function Keys<V>(m: seq<Entry<V>>): (r: seq<string>)
    ensures |r| == |m| && forall k :: 0 <= k < |m| ==> r[k] == m[k].key
  {
    seq(|m|, k requires 0 <= k < |m| => m[k].key)
  }

  ghost predicate UniqueKeys<V>(m: seq<Entry<V>>) {
    forall i, j :: 0 <= i < j < |m| ==> m[i].key != m[j].key
  }

  /** The position of `key`, if present. */
  function FindKey<V>(m: seq<Entry<V>>, key: string): (r: Option<nat>)
    ensures r.None? <==> forall k :: 0 <= k < |m| ==> m[k].key != key
    ensures r.Some? ==> r.value < |m| && m[r.value].key == key
    ensures r.Some? ==> forall k :: 0 <= k < r.value ==> m[k].key != key
  {
    if m == [] then None
    else if m[0].key == key then Some(0)
    else match FindKey(m[1..], key)
      case None => None
      case Some(i) => Some(i + 1)
  }

  /** `get(key)`. */
  function Get<V>(m: seq<Entry<V>>, key: string): Option<V> {
    match FindKey(m, key)
    case Some(i) => Some(m[i].value)
    case None => None
  }

  /** `insert(key, value)`: an existing key keeps its position and takes the
      new value; a new key is appended. */
  function Insert<V>(m: seq<Entry<V>>, key: string, value: V): seq<Entry<V>> {
    match FindKey(m, key)
    case Some(i) => m[i := Entry(key, value)]
    case None => m + [Entry(key, value)]
  }

  /** What `insert` promises: the key maps to the new value, every other key
      keeps its value, an existing key keeps its place and the other entries
      theirs, a new key goes last, and keys stay distinct. */
  lemma {:induction false} InsertSpec<V>(m: seq<Entry<V>>, key: string, value: V)
    ensures Get(Insert(m, key, value), key) == Some(value)
    ensures forall other :: other != key ==> Get(Insert(m, key, value), other) == Get(m, other)
    ensures Get(m, key).Some? ==> |Insert(m, key, value)| == |m|
    ensures Get(m, key).Some? ==>
      forall k :: 0 <= k < |m| && m[k].key != key ==> Insert(m, key, value)[k] == m[k]
    ensures Get(m, key).None? ==> Insert(m, key, value) == m + [Entry(key, value)]
    ensures UniqueKeys(m) ==> UniqueKeys(Insert(m, key, value))
  {
    var r := Insert(m, key, value);
    var f := FindKey(m, key);
    var g := FindKey(r, key);
    if f.Some? {
      assert r == m[f.value := Entry(key, value)];
      assert r[f.value].key == key;
      assert forall k :: 0 <= k < f.value ==> r[k] == m[k];
      assert g == Some(f.value);
    } else {
      assert r == m + [Entry(key, value)];
      assert r[|m|].key == key;
      assert forall k :: 0 <= k < |m| ==> r[k] == m[k];
      assert g == Some(|m|);
    }
    assert forall k :: 0 <= k < |m| && m[k].key != key ==> r[k] == m[k];
    assert forall k :: 0 <= k < |r| ==> r[k].key == key || (k < |m| && r[k] == m[k]);
    forall other | other != key ensures Get(r, other) == Get(m, other) {
      var f := FindKey(m, other);
      var g := FindKey(r, other);
      if f.Some? {
        assert r[f.value] == m[f.value];
      }
      if g.Some? {
        assert r[g.value] == m[g.value];
      }
    }
  }

  /** Every entry after `insert` is the inserted one or was there before. */
  lemma {:induction false} InsertEntries<V>(m: seq<Entry<V>>, key: string, value: V)
    ensures forall k :: 0 <= k < |Insert(m, key, value)| ==>
      Insert(m, key, value)[k] == Entry(key, value) || Insert(m, key, value)[k] in m
  {
  }
}
