/** The result cache: a list of entries, most recently used first, and an index from
    keys to entries. */
module LruCache {
  import opened Common

  // ---- what a cache holds, as a value ----

  type Contents<V> = seq<(string, V)>

  predicate Distinct<V>(c: Contents<V>)
  {
    forall i, j :: 0 <= i < j < |c| ==> c[i].0 != c[j].0
  }

  predicate Has<V>(c: Contents<V>, key: string)
  {
    exists i :: 0 <= i < |c| && c[i].0 == key
  }

  /** The place of a key, or the size of the cache. */
  function Find<V>(c: Contents<V>, key: string): (i: nat)
    ensures i <= |c| && (i < |c| <==> Has(c, key))
    ensures i < |c| ==> c[i].0 == key
    ensures forall j :: 0 <= j < i ==> c[j].0 != key
  {
    if c == [] then 0
    else if c[0].0 == key then 0
    else
      var j := Find(c[1..], key);
      assert j < |c[1..]| ==> c[j + 1].0 == key;
      assert Has(c, key) ==> Has(c[1..], key) by {
        if Has(c, key) {
          var i :| 0 <= i < |c| && c[i].0 == key;
          assert c[1..][i - 1].0 == key;
        }
      }
      j + 1
  }

  /** A list with one of its members moved to the front. */
  function ToFront<T>(s: seq<T>, i: nat): (t: seq<T>)
    requires i < |s|
    ensures |t| == |s|
    ensures forall j :: 0 <= j < |s| ==> t[j] == s[if j == 0 then i else if j <= i then j - 1 else j]
  {
    [s[i]] + s[..i] + s[i + 1..]
  }

  lemma FrontMembers<T>(s: seq<T>, i: nat)
    requires i < |s|
    ensures forall x :: x in ToFront(s, i) <==> x in s
  {
    hide ToFront;
    var t := ToFront(s, i);
    forall x | x in s
      ensures x in t
    {
      var j :| 0 <= j < |s| && s[j] == x;
      assert t[if j == i then 0 else if j < i then j + 1 else j] == x;
    }
  }

  /** A lookup brings what it finds to the front. */
  function AfterGet<V>(c: Contents<V>, key: string): Contents<V>
  {
    if Has(c, key) then ToFront(c, Find(c, key)) else c
  }

  /** A store puts the key in front, and the last one out if that is one too many. */
  function AfterPut<V>(c: Contents<V>, capacity: nat, key: string, value: V): Contents<V>
  {
    if Has(c, key) then ToFront(c[Find(c, key) := (key, value)], Find(c, key))
    else if |c| + 1 > capacity then ([(key, value)] + c)[..|c|]
    else [(key, value)] + c
  }

  lemma PutKeeps<V>(c: Contents<V>, capacity: nat, key: string, value: V)
    requires Distinct(c) && |c| <= capacity
    ensures Distinct(AfterPut(c, capacity, key, value)) && |AfterPut(c, capacity, key, value)| <= capacity
    ensures 0 < capacity ==> Has(AfterPut(c, capacity, key, value), key)
    ensures 0 < capacity ==>
      AfterPut(c, capacity, key, value) != [] && AfterPut(c, capacity, key, value)[0] == (key, value)
    ensures forall e :: e in AfterPut(c, capacity, key, value) ==> e == (key, value) || e in c
  {
    hide ToFront;
    var d := AfterPut(c, capacity, key, value);
    if Has(c, key) {
      var i := Find(c, key);
      FrontMembers(c[i := (key, value)], i);
    }
    if 0 < capacity {
      assert d[0].0 == key;
    }
  }

  lemma GetKeeps<V>(c: Contents<V>, key: string)
    requires Distinct(c)
    ensures Distinct(AfterGet(c, key)) && |AfterGet(c, key)| == |c|
    ensures forall e :: e in AfterGet(c, key) <==> e in c
    ensures Has(c, key) ==> AfterGet(c, key)[0] == c[Find(c, key)]
  {
    hide ToFront;
    if Has(c, key) {
      FrontMembers(c, Find(c, key));
    }
  }

  // ---- inclusion ----

  /** How the service uses the cache for one key: look up, and on a miss store. */
  function Access<V>(c: Contents<V>, capacity: nat, key: string, f: string -> V): Contents<V>
  {
    if Has(c, key) then AfterGet(c, key) else AfterPut(c, capacity, key, f(key))
  }

  function AccessAll<V>(capacity: nat, keys: seq<string>, f: string -> V): Contents<V>
  {
    if keys == [] then []
    else Access(AccessAll(capacity, keys[..|keys| - 1], f), capacity, keys[|keys| - 1], f)
  }

  lemma AccessAllStep<V>(capacity: nat, keys: seq<string>, f: string -> V)
    requires keys != []
    ensures AccessAll(capacity, keys, f) ==
      Access(AccessAll(capacity, keys[..|keys| - 1], f), capacity, keys[|keys| - 1], f)
  {
    hide Access;
  }

  ghost predicate Serves<V>(c: Contents<V>, capacity: nat, f: string -> V)
  {
    && Distinct(c) && |c| <= capacity
    && forall i :: 0 <= i < |c| ==> c[i].1 == f(c[i].0)
  }

  /** One access keeps the smaller cache the front of the larger one. */
  lemma AccessKeepsPrefix<V>(big: Contents<V>, n: nat, m: nat, key: string, f: string -> V)
    requires n <= m && Serves(big, m, f)
    ensures Access(FirstK(big, n), n, key, f) == FirstK(Access(big, m, key, f), n)
  {
    hide Find, ToFront, Has;
    var i := Find(big, key);
    FindInPrefix(big, n, key);
    if i < n && i < |big| {
      FrontOfPrefix(big, n, i);
    } else if i < |big| {
      assert big[i] == (key, f(key));
      assert big[i := (key, f(key))] == big;
      FrontPastPrefix(big, n, i);
    }
  }

  /** A key is in the front of a cache exactly if its place in the whole cache is. */
  lemma FindInPrefix<V>(big: Contents<V>, n: nat, key: string)
    ensures Has(FirstK(big, n), key) <==> Find(big, key) < n && Find(big, key) < |big|
    ensures Has(FirstK(big, n), key) ==> Find(FirstK(big, n), key) == Find(big, key)
  {
    hide Find;
    var small, i := FirstK(big, n), Find(big, key);
    if i < n && i < |big| {
      assert small[i].0 == key;
    }
  }

  lemma FrontOfPrefix<T>(big: seq<T>, n: nat, i: nat)
    requires i < n && i < |big|
    ensures FirstK(ToFront(big, i), n) == ToFront(FirstK(big, n), i)
  {
    hide ToFront;
    var a, b := FirstK(ToFront(big, i), n), ToFront(FirstK(big, n), i);
    forall j | 0 <= j < |a|
      ensures a[j] == b[j]
    {
      assert a[j] == big[if j == 0 then i else if j <= i then j - 1 else j];
    }
  }

  lemma FrontPastPrefix<T>(big: seq<T>, n: nat, i: nat)
    requires n <= i < |big|
    ensures FirstK(ToFront(big, i), n) == ([big[i]] + FirstK(big, n))[..n]
  {
  }

  /** Inclusion: after any accesses, a cache of capacity n holds exactly the first n
      entries of one of capacity m, so a hit in the smaller is a hit in the larger. */
  lemma {:induction false} Inclusion<V>(n: nat, m: nat, keys: seq<string>, f: string -> V)
    requires n <= m
    ensures Serves(AccessAll(m, keys, f), m, f)
    ensures AccessAll(n, keys, f) == FirstK(AccessAll(m, keys, f), n)
    ensures forall key :: Has(AccessAll(n, keys, f), key) ==> Has(AccessAll(m, keys, f), key)
  {
    hide Access, Serves, AccessAll, Has, FirstK;
    if keys == [] {
      NoneHeld(n, f);
      NoneHeld(m, f);
      assert FirstK<(string, V)>([], n) == [] by { NoneFirst<(string, V)>(n); }
    } else {
      var before, key := keys[..|keys| - 1], keys[|keys| - 1];
      Inclusion(n, m, before, f);
      AccessServes(AccessAll(m, before, f), m, key, f);
      AccessKeepsPrefix(AccessAll(m, before, f), n, m, key, f);
      AccessAllStep(n, keys, f);
      AccessAllStep(m, keys, f);
    }
    FrontHas(AccessAll(m, keys, f), n);
  }

  lemma NoneFirst<T>(n: nat)
    ensures FirstK<T>([], n) == []
  {
  }

  lemma NoneHeld<V>(capacity: nat, f: string -> V)
    ensures AccessAll(capacity, [], f) == [] && Serves([], capacity, f)
  {
  }

  lemma AccessServes<V>(c: Contents<V>, capacity: nat, key: string, f: string -> V)
    requires Serves(c, capacity, f)
    ensures Serves(Access(c, capacity, key, f), capacity, f)
  {
    hide ToFront;
    if Has(c, key) {
      GetKeeps(c, key);
    } else {
      PutKeeps(c, capacity, key, f(key));
    }
  }

  lemma FrontHas<V>(big: Contents<V>, n: nat)
    ensures forall key :: Has(FirstK(big, n), key) ==> Has(big, key)
  {
    forall key | Has(FirstK(big, n), key)
      ensures Has(big, key)
    {
      var i :| 0 <= i < |FirstK(big, n)| && FirstK(big, n)[i].0 == key;
      assert big[i].0 == key;
    }
  }

  // ---- the class ----

  class Entry<V> {
    const key: string
    var value: V

    constructor (key: string, value: V)
      ensures this.key == key && this.value == value
    {
      this.key, this.value := key, value;
    }
  }

  /** The index maps exactly the keys of the list, each to its entry, and no key is
      there twice. */
  ghost predicate Indexed<V>(entries: seq<Entry<V>>, index: map<string, Entry<V>>)
  {
    && (forall i, j :: 0 <= i < j < |entries| ==> entries[i].key != entries[j].key)
    && (forall i :: 0 <= i < |entries| ==> entries[i].key in index && index[entries[i].key] == entries[i])
    && (forall key :: key in index ==> index[key] in entries && index[key].key == key)
  }

  lemma IndexedFront<V>(entries: seq<Entry<V>>, index: map<string, Entry<V>>, i: nat)
    requires Indexed(entries, index) && i < |entries|
    ensures Indexed(ToFront(entries, i), index)
  {
    hide ToFront;
    FrontMembers(entries, i);
    var t := ToFront(entries, i);
    forall j, k | 0 <= j < k < |t|
      ensures t[j].key != t[k].key
    {
      assert t[k] == entries[if k <= i then k - 1 else k];
    }
  }

  lemma IndexedPush<V>(entries: seq<Entry<V>>, index: map<string, Entry<V>>, e: Entry<V>)
    requires Indexed(entries, index) && e.key !in index
    ensures Indexed([e] + entries, index[e.key := e])
  {
    assert forall x :: x in [e] + entries <==> x == e || x in entries;
  }

  lemma IndexedPop<V>(entries: seq<Entry<V>>, index: map<string, Entry<V>>)
    requires Indexed(entries, index) && entries != []
    ensures var n := |entries| - 1; Indexed(entries[..n], index - {entries[n].key})
  {
    var n := |entries| - 1;
    assert forall x :: x in entries <==> x == entries[n] || x in entries[..n];
  }

  lemma SizesAgree<V>(entries: seq<Entry<V>>, index: map<string, Entry<V>>)
    requires Indexed(entries, index)
    ensures |index| == |entries|
  {
    var keys := seq(|entries|, i requires 0 <= i < |entries| => entries[i].key);
    DistinctSize(keys);
    assert index.Keys == set k | k in keys by {
      forall key | key in index
        ensures key in keys
      {
        var i :| 0 <= i < |entries| && entries[i] == index[key];
        assert keys[i] == key;
      }
    }
  }

  ghost function View<V>(entries: seq<Entry<V>>): (c: Contents<V>)
    reads entries
    ensures |c| == |entries|
    ensures forall i :: 0 <= i < |c| ==> c[i] == (entries[i].key, entries[i].value)
  {
    seq(|entries|, i requires 0 <= i < |entries| reads entries => (entries[i].key, entries[i].value))
  }

  lemma ViewFront<V>(entries: seq<Entry<V>>, i: nat)
    requires i < |entries|
    ensures View(ToFront(entries, i)) == ToFront(View(entries), i)
  {
    hide ToFront, View;
  }

  lemma KeyIsFound<V>(entries: seq<Entry<V>>, index: map<string, Entry<V>>, key: string)
    requires Indexed(entries, index)
    ensures Distinct(View(entries))
    ensures key in index <==> Has(View(entries), key)
    ensures key in index ==>
      Find(View(entries), key) < |entries| && entries[Find(View(entries), key)] == index[key]
  {
    hide View;
    if key in index {
      var i :| 0 <= i < |entries| && entries[i] == index[key];
      assert View(entries)[i].0 == key;
    }
  }

  /** References to entries play the part of list iterators: they stay good while the
      list is spliced. */
  class LruCache<V(==)> {
    const capacity: nat
    var entries: seq<Entry<V>>
    var index: map<string, Entry<V>>

    ghost predicate Valid()
      reads this
    {
      |entries| <= capacity && Indexed(entries, index)
    }

    ghost function Holds(): Contents<V>
      reads this, entries
    {
      View(entries)
    }

    constructor (capacity: nat)
      ensures Valid() && Holds() == [] && entries == [] && this.capacity == capacity
    {
      this.capacity := capacity;
      entries, index := [], map[];
    }

    /** Where an entry is in the list. */
    method Locate(e: Entry<V>) returns (i: nat)
      requires e in entries
      ensures i < |entries| && entries[i] == e
      ensures forall j :: 0 <= j < i ==> entries[j] != e
    {
      i := 0;
      while entries[i] != e
        invariant i < |entries| && e in entries[i..]
        invariant forall j :: 0 <= j < i ==> entries[j] != e
        decreases |entries| - i
      {
        assert e in entries[i + 1..];
        i := i + 1;
      }
    }

    method Splice(e: Entry<V>, ghost i: nat)
      requires i < |entries| && entries[i] == e
      requires forall j :: 0 <= j < i ==> entries[j] != e
      modifies `entries
      ensures entries == ToFront(old(entries), i)
    {
      var at := Locate(e);
      entries := [e] + entries[..at] + entries[at + 1..];
    }

    method Get(key: string) returns (hit: bool, out: seq<V>)
      requires Valid()
      modifies `entries
      ensures Valid()
      ensures forall e :: e in entries <==> e in old(entries)
      ensures hit == Has(old(Holds()), key) && Holds() == AfterGet(old(Holds()), key)
      ensures hit ==> out == [old(Holds())[Find(old(Holds()), key)].1]
      ensures !hit ==> entries == old(entries)
    {
      hide ToFront, View, Find, Indexed, Has;
      KeyIsFound(entries, index, key);
      if key !in index {
        return false, [];
      }
      ghost var i := Find(Holds(), key);
      ghost var was := entries;
      FirstWithKey(entries, index, i);
      Splice(index[key], i);
      IndexedFront(was, index, i);
      ViewFront(was, i);
      FrontMembers(was, i);
      hit, out := true, [index[key].value];
    }

    lemma FirstWithKey(s: seq<Entry<V>>, m: map<string, Entry<V>>, i: nat)
      requires Indexed(s, m) && i < |s|
      ensures forall j :: 0 <= j < i ==> s[j] != s[i]
    {
    }

    method PushFront(key: string, value: V)
      requires Indexed(entries, index) && key !in index
      modifies this
      ensures Indexed(entries, index) && |index| == |entries|
      ensures |entries| == |old(entries)| + 1 && entries[1..] == old(entries)
      ensures fresh(entries[0]) && entries[0].key == key && entries[0].value == value
    {
      hide Indexed;
      var e := new Entry(key, value);
      IndexedPush(entries, index, e);
      entries := [e] + entries;
      index := index[key := e];
      SizesAgree(entries, index);
    }

    method PopBack()
      requires Indexed(entries, index) && entries != []
      modifies this
      ensures Indexed(entries, index) && entries == old(entries)[..|old(entries)| - 1]
    {
      hide Indexed;
      IndexedPop(entries, index);
      var last := entries[|entries| - 1];
      index := index - {last.key};
      entries := entries[..|entries| - 1];
    }

    /** Overwrites the value of a key the cache has, and brings it to the front. */
    method Overwrite(key: string, value: V)
      requires Valid() && key in index
      modifies this, entries
      ensures Valid()
      ensures forall e :: e in entries <==> e in old(entries)
      ensures Holds() == AfterPut(old(Holds()), capacity, key, value)
    {
      hide ToFront, View, Find, Indexed, Has;
      KeyIsFound(entries, index, key);
      ghost var was := entries;
      ghost var before := Holds();
      ghost var i := Find(before, key);
      FirstWithKey(entries, index, i);
      IndexedFront(was, index, i);
      FrontMembers(was, i);
      SetValue(key, value, i);
      assert Holds() == before[i := (key, value)];
      Splice(index[key], i);
      ViewFront(was, i);
    }

    method SetValue(key: string, value: V, ghost i: nat)
      requires Valid() && key in index && i < |entries| && entries[i] == index[key]
      modifies entries
      ensures Holds() == old(Holds())[i := (key, value)]
    {
      hide View;
      index[key].value := value;
    }

    method Put(key: string, value: V)
      requires Valid()
      modifies this, entries
      ensures Valid()
      ensures forall e :: e in entries ==> e in old(entries) || fresh(e)
      ensures Holds() == AfterPut(old(Holds()), capacity, key, value)
      ensures 0 < capacity ==> Holds() != [] && Holds()[0] == (key, value)
    {
      hide ToFront, View, Find, Indexed, Has;
      KeyIsFound(entries, index, key);
      PutKeeps(Holds(), capacity, key, value);
      if key in index {
        Overwrite(key, value);
        return;
      }
      ghost var was, before := entries, Holds();
      PushFront(key, value);
      assert entries == [entries[0]] + was;
      assert Holds() == [(key, value)] + before;
      if |index| > capacity {
        PopBack();
        assert Holds() == ([(key, value)] + before)[..|before|];
      }
    }
  }

  lemma {:induction false} DistinctSize(keys: seq<string>)
    requires forall i, j :: 0 <= i < j < |keys| ==> keys[i] != keys[j]
    ensures |set k | k in keys| == |keys|
  {
    if keys != [] {
      var rest, last := keys[..|keys| - 1], keys[|keys| - 1];
      DistinctSize(rest);
      assert (set k | k in keys) == (set k | k in rest) + {last};
    }
  }
}
