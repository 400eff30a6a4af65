/** What the cache holds, said without its list operations: after any accesses, the most
    recently used keys. */
module LruLaws {
  import opened Common
  import opened LruCache

  // ---- one lookup, one store ----

  /** The entries of other keys, as they stand. */
  function Others<V>(c: Contents<V>, key: string): Contents<V>
  {
    if c == [] then []
    else if c[0].0 == key then Others(c[1..], key)
    else [c[0]] + Others(c[1..], key)
  }

  lemma {:induction false} NoneOfIt<V>(c: Contents<V>, key: string)
    requires forall i :: 0 <= i < |c| ==> c[i].0 != key
    ensures Others(c, key) == c
  {
    if c != [] {
      NoneOfIt(c[1..], key);
    }
  }

  lemma {:induction false} OthersAt<V>(c: Contents<V>, i: nat)
    requires Distinct(c) && i < |c|
    ensures Others(c, c[i].0) == c[..i] + c[i + 1..]
  {
    if i == 0 {
      NoneOfIt(c[1..], c[0].0);
      assert c[..0] + c[1..] == c[1..];
    } else {
      OthersAt(c[1..], i - 1);
      assert c[1..][..i - 1] == c[1..i] && c[1..][i..] == c[i + 1..];
      assert [c[0]] + (c[1..i] + c[i + 1..]) == c[..i] + c[i + 1..];
    }
  }

  /** A lookup that hits puts the entry in front of the others; one that misses changes
      nothing. */
  lemma GetIsFront<V>(c: Contents<V>, key: string, i: nat)
    requires Distinct(c)
    ensures !Has(c, key) ==> AfterGet(c, key) == c
    ensures i < |c| && c[i].0 == key ==> AfterGet(c, key) == [c[i]] + Others(c, key)
  {
    hide Others;
    if i < |c| && c[i].0 == key {
      assert Find(c, key) == i;
      OthersAt(c, i);
    }
  }

  /** A store puts the entry, new or with its new value, in front of the others, as many of
      which stay as fit. */
  lemma PutIsFront<V>(c: Contents<V>, capacity: nat, key: string, value: V)
    requires Distinct(c) && |c| <= capacity
    ensures AfterPut(c, capacity, key, value) == FirstK([(key, value)] + Others(c, key), capacity)
  {
    hide Others, Find;
    if Has(c, key) {
      var i := Find(c, key);
      OthersAt(c, i);
      FrontReplaced(c, i, (key, value));
    } else {
      NoneOfIt(c, key);
    }
  }

  lemma FrontReplaced<T>(s: seq<T>, i: nat, x: T)
    requires i < |s|
    ensures ToFront(s[i := x], i) == [x] + (s[..i] + s[i + 1..])
  {
  }

  // ---- any number of accesses ----

  /** When a key was last used. */
  function LastUse(keys: seq<string>, key: string): (n: nat)
    requires key in keys
    ensures n < |keys| && keys[n] == key && forall i :: n < i < |keys| ==> keys[i] != key
  {
    var n := |keys| - 1;
    if keys[n] == key then n
    else
      assert keys == keys[..n] + [keys[n]];
      LastUse(keys[..n], key)
  }

  /** The keys used most recently, the last one first, each with its value; a key is left
      out only behind a full cache of more recently used ones. */
  ghost predicate MostRecent<V>(c: Contents<V>, capacity: nat, keys: seq<string>, f: string -> V)
  {
    && |c| <= capacity
    && (forall i :: 0 <= i < |c| ==> c[i].0 in keys && c[i].1 == f(c[i].0))
    && (forall i, j :: 0 <= i < j < |c| ==> LastUse(keys, c[j].0) < LastUse(keys, c[i].0))
    && forall key :: key in keys && !Has(c, key) ==>
         |c| == capacity && forall i :: 0 <= i < |c| ==> LastUse(keys, key) < LastUse(keys, c[i].0)
  }

  lemma LaterUse(keys: seq<string>, key: string, k: string)
    requires k in keys + [key]
    ensures k == key ==> LastUse(keys + [key], k) == |keys|
    ensures k != key ==> k in keys && LastUse(keys + [key], k) == LastUse(keys, k)
  {
    assert (keys + [key])[..|keys|] == keys;
  }

  /** Eviction is of the least recently used: whatever the accesses, the cache holds the
      most recently used keys. */
  lemma {:induction false} CacheIsMostRecent<V>(capacity: nat, keys: seq<string>, f: string -> V)
    ensures MostRecent(AccessAll(capacity, keys, f), capacity, keys, f)
  {
    hide MostRecent, Access, AccessAll;
    if keys == [] {
      NothingYet(capacity, f);
    } else {
      var before, key := keys[..|keys| - 1], keys[|keys| - 1];
      CacheIsMostRecent(capacity, before, f);
      AccessAllStep(capacity, keys, f);
      AccessIsMostRecent(AccessAll(capacity, before, f), capacity, before, key, f);
      assert keys == before + [key];
    }
  }

  lemma NothingYet<V>(capacity: nat, f: string -> V)
    ensures MostRecent(AccessAll(capacity, [], f), capacity, [], f)
  {
    hide LastUse;
  }

  lemma RecentDistinct<V>(c: Contents<V>, capacity: nat, keys: seq<string>, f: string -> V)
    requires MostRecent(c, capacity, keys, f)
    ensures Distinct(c)
  {
    forall i, j | 0 <= i < j < |c|
      ensures c[i].0 != c[j].0
    {
      assert LastUse(keys, c[j].0) < LastUse(keys, c[i].0);
    }
  }

  lemma AccessIsMostRecent<V>(c: Contents<V>, capacity: nat, keys: seq<string>, key: string, f: string -> V)
    requires MostRecent(c, capacity, keys, f)
    ensures MostRecent(Access(c, capacity, key, f), capacity, keys + [key], f)
  {
    hide MostRecent, Find, Has, Others, ToFront, FirstK;
    RecentDistinct(c, capacity, keys, f);
    if Has(c, key) {
      FoundAt(c, key);
      HitMostRecent(c, capacity, keys, Find(c, key), f);
    } else {
      MissIsPush(c, capacity, keys, key, f);
      MissMostRecent(c, capacity, keys, key, f);
    }
  }

  lemma FoundAt<V>(c: Contents<V>, key: string)
    requires Has(c, key)
    ensures Find(c, key) < |c| && c[Find(c, key)].0 == key
    ensures AfterGet(c, key) == ToFront(c, Find(c, key))
  {
    hide ToFront;
  }

  lemma MissIsPush<V>(c: Contents<V>, capacity: nat, keys: seq<string>, key: string, f: string -> V)
    requires MostRecent(c, capacity, keys, f) && !Has(c, key)
    ensures AfterPut(c, capacity, key, f(key)) == FirstK([(key, f(key))] + c, capacity)
  {
    hide LastUse;
    RecentDistinct(c, capacity, keys, f);
    PutIsFront(c, capacity, key, f(key));
    NoneOfIt(c, key);
  }

  /** When the keys of a cache were last used, one use of a key later. */
  lemma UsesAfter<V>(c: Contents<V>, keys: seq<string>, key: string, i: nat)
    requires i < |c| && c[i].0 in keys
    ensures c[i].0 in keys + [key]
    ensures LastUse(keys + [key], c[i].0) == if c[i].0 == key then |keys| else LastUse(keys, c[i].0)
  {
    hide LastUse;
    LaterUse(keys, key, c[i].0);
  }

  // a hit

  lemma HitMostRecent<V>(c: Contents<V>, capacity: nat, keys: seq<string>, at: nat, f: string -> V)
    requires MostRecent(c, capacity, keys, f) && at < |c|
    ensures MostRecent(ToFront(c, at), capacity, keys + [c[at].0], f)
  {
    hide LastUse, ToFront, Has;
    var d, key, more := ToFront(c, at), c[at].0, keys + [c[at].0];
    forall i | 0 <= i < |d|
      ensures d[i].0 in more && d[i].1 == f(d[i].0)
    {
      assert d[i] == c[if i == 0 then at else if i <= at then i - 1 else i];
    }
    forall i, j | 0 <= i < j < |d|
      ensures LastUse(more, d[j].0) < LastUse(more, d[i].0)
    {
      HitOrder(c, capacity, keys, at, f, i, j);
    }
    forall k | k in more && !Has(d, k)
      ensures |d| == capacity && forall i :: 0 <= i < |d| ==> LastUse(more, k) < LastUse(more, d[i].0)
    {
      HitLeaves(c, capacity, keys, at, f, k);
    }
  }

  lemma HitOrder<V>(c: Contents<V>, capacity: nat, keys: seq<string>, at: nat, f: string -> V, i: nat, j: nat)
    requires MostRecent(c, capacity, keys, f) && at < |c| && i < j < |c|
    ensures var d, more := ToFront(c, at), keys + [c[at].0];
      && d[i].0 in more && d[j].0 in more
      && LastUse(more, d[j].0) < LastUse(more, d[i].0)
  {
    hide LastUse, ToFront;
    var x := if i == 0 then at else if i <= at then i - 1 else i;
    var y := if j <= at then j - 1 else j;
    UsesAfter(c, keys, c[at].0, x);
    UsesAfter(c, keys, c[at].0, y);
    DifferentKeys(c, capacity, keys, f, at, y);
    assert i != 0 ==> x < y;
  }

  lemma DifferentKeys<V>(c: Contents<V>, capacity: nat, keys: seq<string>, f: string -> V, i: nat, j: nat)
    requires MostRecent(c, capacity, keys, f) && i < |c| && j < |c| && i != j
    ensures c[i].0 != c[j].0
  {
    hide LastUse;
    RecentDistinct(c, capacity, keys, f);
  }

  lemma HitLeaves<V>(c: Contents<V>, capacity: nat, keys: seq<string>, at: nat, f: string -> V, k: string)
    requires MostRecent(c, capacity, keys, f) && at < |c|
    requires k in keys + [c[at].0] && !Has(ToFront(c, at), k)
    ensures |c| == capacity
    ensures var d, more := ToFront(c, at), keys + [c[at].0];
      forall i :: 0 <= i < |d| ==> d[i].0 in more && LastUse(more, k) < LastUse(more, d[i].0)
  {
    hide LastUse, ToFront, Has;
    var d, more := ToFront(c, at), keys + [c[at].0];
    NotInFront(c, at, k);
    LaterUse(keys, c[at].0, k);
    forall i | 0 <= i < |d|
      ensures d[i].0 in more && LastUse(more, k) < LastUse(more, d[i].0)
    {
      var x := if i == 0 then at else if i <= at then i - 1 else i;
      UsesAfter(c, keys, c[at].0, x);
    }
  }

  lemma NotInFront<V>(c: Contents<V>, at: nat, k: string)
    requires at < |c| && !Has(ToFront(c, at), k)
    ensures !Has(c, k) && k != c[at].0
  {
    hide ToFront;
    var d := ToFront(c, at);
    assert d[0] == c[at];
    forall i | 0 <= i < |c|
      ensures c[i].0 != k
    {
      assert c[i] == d[if i == at then 0 else if i < at then i + 1 else i];
    }
  }

  // a miss

  lemma MissMostRecent<V>(c: Contents<V>, capacity: nat, keys: seq<string>, key: string, f: string -> V)
    requires MostRecent(c, capacity, keys, f) && !Has(c, key)
    ensures MostRecent(FirstK([(key, f(key))] + c, capacity), capacity, keys + [key], f)
  {
    hide LastUse, Has;
    NotHad(c, key);
    var d, more := FirstK([(key, f(key))] + c, capacity), keys + [key];
    forall i | 0 <= i < |d|
      ensures d[i] == (if i == 0 then (key, f(key)) else c[i - 1]) && d[i].0 in more && d[i].1 == f(d[i].0)
    {
    }
    forall i, j | 0 <= i < j < |d|
      ensures LastUse(more, d[j].0) < LastUse(more, d[i].0)
    {
      PushOrder(c, capacity, keys, key, f, i, j);
    }
    forall k | k in more && !Has(d, k)
      ensures |d| == capacity && forall i :: 0 <= i < |d| ==> LastUse(more, k) < LastUse(more, d[i].0)
    {
      PushLeaves(c, capacity, keys, key, f, k);
    }
  }

  lemma NotHad<V>(c: Contents<V>, key: string)
    requires !Has(c, key)
    ensures forall i :: 0 <= i < |c| ==> c[i].0 != key
  {
  }

  /** The pushed list before it is cut. */
  lemma PushOrder<V>(c: Contents<V>, capacity: nat, keys: seq<string>, key: string, f: string -> V, i: nat, j: nat)
    requires MostRecent(c, capacity, keys, f) && i < j <= |c| && forall m :: 0 <= m < |c| ==> c[m].0 != key
    ensures var d, more := [(key, f(key))] + c, keys + [key];
      && d[i].0 in more && d[j].0 in more
      && LastUse(more, d[j].0) < LastUse(more, d[i].0)
  {
    hide LastUse;
    UsesAfter(c, keys, key, j - 1);
    if i == 0 {
      LaterUse(keys, key, key);
    } else {
      UsesAfter(c, keys, key, i - 1);
    }
  }

  lemma PushLeaves<V>(c: Contents<V>, capacity: nat, keys: seq<string>, key: string, f: string -> V, k: string)
    requires MostRecent(c, capacity, keys, f) && forall m :: 0 <= m < |c| ==> c[m].0 != key
    requires k in keys + [key] && !Has(FirstK([(key, f(key))] + c, capacity), k)
    ensures |FirstK([(key, f(key))] + c, capacity)| == capacity
    ensures var d, more := FirstK([(key, f(key))] + c, capacity), keys + [key];
      forall i :: 0 <= i < |d| ==> d[i].0 in more && LastUse(more, k) < LastUse(more, d[i].0)
  {
    hide LastUse, Has;
    var d, more := FirstK([(key, f(key))] + c, capacity), keys + [key];
    PushIsFull(c, capacity, keys, key, f, k);
    forall i | 0 <= i < |d|
      ensures d[i].0 in more && LastUse(more, k) < LastUse(more, d[i].0)
    {
      LaterUse(keys, key, k);
      if i == 0 {
        LaterUse(keys, key, key);
      } else {
        StaysAhead(c, capacity, keys, f, k, i - 1);
        UsesAfter(c, keys, key, i - 1);
      }
    }
  }

  lemma PushIsFull<V>(c: Contents<V>, capacity: nat, keys: seq<string>, key: string, f: string -> V, k: string)
    requires MostRecent(c, capacity, keys, f)
    requires k in keys + [key] && !Has(FirstK([(key, f(key))] + c, capacity), k)
    ensures |FirstK([(key, f(key))] + c, capacity)| == capacity
    ensures 1 <= capacity ==> k != key && k in keys
    ensures forall i :: 0 <= i < |c| && c[i].0 == k ==> capacity <= i + 1
  {
    hide LastUse;
    var all := [(key, f(key))] + c;
    var d := FirstK(all, capacity);
    assert 1 <= capacity ==> d[0].0 == key;
    forall i | 0 <= i < |c| && c[i].0 == k
      ensures capacity <= i + 1
    {
      assert all[i + 1].0 == k;
    }
  }

  /** A key further on, or left out, was used before the one at i. */
  lemma StaysAhead<V>(c: Contents<V>, capacity: nat, keys: seq<string>, f: string -> V, k: string, i: nat)
    requires MostRecent(c, capacity, keys, f) && k in keys && i < |c|
    requires forall j :: 0 <= j <= i ==> c[j].0 != k
    ensures LastUse(keys, k) < LastUse(keys, c[i].0)
  {
    hide LastUse;
    if Has(c, k) {
      var j :| 0 <= j < |c| && c[j].0 == k;
    }
  }
}
