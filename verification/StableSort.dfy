/** Python's `sorted`: stable, by a key, ascending. */
module StableSort {

  ghost predicate Chain<T>(s: seq<T>, before: (T, T) -> bool)
  {
    forall i, j :: 0 <= i < j < |s| ==> before(s[i], s[j])
  }

  function Insert<T>(x: T, s: seq<T>, key: T -> real): (r: seq<T>)
    ensures |r| == |s| + 1
  {
    if s == [] then [x]
    else if key(s[0]) < key(x) then [s[0]] + Insert(x, s[1..], key)
    else [x] + s
  }

  function Sort<T>(s: seq<T>, key: T -> real): (r: seq<T>)
    ensures |r| == |s|
  {
    if s == [] then [] else Insert(s[0], Sort(s[1..], key), key)
  }

  lemma {:induction false} InsertPermutes<T>(x: T, s: seq<T>, key: T -> real)
    ensures multiset(Insert(x, s, key)) == multiset(s) + multiset{x}
  {
    if s != [] && key(s[0]) < key(x) {
      InsertPermutes(x, s[1..], key);
      assert s == [s[0]] + s[1..];
    }
  }

  lemma {:induction false} SortSameMultiset<T>(s: seq<T>, key: T -> real)
    ensures multiset(Sort(s, key)) == multiset(s)
  {
    if s != [] {
      SortSameMultiset(s[1..], key);
      InsertPermutes(s[0], Sort(s[1..], key), key);
      assert s == [s[0]] + s[1..];
    }
  }

  lemma SortPermutes<T(!new)>(s: seq<T>, key: T -> real)
    ensures multiset(Sort(s, key)) == multiset(s)
    ensures forall y :: y in Sort(s, key) <==> y in s
  {
    hide Sort;
    SortSameMultiset(s, key);
    forall y
      ensures y in Sort(s, key) <==> y in s
    {
      assert y in Sort(s, key) <==> y in multiset(Sort(s, key));
      assert y in s <==> y in multiset(s);
    }
  }

  /** An order that the key decides where it can. */
  ghost predicate RefinesKey<T(!new)>(before: (T, T) -> bool, key: T -> real)
  {
    && (forall x, y :: key(x) < key(y) ==> before(x, y))
    && (forall x, y :: before(x, y) ==> key(x) <= key(y))
  }

  lemma {:induction false} InsertChain<T(!new)>(x: T, s: seq<T>, key: T -> real, before: (T, T) -> bool)
    requires RefinesKey(before, key) && Chain(s, before)
    requires forall y :: y in s && key(y) == key(x) ==> before(x, y)
    ensures Chain(Insert(x, s, key), before)
  {
    if s == [] {
    } else if key(s[0]) < key(x) {
      InsertChain(x, s[1..], key, before);
      InsertPermutes(x, s[1..], key);
      var rest := Insert(x, s[1..], key);
      forall i | 0 <= i < |rest|
        ensures before(s[0], rest[i])
      {
        assert rest[i] in multiset(rest);
        if rest[i] != x {
          var j :| 0 <= j < |s[1..]| && s[1..][j] == rest[i];
          assert before(s[0], s[j + 1]);
        }
      }
    } else {
      forall i | 0 <= i < |s|
        ensures before(x, s[i])
      {
        assert 0 < i ==> before(s[0], s[i]);
        assert key(x) <= key(s[i]);
        assert s[i] in s;
      }
    }
  }

  /** Stability: members with one key that stood in some order still stand in it. */
  lemma {:induction false} SortChain<T(!new)>(s: seq<T>, key: T -> real, before: (T, T) -> bool)
    requires RefinesKey(before, key)
    requires forall i, j :: 0 <= i < j < |s| && key(s[i]) == key(s[j]) ==> before(s[i], s[j])
    ensures Chain(Sort(s, key), before)
  {
    if s != [] {
      SortChain(s[1..], key, before);
      SortPermutes(s[1..], key);
      var rest := Sort(s[1..], key);
      forall y | y in rest && key(y) == key(s[0])
        ensures before(s[0], y)
      {
        assert y in s[1..];
        var j :| 0 <= j < |s[1..]| && s[1..][j] == y;
        assert s[j + 1] == y;
      }
      InsertChain(s[0], rest, key, before);
    }
  }

  /** The keys ascend. */
  lemma SortAscends<T(!new)>(s: seq<T>, key: T -> real)
    ensures forall i, j :: 0 <= i < j < |s| ==> key(Sort(s, key)[i]) <= key(Sort(s, key)[j])
  {
    var before := (x: T, y: T) => key(x) <= key(y);
    SortChain(s, key, before);
    var r := Sort(s, key);
    forall i, j | 0 <= i < j < |s|
      ensures key(r[i]) <= key(r[j])
    {
      assert before(r[i], r[j]);
    }
  }

  lemma {:induction false} InsertMapped<T(!new), U>(x: T, s: seq<T>, t: seq<U>, keyT: T -> real, keyU: U -> real,
                                                    f: T -> U)
    requires |s| == |t| && forall i :: 0 <= i < |s| ==> t[i] == f(s[i])
    requires forall y :: keyU(f(y)) == keyT(y)
    ensures forall i :: 0 <= i < |s| + 1 ==> Insert(f(x), t, keyU)[i] == f(Insert(x, s, keyT)[i])
  {
    if s != [] && keyT(s[0]) < keyT(x) {
      InsertMapped(x, s[1..], t[1..], keyT, keyU, f);
    }
  }

  /** Sorting looks at nothing but the key. */
  lemma {:induction false} SortMapped<T(!new), U>(s: seq<T>, t: seq<U>, keyT: T -> real, keyU: U -> real, f: T -> U)
    requires |s| == |t| && forall i :: 0 <= i < |s| ==> t[i] == f(s[i])
    requires forall y :: keyU(f(y)) == keyT(y)
    ensures forall i :: 0 <= i < |s| ==> Sort(t, keyU)[i] == f(Sort(s, keyT)[i])
  {
    if s != [] {
      SortMapped(s[1..], t[1..], keyT, keyU, f);
      InsertMapped(s[0], Sort(s[1..], keyT), Sort(t[1..], keyU), keyT, keyU, f);
    }
  }
}
