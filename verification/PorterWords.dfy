/** Words as Porter's algorithm sees them: consonants, vowels and the measure. */
module PorterWords {

  /** Whether the letter at i is a consonant: y is one at the front and after a vowel. */
  predicate Consonant(w: string, i: nat)
    requires i < |w|
  {
    if w[i] == 'a' || w[i] == 'e' || w[i] == 'i' || w[i] == 'o' || w[i] == 'u' then false
    else if w[i] == 'y' then i == 0 || !Consonant(w, i - 1)
    else true
  }

  lemma {:induction false} ConsonantPrefix(w: string, n: nat, i: nat)
    requires i < n <= |w|
    ensures Consonant(w[..n], i) == Consonant(w, i)
  {
    if 0 < i {
      ConsonantPrefix(w, n, i - 1);
    }
  }

  /** The consonants and vowels of the first n letters. */
  function Shape(w: string, n: nat): (shape: seq<bool>)
    requires n <= |w|
    ensures |shape| == n && forall i :: 0 <= i < n ==> shape[i] == Consonant(w, i)
  {
    seq(n, i requires 0 <= i < n => Consonant(w, i))
  }

  /** How often a consonant follows a vowel. */
  function Turns(shape: seq<bool>): nat
  {
    var n := |shape|;
    if n <= 1 then 0 else Turns(shape[..n - 1]) + if shape[n - 1] && !shape[n - 2] then 1 else 0
  }

  /** The turns among the first n letters. */
  function TurnsIn(shape: seq<bool>, n: nat): nat
    requires n <= |shape|
  {
    Turns(shape[..n])
  }

  lemma TurnsInStep(shape: seq<bool>, n: nat)
    requires n < |shape|
    ensures TurnsIn(shape, n + 1) == TurnsIn(shape, n) + if 1 <= n && shape[n] && !shape[n - 1] then 1 else 0
  {
    assert shape[..n + 1][..n] == shape[..n];
  }

  lemma TurnsInAll(shape: seq<bool>)
    ensures TurnsIn(shape, 0) == 0 && TurnsIn(shape, |shape|) == Turns(shape)
  {
    assert shape[..|shape|] == shape;
  }

  /** The measure of a word. */
  function Measure(w: string): nat
  {
    Turns(Shape(w, |w|))
  }

  lemma ShapePrefix(w: string, n: nat)
    requires n <= |w|
    ensures Shape(w[..n], n) == Shape(w, n)
  {
    forall i | 0 <= i < n
      ensures Consonant(w[..n], i) == Consonant(w, i)
    {
      ConsonantPrefix(w, n, i);
    }
  }

  lemma {:induction false} FewTurns(shape: seq<bool>)
    ensures shape != [] ==> Turns(shape) < |shape|
  {
    if 1 < |shape| {
      FewTurns(shape[..|shape| - 1]);
    }
  }

  /** A vowel more at the end does not change the measure. */
  lemma VowelMore(w: string)
    requires w != [] && !Consonant(w, |w| - 1)
    ensures Measure(w[..|w| - 1]) == Measure(w)
  {
    var n := |w| - 1;
    ShapePrefix(w, n);
    assert Shape(w, |w|)[..n] == Shape(w, n);
  }

  // ---- the measure is the m of [C](VC)^m[V] ----

  function Run(consonants: bool, n: nat): (run: seq<bool>)
    ensures |run| == n && forall i :: 0 <= i < n ==> run[i] == consonants
  {
    seq(n, _ => consonants)
  }

  /** (VC)^m, each vowel run and each consonant run with its length. */
  function Pairs(lengths: seq<(nat, nat)>): seq<bool>
  {
    if lengths == [] then []
    else
      var last := lengths[|lengths| - 1];
      Pairs(lengths[..|lengths| - 1]) + Run(false, last.0) + Run(true, last.1)
  }

  ghost predicate NoneEmpty(lengths: seq<(nat, nat)>)
  {
    forall i :: 0 <= i < |lengths| ==> 0 < lengths[i].0 && 0 < lengths[i].1
  }

  /** The shape is c consonants, then the pairs, then v vowels. */
  ghost predicate IsForm(shape: seq<bool>, c: nat, lengths: seq<(nat, nat)>, v: nat)
  {
    NoneEmpty(lengths) && shape == Run(true, c) + Pairs(lengths) + Run(false, v)
  }

  lemma TurnsPush(shape: seq<bool>, consonant: bool)
    ensures Turns(shape + [consonant]) ==
      Turns(shape) + if consonant && shape != [] && !shape[|shape| - 1] then 1 else 0
  {
    assert (shape + [consonant])[..|shape|] == shape;
  }

  lemma RunMore(consonants: bool, n: nat)
    ensures Run(consonants, 0) == []
    ensures Run(consonants, n + 1) == Run(consonants, n) + [consonants]
  {
  }

  lemma {:induction false} RunTurns(shape: seq<bool>, consonants: bool, n: nat)
    ensures Turns(shape + Run(consonants, n)) ==
      Turns(shape) + if consonants && 0 < n && shape != [] && !shape[|shape| - 1] then 1 else 0
  {
    hide Turns, Run;
    if n == 0 {
      RunMore(consonants, 0);
      assert shape + [] == shape;
    } else {
      RunTurns(shape, consonants, n - 1);
      RunMore(consonants, n - 1);
      var before := shape + Run(consonants, n - 1);
      TurnsPush(before, consonants);
      assert shape + Run(consonants, n) == before + [consonants];
      assert 1 < n ==> before[|before| - 1] == consonants;
    }
  }

  /** However a word is decomposed, there are as many pairs as its measure says. */
  lemma {:induction false} FormTurns(c: nat, lengths: seq<(nat, nat)>)
    requires NoneEmpty(lengths)
    ensures var shape := Run(true, c) + Pairs(lengths);
      Turns(shape) == |lengths| && (shape != [] ==> shape[|shape| - 1])
  {
    if lengths == [] {
      RunTurns([], true, c);
      assert [] + Run(true, c) == Run(true, c) + Pairs(lengths);
    } else {
      var rest, last := lengths[..|lengths| - 1], lengths[|lengths| - 1];
      FormTurns(c, rest);
      var before := Run(true, c) + Pairs(rest);
      RunTurns(before, false, last.0);
      RunTurns(before + Run(false, last.0), true, last.1);
      assert Run(true, c) + Pairs(lengths) == before + Run(false, last.0) + Run(true, last.1);
    }
  }

  lemma MeasureIsFormCount(w: string, c: nat, lengths: seq<(nat, nat)>, v: nat)
    requires IsForm(Shape(w, |w|), c, lengths, v)
    ensures Measure(w) == |lengths|
  {
    FormTurns(c, lengths);
    RunTurns(Run(true, c) + Pairs(lengths), false, v);
  }

  /** And every word can be decomposed. */
  lemma {:induction false} EveryShapeHasForm(shape: seq<bool>) returns (c: nat, lengths: seq<(nat, nat)>, v: nat)
    ensures IsForm(shape, c, lengths, v)
  {
    hide IsForm;
    if shape == [] {
      c, lengths, v := 0, [], 0;
      EmptyForm();
    } else {
      var n := |shape| - 1;
      c, lengths, v := EveryShapeHasForm(shape[..n]);
      assert shape == shape[..n] + [shape[n]];
      if !shape[n] {
        VowelForm(shape[..n], c, lengths, v);
        v := v + 1;
      } else if 0 < v {
        TurnForm(shape[..n], c, lengths, v);
        lengths, v := lengths + [(v, 1)], 0;
      } else if lengths != [] {
        LongerPairForm(shape[..n], c, lengths);
        var m := |lengths| - 1;
        lengths := lengths[..m] + [(lengths[m].0, lengths[m].1 + 1)];
      } else {
        FrontForm(shape[..n], c);
        c := c + 1;
      }
    }
  }

  lemma EmptyForm()
    ensures IsForm([], 0, [], 0)
  {
  }

  lemma VowelForm(shape: seq<bool>, c: nat, lengths: seq<(nat, nat)>, v: nat)
    requires IsForm(shape, c, lengths, v)
    ensures IsForm(shape + [false], c, lengths, v + 1)
  {
    hide Run, Pairs;
    RunMore(false, v);
  }

  lemma TurnForm(shape: seq<bool>, c: nat, lengths: seq<(nat, nat)>, v: nat)
    requires IsForm(shape, c, lengths, v) && 0 < v
    ensures IsForm(shape + [true], c, lengths + [(v, 1)], 0)
  {
    hide Run, Pairs;
    OneMorePair(lengths, v, 1);
    RunMore(true, 0);
    RunMore(false, 0);
    assert Run(true, 1) == [true];
  }

  lemma LongerPairForm(shape: seq<bool>, c: nat, lengths: seq<(nat, nat)>)
    requires IsForm(shape, c, lengths, 0) && lengths != []
    ensures var m := |lengths| - 1;
      IsForm(shape + [true], c, lengths[..m] + [(lengths[m].0, lengths[m].1 + 1)], 0)
  {
    hide Run, Pairs;
    var m := |lengths| - 1;
    var last := lengths[m];
    assert lengths[..m] + [last] == lengths;
    OneMorePair(lengths[..m], last.0, last.1);
    OneMorePair(lengths[..m], last.0, last.1 + 1);
    RunMore(true, last.1);
    RunMore(false, 0);
  }

  lemma FrontForm(shape: seq<bool>, c: nat)
    requires IsForm(shape, c, [], 0)
    ensures IsForm(shape + [true], c + 1, [], 0)
  {
    hide Run;
    RunMore(true, c);
    RunMore(false, 0);
  }

  lemma OneMorePair(lengths: seq<(nat, nat)>, v: nat, c: nat)
    ensures Pairs(lengths + [(v, c)]) == Pairs(lengths) + Run(false, v) + Run(true, c)
  {
    assert (lengths + [(v, c)])[..|lengths|] == lengths;
  }
}
