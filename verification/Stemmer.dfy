/** The stemmer itself: a buffer, the index of its last letter, and a mark before a
    suffix. */
module Stemmer {
  import opened Common
  import opened PorterWords
  import opened PorterRules

  class Stemmer {
    var b: string
    var k: int
    var j: int

    /** The word is in the buffer up to k; what is behind is left over. */
    ghost predicate Valid()
      reads this
    {
      0 <= k < |b| && -1 <= j < |b|
    }

    ghost function Word(): (w: string)
      requires Valid()
      reads this
      ensures |w| == k + 1
    {
      b[..k + 1]
    }

    constructor (word: string)
      requires word != ""
      ensures Valid() && Word() == word && k == |word| - 1
    {
      b, k, j := word, |word| - 1, 0;
    }

    /** Counts the turns from vowels to consonants up to the mark. */
    method CountMeasure() returns (n: nat)
      requires Valid()
      ensures n == Measure(b[..j + 1])
    {
      hide TurnsIn, Turns, Consonant, Shape;
      ghost var shape := Shape(b, j + 1);
      ShapePrefix(b, j + 1);
      TurnsInAll(shape);
      n := 0;
      var i: nat := 0;
      while true
        invariant i <= j + 1
        invariant TurnsIn(shape, i) == 0 && (1 <= i ==> shape[i - 1])
        decreases j + 1 - i
      {
        if i > j {
          return;
        }
        TurnsInStep(shape, i);
        if !Consonant(b, i) {
          break;
        }
        i := i + 1;
      }
      i := i + 1;
      while true
        invariant 1 <= i <= j + 1 && !shape[i - 1] && TurnsIn(shape, i) == n
        decreases j + 1 - i
      {
        while true
          invariant 1 <= i <= j + 1 && !shape[i - 1] && TurnsIn(shape, i) == n
          decreases j + 1 - i
        {
          if i > j {
            return;
          }
          TurnsInStep(shape, i);
          if Consonant(b, i) {
            break;
          }
          i := i + 1;
        }
        i := i + 1;
        n := n + 1;
        while true
          invariant 1 <= i <= j + 1 && shape[i - 1] && TurnsIn(shape, i) == n
          decreases j + 1 - i
        {
          if i > j {
            return;
          }
          TurnsInStep(shape, i);
          if !Consonant(b, i) {
            break;
          }
          i := i + 1;
        }
        i := i + 1;
      }
    }

    method VowelInStem() returns (found: bool)
      requires Valid()
      ensures found == HasVowel(b[..j + 1])
    {
      ghost var stem := b[..j + 1];
      for i := 0 to j + 1
        invariant forall p :: 0 <= p < i ==> Consonant(stem, p)
      {
        ConsonantPrefix(b, j + 1, i);
        if !Consonant(b, i) {
          return true;
        }
      }
      return false;
    }

    /** On success the mark is put before the suffix; otherwise it stays. */
    method Ends(s: string) returns (hit: bool)
      requires Valid()
      modifies this`j
      ensures Valid() && hit == EndsWith(Word(), s)
      ensures j == if hit then k - |s| else old(j)
    {
      var length := |s|;
      if length > k + 1 {
        return false;
      }
      assert Word()[|Word()| - length..] == b[k - length + 1..k + 1];
      if b[k - length + 1..k + 1] != s {
        return false;
      }
      j := k - length;
      return true;
    }

    /** Everything behind the mark becomes s. */
    method SetTo(s: string)
      requires Valid() && 0 <= j + |s|
      modifies this`b, this`k
      ensures Valid() && Word() == old(b)[..j + 1] + s
    {
      var length := |s|;
      b := b[..j + 1] + s;
      k := j + length;
    }

    /** Goes through rules in order up to the first that fires, its suffix marked. */
    method FindRule(rules: seq<Rule>) returns (found: Option<Rule>)
      requires Valid()
      modifies this`j
      ensures Valid() && found == FirstMatch(rules, Word())
      ensures found.Some? ==> j == k - |found.value.suffix|
    {
      hide EndsWith, Fires, FirstMatch;
      assert rules[0..] == rules;
      for n := 0 to |rules|
        invariant Valid() && FirstMatch(rules, Word()) == FirstMatch(rules[n..], Word())
      {
        var rule := rules[n];
        MatchStep(rules, n, Word());
        var hit := Ends(rule.suffix);
        FiresHere(rule, hit);
        if hit && (rule.after == "" || (j >= 0 && b[j] in rule.after)) {
          return Some(rule);
        }
      }
      return None;
    }

    lemma MatchStep(rules: seq<Rule>, n: nat, w: string)
      requires n < |rules|
      ensures FirstMatch(rules[n..], w) == if Fires(rules[n], w) then Some(rules[n]) else FirstMatch(rules[n + 1..], w)
    {
      assert rules[n..][0] == rules[n] && rules[n..][1..] == rules[n + 1..];
    }

    lemma FiresHere(rule: Rule, hit: bool)
      requires Valid() && hit == EndsWith(Word(), rule.suffix) && (hit ==> j == k - |rule.suffix|)
      ensures Fires(rule, Word()) <==> hit && (rule.after == "" || (j >= 0 && b[j] in rule.after))
    {
    }

    /** Replaces the suffix of the rule found, if the measure before it is positive. */
    method Replace(found: Option<Rule>)
      requires Valid() && (found.Some? ==> EndsWith(Word(), found.value.suffix) && j == k - |found.value.suffix|)
      modifies this`b, this`k
      ensures Valid() && Word() == Rewrite(found, 0, old(Word()))
    {
      if found.Some? {
        assert Before(Word(), |found.value.suffix|) == b[..j + 1];
        var m := CountMeasure();
        if m > 0 {
          MeasureSmall(b[..j + 1]);
          SetTo(found.value.replacement);
        }
      }
    }

    method Step1Plural()
      requires Valid() && 1 <= k
      modifies this
      ensures Valid() && Word() == Singular(old(Word()))
    {
      hide Singular, EndsWith;
      ghost var w := Word();
      SingularOf(w);
      if b[k] == 's' {
        var hit := Ends("sses");
        if hit {
          k := k - 2;
          return;
        }
        hit := Ends("ies");
        if hit {
          assert b[..j + 1] == Before(w, 3);
          SetTo("i");
        } else if b[k - 1] != 's' {
          k := k - 1;
        }
      }
    }

    /** `DoubleConsonant` of the word ending at k. */
    lemma LastTwo()
      requires Valid()
      ensures Consonant(Word(), k) == Consonant(b, k)
      ensures 1 <= k ==> Consonant(Word(), k - 1) == Consonant(b, k - 1)
      ensures 2 <= k ==> Consonant(Word(), k - 2) == Consonant(b, k - 2)
    {
      ConsonantPrefix(b, k + 1, k);
      if 1 <= k {
        ConsonantPrefix(b, k + 1, k - 1);
      }
      if 2 <= k {
        ConsonantPrefix(b, k + 1, k - 2);
      }
    }

    method EndsDouble() returns (double: bool)
      requires Valid()
      ensures double == DoubleConsonant(Word())
    {
      LastTwo();
      if k < 1 {
        return false;
      }
      if b[k] != b[k - 1] {
        return false;
      }
      return Consonant(b, k);
    }

    /** Whether the word up to `last` ends consonant, vowel, consonant. */
    method EndsShort(last: int) returns (short: bool)
      requires Valid() && -1 <= last <= k
      ensures short == ShortEnd(b[..last + 1])
    {
      if last < 2 {
        return false;
      }
      ConsonantPrefix(b, last + 1, last);
      ConsonantPrefix(b, last + 1, last - 1);
      ConsonantPrefix(b, last + 1, last - 2);
      if !Consonant(b, last) || Consonant(b, last - 1) || !Consonant(b, last - 2) {
        return false;
      }
      var ch := b[last];
      return !(ch == 'w' || ch == 'x' || ch == 'y');
    }

    /** An ending of two letters gets an e behind it. */
    method AddE(ending: string) returns (hit: bool)
      requires Valid() && |ending| == 2
      modifies this
      ensures Valid() && hit == EndsWith(old(Word()), ending)
      ensures !hit ==> b == old(b) && k == old(k) && j == old(j)
      ensures hit ==> Word() == old(Word()) + "e"
    {
      hit := Ends(ending);
      if hit {
        ghost var w := Word();
        assert b[..j + 1] == Before(w, 2);
        SetTo(ending + "e");
      }
    }

    /** With the mark at the end of the word. */
    method Restore()
      requires Valid() && j == k
      modifies this
      ensures Valid() && Word() == Restored(old(Word()))
    {
      hide EndsWith, DoubleConsonant, ShortEnd, Measure, Restored;
      ghost var w := Word();
      RestoredOf(w);
      var hit := AddE("at");
      if hit {
        return;
      }
      hit := AddE("bl");
      if hit {
        return;
      }
      hit := AddE("iz");
      if hit {
        return;
      }
      var double := EndsDouble();
      if double {
        DoubleIsTwo(w);
        k := k - 1;
        var ch := b[k];
        if ch == 'l' || ch == 's' || ch == 'z' {
          k := k + 1;
        }
        return;
      }
      var m := CountMeasure();
      if m == 1 {
        var short := EndsShort(k);
        if short {
          SetTo("e");
        }
      }
    }

    lemma DoubleIsTwo(w: string)
      requires DoubleConsonant(w)
      ensures 2 <= |w| && w[|w| - 1] == w[|w| - 2]
    {
    }

    method Step1Past()
      requires Valid()
      modifies this
      ensures Valid() && Word() == Past(old(Word()))
    {
      hide Restored, Measure, HasVowel, EndsWith;
      ghost var w := Word();
      var hit := Ends("eed");
      if hit {
        assert Before(w, 3) == b[..j + 1];
        var m := CountMeasure();
        if m > 0 {
          k := k - 1;
        }
        return;
      }
      hit := Ends("ed");
      if !hit {
        hit := Ends("ing");
      }
      if hit {
        PastOf(w, k - j);
        assert b[..j + 1] == Before(w, k - j);
        var vowel := VowelInStem();
        if vowel {
          VowelSomewhere(b[..j + 1]);
          k := j;
          Restore();
        }
      }
    }

    method Step1c()
      requires Valid()
      modifies this
      ensures Valid() && Word() == FinalY(old(Word()))
    {
      ghost var w := Word();
      var hit := Ends("y");
      if hit {
        assert Before(w, 1) == b[..j + 1];
        var vowel := VowelInStem();
        if vowel {
          b := b[k := 'i'];
          assert Word() == Before(w, 1) + "i";
        }
      }
    }

    method DoStep2()
      requires Valid()
      modifies this
      ensures Valid() && Word() == Step2(old(Word()))
    {
      hide Rules2, Joined, FirstMatch, Rewrite, EndsWith, Fires;
      Switch2(Word());
      if k == 0 {
        return;
      }
      var found := FindRule(Rules2(b[k - 1]));
      FoundEnds(Rules2(Word()[k - 1]), Word());
      Replace(found);
    }

    lemma FoundEnds(rules: seq<Rule>, w: string)
      ensures var found := FirstMatch(rules, w); found.Some? ==> found.value in rules && EndsWith(w, found.value.suffix)
    {
    }

    method DoStep3()
      requires Valid()
      modifies this
      ensures Valid() && Word() == Step3(old(Word()))
    {
      hide Rules3, Joined, FirstMatch, Rewrite, EndsWith, Fires;
      Switch3(Word());
      var found := FindRule(Rules3(b[k]));
      FoundEnds(Rules3(Word()[k]), Word());
      Replace(found);
    }

    method DoStep4()
      requires Valid()
      modifies this
      ensures Valid() && Word() == Step4(old(Word()))
    {
      hide Rules4, Joined, FirstMatch, Rewrite, Measure, EndsWith, Fires;
      ghost var w := Word();
      Switch4(w);
      if k == 0 {
        return;
      }
      var found := FindRule(Rules4(b[k - 1]));
      if found.None? {
        NoRewrite(1, w);
        return;
      }
      FoundEnds(Rules4(w[k - 1]), w);
      OnlyRemoves(b[k - 1], found.value);
      Removed(found, 1, w);
      assert Before(w, |found.value.suffix|) == b[..j + 1];
      var m := CountMeasure();
      if m > 1 {
        MeasureSmall(b[..j + 1]);
        k := j;
      }
    }

    lemma OnlyRemoves(c: char, r: Rule)
      requires r in Rules4(c)
      ensures r.replacement == ""
    {
      assert forall i :: 0 <= i < |Rules4(c)| ==> Rules4(c)[i].replacement == "";
    }

    /** The mark stays behind an e that has gone; the measure does not see the e. */
    method DropE()
      requires Valid()
      modifies this
      ensures Valid() && Word() == FinalE(old(Word())) && Measure(b[..j + 1]) == Measure(Word())
    {
      hide Measure, ShortEnd;
      ghost var w := Word();
      j := k;
      if b[k] == 'e' {
        var a := CountMeasure();
        MeasureSmall(w);
        VowelMore(w);
        var short := EndsShort(k - 1);
        assert b[..k] == Before(w, 1) == w[..|w| - 1];
        if a > 1 || (a == 1 && !short) {
          k := k - 1;
        }
      }
    }

    method DropL()
      requires Valid() && Measure(b[..j + 1]) == Measure(Word())
      modifies this`k
      ensures Valid() && Word() == FinalLl(old(Word()))
    {
      hide Measure, DoubleConsonant;
      MeasureSmall(Word());
      if b[k] == 'l' {
        var double := EndsDouble();
        if double {
          var m := CountMeasure();
          if m > 1 {
            k := k - 1;
          }
        }
      }
    }

    method Step5()
      requires Valid()
      modifies this
      ensures Valid() && Word() == FinalLl(FinalE(old(Word())))
    {
      DropE();
      DropL();
    }
  }

  /** Never reads or writes outside the buffer, and gives a stem that is not empty and not
      longer than the word. */
  method Stem(word: string) returns (stem: string)
    ensures stem == StemOf(word)
    ensures word != "" ==> 1 <= |stem| <= |word|
  {
    hide Singular, Past, FinalY, Step2, Step3, Step4, FinalE, FinalLl;
    if word != "" {
      StemSize(word);
    }
    if |word| <= 2 {
      return word;
    }
    var s := new Stemmer(word);
    s.Step1Plural();
    s.Step1Past();
    s.Step1c();
    s.DoStep2();
    s.DoStep3();
    s.DoStep4();
    s.Step5();
    stem := s.b[..s.k + 1];
  }
}
