/** Plurals, past tenses and final letters, for every word that has them, and which letters
    and ends count as what. */
module PorterSteps {
  import opened PorterWords
  import opened PorterRules

  lemma Ending(x: string, suffix: string)
    ensures EndsWith(x + suffix, suffix) && Before(x + suffix, |suffix|) == x
  {
  }

  /** Which letters are consonants: y is one exactly at the front and behind a vowel. */
  lemma LetterKinds(w: string, i: nat)
    requires i < |w|
    ensures w[i] in {'a', 'e', 'i', 'o', 'u'} ==> !Consonant(w, i)
    ensures w[i] !in {'a', 'e', 'i', 'o', 'u', 'y'} ==> Consonant(w, i)
    ensures w[i] == 'y' && i == 0 ==> Consonant(w, i)
    ensures w[i] == 'y' && 0 < i ==> (Consonant(w, i) <==> !Consonant(w, i - 1))
    ensures w[i] == 'y' && 0 < i && w[i - 1] in {'a', 'e', 'i', 'o', 'u'} ==> Consonant(w, i)
    ensures w[i] == 'y' && 0 < i && w[i - 1] !in {'a', 'e', 'i', 'o', 'u', 'y'} ==> !Consonant(w, i)
  {
  }

  /** The shapes and measures of two words with y. */
  lemma ToyAndSyzygy()
    ensures Shape("toy", 3) == [true, false, true] && Measure("toy") == 1
    ensures Shape("syzygy", 6) == [true, false, true, false, true, false] && Measure("syzygy") == 2
  {
    PairOrTwo();
    var toy: string, syzygy: string := "toy", "syzygy";
    assert Consonant(toy, 0) && !Consonant(toy, 1) && Consonant(toy, 2);
    var shape := Shape(toy, 3);
    assert shape == [shape[0], shape[1], shape[2]];
    assert Shape("toy", 3) == Run(true, 1) + Pairs([(1, 1)]) + Run(false, 0);
    MeasureIsFormCount("toy", 1, [(1, 1)], 0);
    assert Consonant(syzygy, 0) && !Consonant(syzygy, 1) && Consonant(syzygy, 2);
    assert !Consonant(syzygy, 3) && Consonant(syzygy, 4) && !Consonant(syzygy, 5);
    shape := Shape(syzygy, 6);
    assert shape == [shape[0], shape[1], shape[2], shape[3], shape[4], shape[5]];
    assert Shape("syzygy", 6) == Run(true, 1) + Pairs([(1, 1), (1, 1)]) + Run(false, 1);
    MeasureIsFormCount("syzygy", 1, [(1, 1), (1, 1)], 1);
  }

  lemma PairOrTwo()
    ensures Pairs([(1, 1)]) == [false, true]
    ensures Pairs([(1, 1), (1, 1)]) == [false, true, false, true]
    ensures Run(true, 1) == [true] && Run(false, 1) == [false] && Run(false, 0) == []
  {
    assert [(1, 1)][..0] == [] && Pairs([]) == [];
    assert [(1, 1), (1, 1)][..1] == [(1, 1)];
    assert Pairs([(1, 1)]) == [] + Run(false, 1) + Run(true, 1);
  }

  /** Which words are short at the end. */
  lemma ShortEnds(x: string, a: char, b: char, c: char)
    ensures a !in {'a', 'e', 'i', 'o', 'u', 'y'} && b in {'a', 'e', 'i', 'o', 'u'} ==>
      (c !in {'a', 'e', 'i', 'o', 'u', 'w', 'x', 'y'} ==> ShortEnd(x + [a, b, c])) &&
      (c in {'a', 'e', 'i', 'o', 'u', 'w', 'x', 'y'} ==> !ShortEnd(x + [a, b, c]))
    ensures a in {'a', 'e', 'i', 'o', 'u'} || b !in {'a', 'e', 'i', 'o', 'u', 'y'} ==> !ShortEnd(x + [a, b, c])
    ensures |x| < 3 ==> !ShortEnd(x)
  {
    var w := x + [a, b, c];
    var n := |x|;
    assert w[n] == a && w[n + 1] == b && w[n + 2] == c;
  }

  /** Plurals: -sses, -ies, -ss, and a single -s behind any other letter. */
  lemma SingularEndings(x: string, c: char)
    ensures Singular(x + "sses") == x + "ss"
    ensures Singular(x + "ies") == x + "i"
    ensures Singular(x + "ss") == x + "ss"
    ensures c != 's' && !(c == 'e' && (EndsWith(x, "ss") || EndsWith(x, "i"))) ==> Singular(x + [c, 's']) == x + [c]
    ensures c != 's' ==> Singular(x + [c]) == x + [c]
  {
    SingularSses(x);
    SingularIes(x);
    SingularS(x, c);
    LastNot(x + "ss", "ies", 1);
    LastNot(x + "ss", "sses", 1);
  }

  lemma LastNot(w: string, suffix: string, at: nat)
    requires at < |w| && at < |suffix| && w[|w| - 1 - at] != suffix[|suffix| - 1 - at]
    ensures !EndsWith(w, suffix)
  {
  }

  lemma SingularSses(x: string)
    ensures Singular(x + "sses") == x + "ss"
  {
    Ending(x, "sses");
    assert (x + "sses")[..|x| + 2] == x + "ss";
  }

  lemma SingularIes(x: string)
    ensures Singular(x + "ies") == x + "i"
  {
    Ending(x, "ies");
    LastNot(x + "ies", "sses", 2);
  }

  lemma SingularS(x: string, c: char)
    ensures c != 's' && !(c == 'e' && (EndsWith(x, "ss") || EndsWith(x, "i"))) ==> Singular(x + [c, 's']) == x + [c]
  {
    var w := x + [c, 's'];
    assert w[..|w| - 1] == x + [c];
    if EndsWith(w, "sses") {
      assert w[|w| - 4..][2] == 'e' && x[|x| - 2..] == w[|w| - 4..][..2] == "ss";
    }
    if EndsWith(w, "ies") {
      assert w[|w| - 3..][1] == 'e' && x[|x| - 1..] == w[|w| - 3..][..1] == "i";
    }
  }

  /** Past tenses: -eed loses its d behind a positive measure; -ed and -ing go behind a
      vowel, and the stem is restored. */
  lemma PastEndings(x: string)
    ensures Past(x + "eed") == if Measure(x) > 0 then x + "ee" else x + "eed"
    ensures !EndsWith(x, "e") ==> Past(x + "ed") == if HasVowel(x) then Restored(x) else x + "ed"
    ensures Past(x + "ing") == if HasVowel(x) then Restored(x) else x + "ing"
  {
    hide Measure, HasVowel, Restored;
    PastEed(x);
    PastEd(x);
    PastIng(x);
  }

  lemma PastEed(x: string)
    ensures Past(x + "eed") == if Measure(x) > 0 then x + "ee" else x + "eed"
  {
    hide Measure, HasVowel, Restored;
    Ending(x, "eed");
    assert (x + "eed")[..|x| + 2] == x + "ee";
  }

  lemma PastEd(x: string)
    ensures !EndsWith(x, "e") ==> Past(x + "ed") == if HasVowel(x) then Restored(x) else x + "ed"
  {
    hide Measure, HasVowel, Restored;
    Ending(x, "ed");
    var w := x + "ed";
    if EndsWith(w, "eed") {
      assert x[|x| - 1..] == w[|w| - 3..][..1] == "e";
    }
    LastNot(w, "ing", 0);
  }

  lemma PastIng(x: string)
    ensures Past(x + "ing") == if HasVowel(x) then Restored(x) else x + "ing"
  {
    hide Measure, HasVowel, Restored;
    Ending(x, "ing");
    LastNot(x + "ing", "eed", 0);
    LastNot(x + "ing", "ed", 0);
  }

  /** What is put back: an e behind at, bl and iz and behind short stems; a doubled letter
      becomes single, unless it is l, s or z. */
  lemma RestoredEndings(x: string, c: char)
    ensures Restored(x + "at") == x + "ate" && Restored(x + "bl") == x + "ble" && Restored(x + "iz") == x + "ize"
    ensures c !in {'a', 'e', 'i', 'o', 'u', 'y', 'l', 's', 'z'} ==> Restored(x + [c, c]) == x + [c]
    ensures c in {'l', 's', 'z'} ==> Restored(x + [c, c]) == x + [c, c]
    ensures !EndsWith(x, "at") && !EndsWith(x, "bl") && !EndsWith(x, "iz") && !DoubleConsonant(x) ==>
      Restored(x) == if Measure(x) == 1 && ShortEnd(x) then x + "e" else x
  {
    hide Measure, ShortEnd;
    RestoredE(x);
    RestoredDouble(x, c);
  }

  lemma RestoredE(x: string)
    ensures Restored(x + "at") == x + "ate" && Restored(x + "bl") == x + "ble" && Restored(x + "iz") == x + "ize"
  {
    hide Measure, ShortEnd, DoubleConsonant;
    Ending(x, "at");
    Ending(x, "bl");
    Ending(x, "iz");
    assert x + "at" + "e" == x + "ate" && x + "bl" + "e" == x + "ble" && x + "iz" + "e" == x + "ize";
  }

  lemma RestoredDouble(x: string, c: char)
    ensures c !in {'a', 'e', 'i', 'o', 'u', 'y', 'l', 's', 'z'} ==> Restored(x + [c, c]) == x + [c]
    ensures c in {'l', 's', 'z'} ==> Restored(x + [c, c]) == x + [c, c]
  {
    hide Measure, ShortEnd;
    var w := x + [c, c];
    assert w[|w| - 1] == c && w[|w| - 2] == c && w[..|w| - 1] == x + [c];
    NoneDoubled(w, "at");
    NoneDoubled(w, "bl");
    NoneDoubled(w, "iz");
  }

  lemma NoneDoubled(w: string, suffix: string)
    requires 2 <= |w| && w[|w| - 1] == w[|w| - 2] && |suffix| == 2 && suffix[0] != suffix[1]
    ensures !EndsWith(w, suffix)
  {
  }

  /** A final y behind a vowel becomes i; a final e goes behind a measure above one, or of one
      if no short end is left; of a final double l one goes if the measure is above one. All
      other words are left alone. */
  lemma FinalLetters(x: string)
    ensures FinalY(x + "y") == if HasVowel(x) then x + "i" else x + "y"
    ensures FinalE(x + "e") ==
      if Measure(x) > 1 || (Measure(x) == 1 && !ShortEnd(x)) then x else x + "e"
    ensures FinalLl(x + "ll") == if Measure(x + "ll") > 1 then x + "l" else x + "ll"
    ensures !EndsWith(x, "y") ==> FinalY(x) == x
    ensures !EndsWith(x, "e") ==> FinalE(x) == x
    ensures !EndsWith(x, "ll") ==> FinalLl(x) == x
  {
    hide Measure, ShortEnd, HasVowel;
    Ending(x, "y");
    Ending(x, "e");
    FinalEMeasure(x);
    FinalDouble(x);
  }

  lemma FinalEMeasure(x: string)
    ensures Measure(x + "e") == Measure(x)
  {
    var w := x + "e";
    assert w[|w| - 1] == 'e' && w[..|w| - 1] == x;
    VowelMore(w);
  }

  lemma FinalDouble(x: string)
    ensures FinalLl(x + "ll") == if Measure(x + "ll") > 1 then x + "l" else x + "ll"
    ensures !EndsWith(x, "ll") ==> FinalLl(x) == x
  {
    hide Measure;
    var w := x + "ll";
    assert w[|w| - 1] == 'l' && w[|w| - 2] == 'l' && Before(w, 1) == x + "l";
    assert EndsWith(w, "l");
    if 2 <= |x| && x[|x| - 1] == 'l' && x[|x| - 2] == 'l' {
      assert x[|x| - 2..] == "ll";
    }
  }
}
