/** The steps of the stemmer one after the other, for all words with some endings. */
module PorterChains {
  import opened Common
  import opened PorterWords
  import opened PorterRules
  import opened PorterLaws
  import opened PorterSteps

  /** The first three steps look only for words that end in s, d, g or y. */
  lemma FrontKept(w: string)
    requires 2 < |w| && w[|w| - 1] !in {'s', 'd', 'g', 'y'}
    ensures StemOf(w) == FinalLl(FinalE(Step4(Step3(Step2(w)))))
  {
    hide Step2, Step3, Step4, FinalE, FinalLl, Measure, HasVowel, Restored;
    LastNot(w, "eed", 0);
    LastNot(w, "ed", 0);
    LastNot(w, "ing", 0);
    LastNot(w, "y", 0);
  }

  /** A step whose switch finds nothing leaves the word alone, and one that finds a rule
      obeys it. */
  lemma Found(w: string, r: Rule)
    requires 2 <= |w| && EndsWith(w, r.suffix)
    ensures FirstMatch(Rules2(w[|w| - 2]), w) == Some(r) ==> Step2(w) == Replaced(r, 0, w)
    ensures FirstMatch(Rules3(w[|w| - 1]), w) == Some(r) ==> Step3(w) == Replaced(r, 0, w)
    ensures FirstMatch(Rules4(w[|w| - 2]), w) == Some(r) ==> Step4(w) == Replaced(r, 1, w)
  {
    hide FirstMatch, Rules2, Rules3, Rules4, Joined, Measure;
    Switch2(w);
    Switch3(w);
    Switch4(w);
  }

  lemma {:induction false} MatchAt(rules: seq<Rule>, w: string, i: nat)
    requires i < |rules| && Fires(rules[i], w) && forall j :: 0 <= j < i ==> !Fires(rules[j], w)
    ensures FirstMatch(rules, w) == Some(rules[i])
  {
    if 0 < i {
      MatchAt(rules[1..], w, i - 1);
    }
  }

  lemma Quiet(w: string)
    requires 2 <= |w|
    ensures FirstMatch(Rules2(w[|w| - 2]), w).None? ==> Step2(w) == w
    ensures FirstMatch(Rules3(w[|w| - 1]), w).None? ==> Step3(w) == w
    ensures FirstMatch(Rules4(w[|w| - 2]), w).None? ==> Step4(w) == w
  {
    hide FirstMatch, Rules2, Rules3, Rules4, Joined;
    Switch2(w);
    Switch3(w);
    Switch4(w);
  }

  /** -iciti becomes -ic in step 3, and -ic goes in step 4. */
  lemma Iciti(x: string)
    requires Measure(x) > 1
    ensures StemOf(x + "iciti") == FinalLl(FinalE(x))
  {
    hide Step2, Step3, Step4, FinalE, FinalLl, Measure, StemOf;
    FrontKept(x + "iciti");
    IcitiSteps(x);
  }

  lemma IcitiSteps(x: string)
    ensures Step2(x + "iciti") == x + "iciti"
    ensures Measure(x) > 0 ==> Step3(x + "iciti") == x + "ic"
    ensures Measure(x) > 1 ==> Step4(x + "ic") == x
  {
    hide Step2, Step3, Step4, Measure;
    Iciti2(x);
    Iciti3(x);
    Iciti4(x);
  }

  lemma Iciti2(x: string)
    ensures Step2(x + "iciti") == x + "iciti"
  {
    hide Step2, Step3, Step4, EndsWith;
    var w := x + "iciti";
    LastNot(w, "aliti", 3);
    LastNot(w, "iviti", 3);
    LastNot(w, "biliti", 3);
    Quiet(w);
  }

  lemma Iciti3(x: string)
    ensures Measure(x) > 0 ==> Step3(x + "iciti") == x + "ic"
  {
    hide Step2, Step3, Step4, Measure, EndsWith;
    Ending(x, "iciti");
    Found(x + "iciti", Plain("iciti", "ic"));
  }

  lemma Iciti4(x: string)
    ensures Measure(x) > 1 ==> Step4(x + "ic") == x
  {
    hide Step2, Step3, Step4, Measure, EndsWith;
    Ending(x, "ic");
    Found(x + "ic", Plain("ic", ""));
    assert x + "" == x;
  }

  /** -fulness becomes -ful in step 2, and -ful goes in step 3. */
  lemma Fulness(x: string)
    requires Measure(x) > 0
    ensures StemOf(x + "fulness") == FinalLl(FinalE(Step4(x)))
  {
    hide Step2, Step3, Step4, FinalE, FinalLl, Measure, StemOf;
    FulnessFront(x);
    Fulness2(x);
    Fulness3(x);
  }

  lemma FulnessFront(x: string)
    ensures StemOf(x + "fulness") == FinalLl(FinalE(Step4(Step3(Step2(x + "fulness")))))
  {
    hide Step2, Step3, Step4, FinalE, FinalLl, Singular, Measure, HasVowel, Restored;
    var w := x + "fulness";
    assert x + "fulne" + "ss" == w;
    SingularEndings(x + "fulne", 'a');
    LastNot(w, "eed", 0);
    LastNot(w, "ed", 0);
    LastNot(w, "ing", 0);
    LastNot(w, "y", 0);
  }

  lemma Fulness2(x: string)
    ensures Measure(x) > 0 ==> Step2(x + "fulness") == x + "ful"
  {
    hide Step2, Step3, Step4, Measure, EndsWith;
    var w := x + "fulness";
    Ending(x, "fulness");
    LastNot(w, "alism", 0);
    LastNot(w, "iveness", 4);
    MatchAt(Rules2('s'), w, 2);
    Found(w, Plain("fulness", "ful"));
  }

  lemma Fulness3(x: string)
    ensures Measure(x) > 0 ==> Step3(x + "ful") == x
  {
    hide Step2, Step3, Step4, Measure, EndsWith;
    Ending(x, "ful");
    LastNot(x + "ful", "ical", 1);
    MatchAt(Rules3('l'), x + "ful", 1);
    Found(x + "ful", Plain("ful", ""));
    assert x + "" == x;
  }

  /** -ency becomes -enci, then -ence in step 2, and -ence goes in step 4. */
  lemma Ency(x: string)
    requires Measure(x) > 1
    ensures StemOf(x + "ency") == FinalLl(FinalE(x))
  {
    hide Step2, Step3, Step4, FinalE, FinalLl, Measure, StemOf;
    EncyFront(x);
    Enci2(x);
    Ence3(x);
    Ence4(x);
  }

  lemma EncyFront(x: string)
    ensures StemOf(x + "ency") == FinalLl(FinalE(Step4(Step3(Step2(x + "enci")))))
  {
    hide Step2, Step3, Step4, FinalE, FinalLl, FinalY, Measure, HasVowel, Restored;
    var w := x + "ency";
    LastNot(w, "eed", 0);
    LastNot(w, "ed", 0);
    LastNot(w, "ing", 0);
    assert (x + "enc")[|x|] == 'e';
    assert !Consonant(x + "enc", |x|) && HasVowelAt(x + "enc", |x|);
    SomeVowel(x + "enc", |x|);
    assert x + "enc" + "y" == w && x + "enc" + "i" == x + "enci";
    FinalLetters(x + "enc");
  }

  predicate HasVowelAt(w: string, i: nat)
  {
    i < |w| && !Consonant(w, i)
  }

  lemma SomeVowel(w: string, i: nat)
    requires HasVowelAt(w, i)
    ensures HasVowel(w)
  {
  }

  lemma Enci2(x: string)
    ensures Measure(x) > 0 ==> Step2(x + "enci") == x + "ence"
  {
    hide Step2, Step3, Step4, Measure, EndsWith;
    Ending(x, "enci");
    Found(x + "enci", Plain("enci", "ence"));
  }

  lemma Ence3(x: string)
    ensures Step3(x + "ence") == x + "ence"
  {
    hide Step2, Step3, Step4, Measure, EndsWith;
    var w := x + "ence";
    LastNot(w, "icate", 1);
    LastNot(w, "ative", 1);
    LastNot(w, "alize", 1);
    Quiet(w);
  }

  lemma Ence4(x: string)
    ensures Measure(x) > 1 ==> Step4(x + "ence") == x
  {
    hide Step2, Step3, Step4, Measure, EndsWith;
    Ending(x, "ence");
    LastNot(x + "ence", "ance", 3);
    MatchAt(Rules4('c'), x + "ence", 1);
    Found(x + "ence", Plain("ence", ""));
    assert x + "" == x;
  }

  /** -ate goes in step 4, and only then is a final e looked for. */
  lemma Ate(x: string)
    requires Measure(x) > 1 && !EndsWith(x, "ic")
    ensures StemOf(x + "ate") == FinalLl(FinalE(x))
  {
    hide Step2, Step3, Step4, FinalE, FinalLl, Measure, StemOf, EndsWith;
    FrontKept(x + "ate");
    AteSteps(x);
  }

  lemma AteSteps(x: string)
    requires !EndsWith(x, "ic")
    ensures Step2(x + "ate") == x + "ate" && Step3(x + "ate") == x + "ate"
    ensures Measure(x) > 1 ==> Step4(x + "ate") == x
  {
    hide Step2, Step3, Step4, Measure, EndsWith;
    var w := x + "ate";
    LastNot(w, "aliti", 0);
    LastNot(w, "iviti", 0);
    LastNot(w, "biliti", 0);
    NotIcate(x);
    LastNot(w, "ative", 1);
    LastNot(w, "alize", 1);
    Quiet(w);
    Ending(x, "ate");
    Found(w, Plain("ate", ""));
    assert x + "" == x;
  }

  lemma NotIcate(x: string)
    requires !EndsWith(x, "ic")
    ensures !EndsWith(x + "ate", "icate")
  {
    var w := x + "ate";
    assert 2 <= |x| ==> x[|x| - 2..] == w[|w| - 5..][..2];
  }

  /** -izings loses its s, then its -ing, for which an e comes back, and -ize goes in
      step 4. */
  lemma Izings(x: string)
    requires Measure(x) > 1 && !EndsWith(x, "al")
    ensures StemOf(x + "izings") == FinalLl(FinalE(x))
  {
    hide Step2, Step3, Step4, FinalE, FinalLl, Measure, StemOf, EndsWith;
    IzingsFront(x);
    IzeSteps(x);
  }

  lemma IzingsFront(x: string)
    ensures StemOf(x + "izings") == FinalLl(FinalE(Step4(Step3(Step2(x + "ize")))))
  {
    hide Step2, Step3, Step4, FinalE, FinalLl, Singular, Past, FinalY, Measure, HasVowel, Restored;
    assert x + "izin" + ['g', 's'] == x + "izings" && x + "izin" + ['g'] == x + "iz" + "ing";
    SingularEndings(x + "izin", 'g');
    assert (x + "iz")[|x|] == 'i';
    assert HasVowelAt(x + "iz", |x|);
    SomeVowel(x + "iz", |x|);
    PastEndings(x + "iz");
    RestoredEndings(x, 'a');
    LastNot(x + "ize", "y", 0);
    FinalLetters(x + "ize");
  }

  lemma IzeSteps(x: string)
    requires !EndsWith(x, "al")
    ensures Step2(x + "ize") == x + "ize" && Step3(x + "ize") == x + "ize"
    ensures Measure(x) > 1 ==> Step4(x + "ize") == x
  {
    hide Step2, Step3, Step4, Measure, EndsWith;
    var w := x + "ize";
    LastNot(w, "icate", 1);
    LastNot(w, "ative", 1);
    NotAlize(x);
    Quiet(w);
    Ending(x, "ize");
    Found(w, Plain("ize", ""));
    assert x + "" == x;
  }

  lemma NotAlize(x: string)
    requires !EndsWith(x, "al")
    ensures !EndsWith(x + "ize", "alize")
  {
    var w := x + "ize";
    assert 2 <= |x| ==> x[|x| - 2..] == w[|w| - 5..][..2];
  }

  /** Of -lle first the e goes, and then an l. */
  lemma Lle(x: string)
    requires Measure(x + "ll") > 1
    ensures StemOf(x + "lle") == x + "l"
  {
    hide Step2, Step3, Step4, FinalE, FinalLl, Measure, StemOf, EndsWith;
    FrontKept(x + "lle");
    LleSteps(x);
    assert x + "ll" + "e" == x + "lle";
    FinalLetters(x + "ll");
    FinalLetters(x);
  }

  lemma LleSteps(x: string)
    ensures Step2(x + "lle") == x + "lle" && Step3(x + "lle") == x + "lle" && Step4(x + "lle") == x + "lle"
  {
    hide Step2, Step3, Step4, Measure, EndsWith;
    var w := x + "lle";
    LastNot(w, "bli", 0);
    LastNot(w, "alli", 0);
    LastNot(w, "entli", 0);
    LastNot(w, "eli", 0);
    LastNot(w, "ousli", 0);
    LastNot(w, "icate", 1);
    LastNot(w, "ative", 1);
    LastNot(w, "alize", 1);
    LastNot(w, "able", 2);
    LastNot(w, "ible", 2);
    Quiet(w);
  }
}
