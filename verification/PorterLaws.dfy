/** What the stemmer does with each ending, for every word that has it. */
module PorterLaws {
  import opened PorterWords
  import opened PorterRules

  // ---- steps 2 to 4, rule by rule ----

  /** The rules of a step do to a word with this ending what this rule says, unless one with
      a longer ending matches too. */
  ghost predicate Obeyed(rules: seq<Rule>, least: nat, r: Rule)
  {
    forall w: string :: Fires(r, w) && NoLonger(rules, w, |r.suffix|) ==>
      Rewrite(FirstMatch(rules, w), least, w) == Replaced(r, least, w)
  }

  ghost predicate NoLonger(rules: seq<Rule>, w: string, n: nat)
  {
    forall q :: q in rules && Fires(q, w) ==> |q.suffix| <= n
  }

  function Replaced(r: Rule, least: nat, w: string): string
    requires EndsWith(w, r.suffix)
  {
    var stem := Before(w, |r.suffix|);
    if Measure(stem) > least then stem + r.replacement else w
  }

  lemma {:induction false} InJoined(table: char -> seq<Rule>, letters: string, c: char, r: Rule)
    requires c in letters && r in table(c)
    ensures r in Joined(table, letters)
  {
    if letters[0] != c {
      InJoined(table, letters[1..], c, r);
    }
  }

  /** No ending has two rules. */
  lemma OneRuleEach(table: char -> seq<Rule>, letters: string, back: nat, q: Rule, r: Rule)
    requires Indexed(table, back) && (forall c :: LongestFirst(table(c)))
    requires q in Joined(table, letters) && r in Joined(table, letters) && q.suffix == r.suffix
    ensures q == r
  {
    hide Joined, LongestFirst;
    UnderSomeLetter(table, letters, q);
    UnderSomeLetter(table, letters, r);
    var c :| c in letters && q in table(c);
    var d :| d in letters && r in table(d);
    var i :| 0 <= i < |table(c)| && table(c)[i] == q;
    var j :| 0 <= j < |table(d)| && table(d)[j] == r;
    assert Rows(table(c), back, c) && Row(table(c)[i], back, c);
    assert Rows(table(d), back, d) && Row(table(d)[j], back, d);
    assert c == d;
    SamePlace(table(c), i, j);
  }

  lemma SamePlace(rules: seq<Rule>, i: nat, j: nat)
    requires LongestFirst(rules) && i < |rules| && j < |rules| && rules[i].suffix == rules[j].suffix
    ensures i == j
  {
  }

  lemma SameEnding(w: string, a: string, b: string)
    requires EndsWith(w, a) && EndsWith(w, b) && |a| == |b|
    ensures a == b
  {
  }

  lemma RuleObeyed(table: char -> seq<Rule>, letters: string, back: nat, least: nat, c: char, i: nat)
    requires Indexed(table, back) && (forall c :: LongestFirst(table(c))) && c in letters && i < |table(c)|
    ensures Obeyed(Joined(table, letters), least, table(c)[i])
  {
    hide Joined, LongestFirst, Indexed, Measure;
    var rules, r := Joined(table, letters), table(c)[i];
    InJoined(table, letters, c, r);
    forall w | Fires(r, w) && NoLonger(rules, w, |r.suffix|)
      ensures Rewrite(FirstMatch(rules, w), least, w) == Replaced(r, least, w)
    {
      LongestOfAll(table, letters, back, w, r);
      var found := FirstMatch(rules, w).value;
      SameEnding(w, found.suffix, r.suffix);
      OneRuleEach(table, letters, back, found, r);
    }
  }

  lemma TablesOrdered()
    ensures Indexed(Rules2, 2) && Indexed(Rules3, 1) && Indexed(Rules4, 2)
    ensures forall c: char :: LongestFirst(Rules2(c))
    ensures forall c: char :: LongestFirst(Rules3(c))
    ensures forall c: char :: LongestFirst(Rules4(c))
  {
    hide LongestFirst, Indexed, Rules2, Rules3, Rules4;
    TablesIndexed();
    forall c: char
      ensures LongestFirst(Rules2(c))
    {
      Ordered2(c);
    }
    forall c: char
      ensures LongestFirst(Rules3(c))
    {
      Ordered3(c);
    }
    forall c: char
      ensures LongestFirst(Rules4(c))
    {
      Ordered4(c);
    }
  }

  ghost predicate Obeyed2(suffix: string, replacement: string)
  {
    Obeyed(Joined(Rules2, LETTERS2), 0, Plain(suffix, replacement))
  }

  ghost predicate Obeyed3(suffix: string, replacement: string)
  {
    Obeyed(Joined(Rules3, LETTERS3), 0, Plain(suffix, replacement))
  }

  /** Taken off where the measure before it is above one. */
  ghost predicate Obeyed4(suffix: string)
  {
    Obeyed(Joined(Rules4, LETTERS4), 1, Plain(suffix, ""))
  }

  lemma Row2(c: char, i: nat)
    requires c in LETTERS2 && i < |Rules2(c)|
    ensures Obeyed(Joined(Rules2, LETTERS2), 0, Rules2(c)[i])
  {
    hide Rules2, Rules3, Rules4, Joined, Obeyed, Indexed, LongestFirst;
    TablesOrdered();
    RuleObeyed(Rules2, LETTERS2, 2, 0, c, i);
  }

  lemma Row3(c: char, i: nat)
    requires c in LETTERS3 && i < |Rules3(c)|
    ensures Obeyed(Joined(Rules3, LETTERS3), 0, Rules3(c)[i])
  {
    hide Rules2, Rules3, Rules4, Joined, Obeyed, Indexed, LongestFirst;
    TablesOrdered();
    RuleObeyed(Rules3, LETTERS3, 1, 0, c, i);
  }

  lemma Row4(c: char, i: nat)
    requires c in LETTERS4 && i < |Rules4(c)|
    ensures Obeyed(Joined(Rules4, LETTERS4), 1, Rules4(c)[i])
  {
    hide Rules2, Rules3, Rules4, Joined, Obeyed, Indexed, LongestFirst;
    TablesOrdered();
    RuleObeyed(Rules4, LETTERS4, 2, 1, c, i);
  }

  /** Step 2: each of these endings becomes that, behind a stem of positive measure. */
  lemma Step2Endings()
    ensures Obeyed2("ational", "ate") && Obeyed2("tional", "tion") && Obeyed2("enci", "ence")
    ensures Obeyed2("anci", "ance") && Obeyed2("izer", "ize") && Obeyed2("bli", "ble") && Obeyed2("alli", "al")
    ensures Obeyed2("entli", "ent") && Obeyed2("eli", "e") && Obeyed2("ousli", "ous")
  {
    hide Obeyed, Joined;
    assert LETTERS2[0] == 'a' && LETTERS2[1] == 'c' && LETTERS2[2] == 'e' && LETTERS2[3] == 'l';
    Row2('a', 0);
    Row2('a', 1);
    Row2('c', 0);
    Row2('c', 1);
    Row2('e', 0);
    Row2('l', 0);
    Row2('l', 1);
    Row2('l', 2);
    Row2('l', 3);
    Row2('l', 4);
  }

  lemma Step2MoreEndings()
    ensures Obeyed2("ization", "ize") && Obeyed2("ation", "ate") && Obeyed2("ator", "ate")
    ensures Obeyed2("alism", "al") && Obeyed2("iveness", "ive") && Obeyed2("fulness", "ful")
    ensures Obeyed2("ousness", "ous") && Obeyed2("aliti", "al") && Obeyed2("iviti", "ive")
    ensures Obeyed2("biliti", "ble") && Obeyed2("logi", "log")
  {
    hide Obeyed, Joined;
    assert LETTERS2[4] == 'o' && LETTERS2[6] == 's' && LETTERS2[7] == 't' && LETTERS2[8] == 'g';
    Row2('o', 0);
    Row2('o', 1);
    Row2('o', 2);
    Row2('s', 0);
    Row2('s', 1);
    Row2('s', 2);
    Row2('s', 3);
    Row2('t', 0);
    Row2('t', 1);
    Row2('t', 2);
    Row2('g', 0);
  }

  /** Step 3, in the same way. */
  lemma Step3Endings()
    ensures Obeyed3("icate", "ic") && Obeyed3("ative", "") && Obeyed3("alize", "al") && Obeyed3("iciti", "ic")
    ensures Obeyed3("ical", "ic") && Obeyed3("ful", "") && Obeyed3("ness", "")
  {
    hide Obeyed, Joined;
    assert LETTERS3[0] == 'e' && LETTERS3[1] == 'i' && LETTERS3[2] == 'l' && LETTERS3[3] == 's';
    Row3('e', 0);
    Row3('e', 1);
    Row3('e', 2);
    Row3('i', 0);
    Row3('l', 0);
    Row3('l', 1);
    Row3('s', 0);
  }

  /** Step 4: these endings go; -ion only behind s or t. */
  lemma Step4Endings()
    ensures Obeyed4("al") && Obeyed4("ance") && Obeyed4("ence") && Obeyed4("er") && Obeyed4("ic")
    ensures Obeyed4("able") && Obeyed4("ible") && Obeyed4("ant") && Obeyed4("ement") && Obeyed4("ment")
    ensures Obeyed4("ent") && Obeyed4("ou") && Obeyed4("ism") && Obeyed4("ate") && Obeyed4("iti")
    ensures Obeyed4("ous") && Obeyed4("ive") && Obeyed4("ize")
    ensures Obeyed(Joined(Rules4, LETTERS4), 1, Rule("ion", "", "st"))
  {
    hide Obeyed4, Obeyed, Joined, Rules4;
    Endings4Front();
    Endings4L();
    Endings4N();
    Endings4O();
    Endings4Rest();
  }

  lemma Endings4Front()
    ensures Obeyed4("al") && Obeyed4("ance") && Obeyed4("ence") && Obeyed4("er")
  {
    hide Obeyed, Joined;
    assert LETTERS4[0] == 'a' && LETTERS4[1] == 'c' && LETTERS4[2] == 'e';
    Row4('a', 0);
    Row4('c', 0);
    Row4('c', 1);
    Row4('e', 0);
  }

  lemma Endings4L()
    ensures Obeyed4("ic") && Obeyed4("able") && Obeyed4("ible")
  {
    hide Obeyed, Joined;
    assert LETTERS4[3] == 'i' && LETTERS4[4] == 'l';
    Row4('i', 0);
    Row4('l', 0);
    Row4('l', 1);
  }

  lemma Endings4N()
    ensures Obeyed4("ant") && Obeyed4("ement") && Obeyed4("ment") && Obeyed4("ent")
  {
    hide Obeyed, Joined;
    assert LETTERS4[5] == 'n';
    Row4('n', 0);
    Row4('n', 1);
    Row4('n', 2);
    Row4('n', 3);
  }

  lemma Endings4O()
    ensures Obeyed(Joined(Rules4, LETTERS4), 1, Rule("ion", "", "st"))
    ensures Obeyed4("ou") && Obeyed4("ism") && Obeyed4("ate") && Obeyed4("iti")
  {
    hide Obeyed, Joined;
    assert LETTERS4[6] == 'o' && LETTERS4[7] == 's' && LETTERS4[8] == 't';
    Row4('o', 0);
    Row4('o', 1);
    Row4('s', 0);
    Row4('t', 0);
    Row4('t', 1);
  }

  lemma Endings4Rest()
    ensures Obeyed4("ous") && Obeyed4("ive") && Obeyed4("ize")
  {
    hide Obeyed, Joined;
    assert LETTERS4[9] == 'u' && LETTERS4[10] == 'v' && LETTERS4[11] == 'z';
    Row4('u', 0);
    Row4('v', 0);
    Row4('z', 0);
  }

  // ---- no other endings ----

  const ENDINGS2: seq<string> := [
    "ational", "tional", "enci", "anci", "izer", "bli", "alli", "entli", "eli", "ousli", "ization", "ation", "ator",
    "alism", "iveness", "fulness", "ousness", "aliti", "iviti", "biliti", "logi"]

  const ENDINGS3: seq<string> := ["icate", "ative", "alize", "iciti", "ical", "ful", "ness"]

  const ENDINGS4: seq<string> := [
    "al", "ance", "ence", "er", "ic", "able", "ible", "ant", "ement", "ment", "ent", "ion", "ou", "ism", "ate", "iti",
    "ous", "ive", "ize"]

  ghost predicate HasNone(w: string, endings: seq<string>)
  {
    forall i :: 0 <= i < |endings| ==> !EndsWith(w, endings[i])
  }

  lemma Listed2(c: char, i: nat) returns (n: nat)
    requires i < |Rules2(c)|
    ensures n < |ENDINGS2| && ENDINGS2[n] == Rules2(c)[i].suffix
  {
    n := i + if c == 'a' then 0 else if c == 'c' then 2 else if c == 'e' then 4 else if c == 'l' then 5
             else if c == 'o' then 10 else if c == 's' then 13 else if c == 't' then 17 else 20;
  }

  lemma Listed3(c: char, i: nat) returns (n: nat)
    requires i < |Rules3(c)|
    ensures n < |ENDINGS3| && ENDINGS3[n] == Rules3(c)[i].suffix
  {
    n := i + if c == 'e' then 0 else if c == 'i' then 3 else if c == 'l' then 4 else 6;
  }

  lemma Listed4(c: char, i: nat) returns (n: nat)
    requires i < |Rules4(c)|
    ensures n < |ENDINGS4| && ENDINGS4[n] == Rules4(c)[i].suffix
  {
    n := i + if c == 'a' then 0 else if c == 'c' then 1 else if c == 'e' then 3 else if c == 'i' then 4
             else if c == 'l' then 5 else if c == 'n' then 7 else if c == 'o' then 11 else if c == 's' then 13
             else if c == 't' then 14 else if c == 'u' then 16 else if c == 'v' then 17 else 18;
  }

  /** Words without any of the endings are left alone. */
  lemma OtherwiseUnchanged(w: string)
    ensures HasNone(w, ENDINGS2) ==> Step2(w) == w
    ensures HasNone(w, ENDINGS3) ==> Step3(w) == w
    ensures HasNone(w, ENDINGS4) ==> Step4(w) == w
  {
    hide Rules2, Rules3, Rules4, Joined, FirstMatch, EndsWith, HasNone;
    if FirstMatch(Joined(Rules2, LETTERS2), w).Some? {
      var r := FirstMatch(Joined(Rules2, LETTERS2), w).value;
      UnderSomeLetter(Rules2, LETTERS2, r);
      var c :| c in LETTERS2 && r in Rules2(c);
      var i :| 0 <= i < |Rules2(c)| && Rules2(c)[i] == r;
      var n := Listed2(c, i);
      SomeEnding(w, ENDINGS2, n);
    }
    if FirstMatch(Joined(Rules3, LETTERS3), w).Some? {
      var r := FirstMatch(Joined(Rules3, LETTERS3), w).value;
      UnderSomeLetter(Rules3, LETTERS3, r);
      var c :| c in LETTERS3 && r in Rules3(c);
      var i :| 0 <= i < |Rules3(c)| && Rules3(c)[i] == r;
      var n := Listed3(c, i);
      SomeEnding(w, ENDINGS3, n);
    }
    if FirstMatch(Joined(Rules4, LETTERS4), w).Some? {
      var r := FirstMatch(Joined(Rules4, LETTERS4), w).value;
      UnderSomeLetter(Rules4, LETTERS4, r);
      var c :| c in LETTERS4 && r in Rules4(c);
      var i :| 0 <= i < |Rules4(c)| && Rules4(c)[i] == r;
      var n := Listed4(c, i);
      SomeEnding(w, ENDINGS4, n);
    }
  }

  lemma SomeEnding(w: string, endings: seq<string>, n: nat)
    requires n < |endings| && EndsWith(w, endings[n])
    ensures !HasNone(w, endings)
  {
  }
}
