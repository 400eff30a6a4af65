/** The steps of Porter's algorithm as rules on words. */
module PorterRules {
  import opened Common
  import opened PorterWords

  predicate EndsWith(w: string, suffix: string)
  {
    |suffix| <= |w| && w[|w| - |suffix|..] == suffix
  }

  /** What stands before the last n letters. */
  function Before(w: string, n: nat): string
    requires n <= |w|
  {
    w[..|w| - n]
  }

  predicate HasVowel(w: string)
  {
    exists i :: 0 <= i < |w| && !Consonant(w, i)
  }

  predicate DoubleConsonant(w: string)
  {
    var n := |w|;
    2 <= n && w[n - 1] == w[n - 2] && Consonant(w, n - 1)
  }

  /** Ends consonant, vowel, consonant, the last not w, x or y. */
  predicate ShortEnd(w: string)
  {
    var n := |w|;
    && 3 <= n && Consonant(w, n - 1) && !Consonant(w, n - 2) && Consonant(w, n - 3)
    && w[n - 1] != 'w' && w[n - 1] != 'x' && w[n - 1] != 'y'
  }

  // ---- rules ----

  /** A suffix and what takes its place; if `after` is not empty, only behind one of its
      letters. */
  datatype Rule = Rule(suffix: string, replacement: string, after: string)

  predicate Fires(rule: Rule, w: string)
  {
    && EndsWith(w, rule.suffix)
    && (rule.after == "" || (|rule.suffix| < |w| && w[|w| - |rule.suffix| - 1] in rule.after))
  }

  function FirstMatch(rules: seq<Rule>, w: string): (found: Option<Rule>)
    ensures found.Some? ==> found.value in rules && Fires(found.value, w)
  {
    if rules == [] then None
    else if Fires(rules[0], w) then Some(rules[0])
    else FirstMatch(rules[1..], w)
  }

  /** The suffix is replaced if the measure of what is before it is large enough. */
  function Rewrite(found: Option<Rule>, least: nat, w: string): string
    requires found.Some? ==> EndsWith(w, found.value.suffix)
  {
    if found.None? then w
    else
      var stem := Before(w, |found.value.suffix|);
      if Measure(stem) > least then stem + found.value.replacement else w
  }

  function Plain(suffix: string, replacement: string): Rule { Rule(suffix, replacement, "") }

  /** The rules of step 2 by the letter before the last. */
  function Rules2(c: char): seq<Rule>
  {
    if c == 'a' then [Plain("ational", "ate"), Plain("tional", "tion")]
    else if c == 'c' then [Plain("enci", "ence"), Plain("anci", "ance")]
    else if c == 'e' then [Plain("izer", "ize")]
    else if c == 'l' then
      [Plain("bli", "ble"), Plain("alli", "al"), Plain("entli", "ent"), Plain("eli", "e"), Plain("ousli", "ous")]
    else if c == 'o' then [Plain("ization", "ize"), Plain("ation", "ate"), Plain("ator", "ate")]
    else if c == 's' then
      [Plain("alism", "al"), Plain("iveness", "ive"), Plain("fulness", "ful"), Plain("ousness", "ous")]
    else if c == 't' then [Plain("aliti", "al"), Plain("iviti", "ive"), Plain("biliti", "ble")]
    else if c == 'g' then [Plain("logi", "log")]
    else []
  }

  /** The rules of step 3 by the last letter. */
  function Rules3(c: char): seq<Rule>
  {
    if c == 'e' then [Plain("icate", "ic"), Plain("ative", ""), Plain("alize", "al")]
    else if c == 'i' then [Plain("iciti", "ic")]
    else if c == 'l' then [Plain("ical", "ic"), Plain("ful", "")]
    else if c == 's' then [Plain("ness", "")]
    else []
  }

  /** The suffixes step 4 takes off, by the letter before the last. */
  function Rules4(c: char): seq<Rule>
  {
    if c == 'a' then [Plain("al", "")]
    else if c == 'c' then [Plain("ance", ""), Plain("ence", "")]
    else if c == 'e' then [Plain("er", "")]
    else if c == 'i' then [Plain("ic", "")]
    else if c == 'l' then [Plain("able", ""), Plain("ible", "")]
    else if c == 'n' then [Plain("ant", ""), Plain("ement", ""), Plain("ment", ""), Plain("ent", "")]
    else if c == 'o' then [Rule("ion", "", "st"), Plain("ou", "")]
    else if c == 's' then [Plain("ism", "")]
    else if c == 't' then [Plain("ate", ""), Plain("iti", "")]
    else if c == 'u' then [Plain("ous", "")]
    else if c == 'v' then [Plain("ive", "")]
    else if c == 'z' then [Plain("ize", "")]
    else []
  }

  const LETTERS2: string := "aceloistg"
  const LETTERS3: string := "eils"
  const LETTERS4: string := "aceilnostuvz"

  // ---- looking at one letter first is the same as trying every rule ----

  function Joined(table: char -> seq<Rule>, letters: string): seq<Rule>
  {
    if letters == "" then [] else table(letters[0]) + Joined(table, letters[1..])
  }

  /** A rule that stands under the letter c, and does not lengthen a word. */
  ghost predicate Row(r: Rule, back: nat, c: char)
  {
    1 <= back <= |r.suffix| && r.suffix[|r.suffix| - back] == c && |r.replacement| <= |r.suffix|
  }

  ghost predicate Rows(rules: seq<Rule>, back: nat, c: char)
  {
    forall i :: 0 <= i < |rules| ==> Row(rules[i], back, c)
  }

  /** The letter at some place from the end is the same in all the suffixes under it. */
  ghost predicate Indexed(table: char -> seq<Rule>, back: nat)
  {
    1 <= back && forall c :: Rows(table(c), back, c)
  }

  lemma {:induction false} MatchAppend(a: seq<Rule>, b: seq<Rule>, w: string)
    ensures FirstMatch(a + b, w) == if FirstMatch(a, w).Some? then FirstMatch(a, w) else FirstMatch(b, w)
  {
    if a == [] {
      assert a + b == b;
    } else {
      assert (a + b)[1..] == a[1..] + b;
      MatchAppend(a[1..], b, w);
    }
  }

  /** The switch on one letter finds what trying all the rules in turn would. */
  lemma {:induction false} SwitchIsComplete(table: char -> seq<Rule>, letters: string, back: nat, w: string)
    requires Indexed(table, back)
    ensures FirstMatch(Joined(table, letters), w) ==
      if back <= |w| && w[|w| - back] in letters then FirstMatch(table(w[|w| - back]), w) else None
  {
    if letters != "" {
      SwitchIsComplete(table, letters[1..], back, w);
      MatchAppend(table(letters[0]), Joined(table, letters[1..]), w);
    }
  }

  lemma Table2(c: char)
    ensures Rows(Rules2(c), 2, c)
  {
    hide Rules2, Rows;
    if c == 'l' || c == 'o' {
      Table2LO();
    } else if c == 's' || c == 't' {
      Table2ST();
    } else {
      Table2Rest(c);
    }
  }

  lemma Table2LO()
    ensures Rows(Rules2('l'), 2, 'l') && Rows(Rules2('o'), 2, 'o')
  {
  }

  lemma Table2ST()
    ensures Rows(Rules2('s'), 2, 's') && Rows(Rules2('t'), 2, 't')
  {
  }

  lemma Table2Rest(c: char)
    requires c != 'l' && c != 'o' && c != 's' && c != 't'
    ensures Rows(Rules2(c), 2, c)
  {
  }

  lemma Table3(c: char)
    ensures Rows(Rules3(c), 1, c)
  {
  }

  lemma Table4(c: char)
    ensures Rows(Rules4(c), 2, c)
  {
  }

  lemma OtherLetters(c: char)
    ensures c !in LETTERS2 ==> Rules2(c) == []
    ensures c !in LETTERS3 ==> Rules3(c) == []
    ensures c !in LETTERS4 ==> Rules4(c) == []
  {
    var at2: string, at3: string, at4: string := LETTERS2, LETTERS3, LETTERS4;
    assert at2[0] == 'a' && at2[1] == 'c' && at2[2] == 'e' && at2[3] == 'l' && at2[4] == 'o' && at2[5] == 'i';
    assert at2[6] == 's' && at2[7] == 't' && at2[8] == 'g';
    assert at3[0] == 'e' && at3[1] == 'i' && at3[2] == 'l' && at3[3] == 's';
    assert at4[0] == 'a' && at4[1] == 'c' && at4[2] == 'e' && at4[3] == 'i' && at4[4] == 'l' && at4[5] == 'n';
    assert at4[6] == 'o' && at4[7] == 's' && at4[8] == 't' && at4[9] == 'u' && at4[10] == 'v' && at4[11] == 'z';
  }

  lemma TablesIndexed()
    ensures Indexed(Rules2, 2) && Indexed(Rules3, 1) && Indexed(Rules4, 2)
  {
    hide Rules2, Rules3, Rules4, Rows;
    forall c: char
      ensures Rows(Rules2(c), 2, c) && Rows(Rules3(c), 1, c) && Rows(Rules4(c), 2, c)
    {
      Table2(c);
      Table3(c);
      Table4(c);
    }
  }

  /** Each step's switch is its whole list of rules. */
  lemma Switch2(w: string)
    ensures 2 <= |w| ==> FirstMatch(Joined(Rules2, LETTERS2), w) == FirstMatch(Rules2(w[|w| - 2]), w)
    ensures |w| == 1 ==> Step2(w) == w
  {
    hide Rules2, Rules3, Rules4, Joined, Indexed, Rewrite, Fires;
    TablesIndexed();
    SwitchIsComplete(Rules2, LETTERS2, 2, w);
    NoRewrite(0, w);
    if 2 <= |w| {
      OtherLetters(w[|w| - 2]);
    }
  }

  lemma Switch3(w: string)
    requires w != ""
    ensures FirstMatch(Joined(Rules3, LETTERS3), w) == FirstMatch(Rules3(w[|w| - 1]), w)
  {
    hide Rules2, Rules3, Rules4, Joined, Indexed, Fires;
    TablesIndexed();
    SwitchIsComplete(Rules3, LETTERS3, 1, w);
    OtherLetters(w[|w| - 1]);
  }

  lemma Switch4(w: string)
    ensures 2 <= |w| ==> FirstMatch(Joined(Rules4, LETTERS4), w) == FirstMatch(Rules4(w[|w| - 2]), w)
    ensures |w| == 1 ==> Step4(w) == w
  {
    hide Rules2, Rules3, Rules4, Joined, Indexed, Rewrite, Fires;
    TablesIndexed();
    SwitchIsComplete(Rules4, LETTERS4, 2, w);
    NoRewrite(1, w);
    if 2 <= |w| {
      OtherLetters(w[|w| - 2]);
    }
  }

  lemma NoRewrite(least: nat, w: string)
    ensures Rewrite(None, least, w) == w
  {
  }

  // ---- the first rule that fires is the one with the longest suffix ----

  /** No suffix stands before a longer one that ends with it. */
  ghost predicate LongestFirst(rules: seq<Rule>)
  {
    forall i, j :: 0 <= i < j < |rules| ==> !EndsWith(rules[j].suffix, rules[i].suffix)
  }

  lemma BothEnd(w: string, short: string, long: string)
    requires EndsWith(w, short) && EndsWith(w, long) && |short| <= |long|
    ensures EndsWith(long, short)
  {
    assert long[|long| - |short|..] == w[|w| - |long|..][|long| - |short|..] == w[|w| - |short|..];
  }

  lemma {:induction false} LongestFires(rules: seq<Rule>, w: string)
    requires LongestFirst(rules) && FirstMatch(rules, w).Some?
    ensures forall i :: 0 <= i < |rules| && Fires(rules[i], w) ==>
      |rules[i].suffix| <= |FirstMatch(rules, w).value.suffix|
  {
    hide EndsWith;
    forall i | 0 <= i < |rules| && Fires(rules[i], w)
      ensures |rules[i].suffix| <= |FirstMatch(rules, w).value.suffix|
    {
      if Fires(rules[0], w) {
        if 0 < i && |rules[0].suffix| <= |rules[i].suffix| {
          BothEnd(w, rules[0].suffix, rules[i].suffix);
        }
      } else {
        LongestFires(rules[1..], w);
        assert rules[i] == rules[1..][i - 1];
      }
    }
  }

  lemma Ordered2(c: char)
    ensures LongestFirst(Rules2(c))
  {
    hide Rules2, LongestFirst;
    if c == 'l' {
      Ordered2L();
    } else if c == 's' {
      Ordered2S();
    } else if c == 'o' {
      Ordered2O();
    } else {
      Ordered2Rest(c);
    }
  }

  /** Two words that differ at some letter from the end do not end with one another. */
  lemma ApartAt(long: string, short: string, at: nat)
    requires at < |long| && at < |short| && long[|long| - 1 - at] != short[|short| - 1 - at]
    ensures !EndsWith(long, short)
  {
  }

  lemma LettersApart(rules: seq<Rule>, at: nat)
    requires forall i :: 0 <= i < |rules| ==> at < |rules[i].suffix|
    requires forall i, j :: 0 <= i < j < |rules| ==>
      rules[i].suffix[|rules[i].suffix| - 1 - at] != rules[j].suffix[|rules[j].suffix| - 1 - at]
    ensures LongestFirst(rules)
  {
    hide EndsWith;
    forall i, j | 0 <= i < j < |rules|
      ensures !EndsWith(rules[j].suffix, rules[i].suffix)
    {
      ApartAt(rules[j].suffix, rules[i].suffix, at);
    }
  }

  lemma Ordered2L()
    ensures LongestFirst(Rules2('l'))
  {
    hide EndsWith, LongestFirst;
    LettersApart(Rules2('l'), 2);
  }

  lemma Ordered2S()
    ensures LongestFirst(Rules2('s'))
  {
    hide EndsWith, LongestFirst;
    LettersApart(Rules2('s'), 4);
  }

  lemma Ordered2O()
    ensures LongestFirst(Rules2('o'))
  {
  }

  lemma Ordered2Rest(c: char)
    requires c != 'l' && c != 'o' && c != 's'
    ensures LongestFirst(Rules2(c))
  {
  }

  lemma Ordered3(c: char)
    ensures LongestFirst(Rules3(c))
  {
  }

  lemma Ordered4(c: char)
    ensures LongestFirst(Rules4(c))
  {
    hide Rules4, LongestFirst;
    if c == 'c' || c == 'l' {
      Ordered4CL(c);
    } else if c == 'n' {
      Ordered4N();
    } else if c == 'o' || c == 't' {
      Ordered4OT(c);
    } else {
      Ordered4Rest(c);
    }
  }

  lemma Ordered4CL(c: char)
    requires c == 'c' || c == 'l'
    ensures LongestFirst(Rules4(c))
  {
    hide EndsWith, LongestFirst;
    LettersApart(Rules4(c), 3);
  }

  lemma Ordered4N()
    ensures LongestFirst(Rules4('n'))
  {
    var rules := Rules4('n');
    hide EndsWith;
    forall i, j | 0 <= i < j < |rules|
      ensures !EndsWith(rules[j].suffix, rules[i].suffix)
    {
      if i == 0 {
        ApartAt(rules[j].suffix, rules[0].suffix, 2);
      } else {
        TooShort(rules[j].suffix, rules[i].suffix);
      }
    }
  }

  lemma TooShort(long: string, short: string)
    requires |long| < |short|
    ensures !EndsWith(long, short)
  {
  }

  lemma Ordered4OT(c: char)
    requires c == 'o' || c == 't'
    ensures LongestFirst(Rules4(c))
  {
    hide EndsWith, LongestFirst;
    LettersApart(Rules4(c), 0);
  }

  lemma Ordered4Rest(c: char)
    requires c !in {'c', 'l', 'n', 'o', 't'}
    ensures LongestFirst(Rules4(c))
  {
  }

  lemma {:induction false} UnderSomeLetter(table: char -> seq<Rule>, letters: string, r: Rule)
    requires r in Joined(table, letters)
    ensures exists c :: c in letters && r in table(c)
  {
    if r !in table(letters[0]) {
      UnderSomeLetter(table, letters[1..], r);
    }
  }

  /** Of all the rules of a step that match, the one with the longest suffix is obeyed. */
  lemma LongestOfAll(table: char -> seq<Rule>, letters: string, back: nat, w: string, r: Rule)
    requires Indexed(table, back) && forall c :: LongestFirst(table(c))
    requires r in Joined(table, letters) && Fires(r, w)
    ensures var found := FirstMatch(Joined(table, letters), w);
      found.Some? && |r.suffix| <= |found.value.suffix|
  {
    hide Joined, LongestFirst, FirstMatch;
    UnderSomeLetter(table, letters, r);
    var c :| c in letters && r in table(c);
    var i :| 0 <= i < |table(c)| && table(c)[i] == r;
    assert Rows(table(c), back, c) && Row(table(c)[i], back, c);
    assert back <= |w| && w[|w| - back] == c;
    SwitchIsComplete(table, letters, back, w);
    SomeFires(table(c), w, i);
    LongestFires(table(c), w);
  }

  lemma {:induction false} SomeFires(rules: seq<Rule>, w: string, i: nat)
    requires i < |rules| && Fires(rules[i], w)
    ensures FirstMatch(rules, w).Some?
  {
    if !Fires(rules[0], w) {
      SomeFires(rules[1..], w, i - 1);
    }
  }

  /** So it is in steps 2, 3 and 4. */
  lemma LongestWins(w: string, r: Rule)
    requires Fires(r, w)
    ensures r in Joined(Rules2, LETTERS2) ==>
      FirstMatch(Joined(Rules2, LETTERS2), w).Some? &&
      |r.suffix| <= |FirstMatch(Joined(Rules2, LETTERS2), w).value.suffix|
    ensures r in Joined(Rules3, LETTERS3) ==>
      FirstMatch(Joined(Rules3, LETTERS3), w).Some? &&
      |r.suffix| <= |FirstMatch(Joined(Rules3, LETTERS3), w).value.suffix|
    ensures r in Joined(Rules4, LETTERS4) ==>
      FirstMatch(Joined(Rules4, LETTERS4), w).Some? &&
      |r.suffix| <= |FirstMatch(Joined(Rules4, LETTERS4), w).value.suffix|
  {
    hide Joined, LongestFirst, FirstMatch, Fires, Indexed, Rules2, Rules3, Rules4;
    TablesIndexed();
    forall c: char
      ensures LongestFirst(Rules2(c)) && LongestFirst(Rules3(c)) && LongestFirst(Rules4(c))
    {
      Ordered2(c);
      Ordered3(c);
      Ordered4(c);
    }
    if r in Joined(Rules2, LETTERS2) {
      LongestOfAll(Rules2, LETTERS2, 2, w, r);
    }
    if r in Joined(Rules3, LETTERS3) {
      LongestOfAll(Rules3, LETTERS3, 1, w, r);
    }
    if r in Joined(Rules4, LETTERS4) {
      LongestOfAll(Rules4, LETTERS4, 2, w, r);
    }
  }

  // ---- the steps ----

  /** Plurals. */
  function Singular(w: string): string
  {
    var n := |w|;
    if w == "" || w[n - 1] != 's' then w
    else if EndsWith(w, "sses") then w[..n - 2]
    else if EndsWith(w, "ies") then w[..n - 3] + "i"
    else if 2 <= n && w[n - 2] != 's' then w[..n - 1]
    else w
  }

  /** After -ed or -ing has gone: an e comes back, or a doubled consonant goes. */
  function Restored(stem: string): string
  {
    var n := |stem|;
    if EndsWith(stem, "at") || EndsWith(stem, "bl") || EndsWith(stem, "iz") then stem + "e"
    else if DoubleConsonant(stem) then
      if stem[n - 1] == 'l' || stem[n - 1] == 's' || stem[n - 1] == 'z' then stem else stem[..n - 1]
    else if Measure(stem) == 1 && ShortEnd(stem) then stem + "e"
    else stem
  }

  lemma SingularOf(w: string)
    requires w != ""
    ensures w[|w| - 1] != 's' ==> Singular(w) == w
    ensures w[|w| - 1] == 's' && EndsWith(w, "sses") ==> 4 <= |w| && Singular(w) == w[..|w| - 2]
    ensures w[|w| - 1] == 's' && !EndsWith(w, "sses") && EndsWith(w, "ies") ==>
      3 <= |w| && Singular(w) == Before(w, 3) + "i"
    ensures w[|w| - 1] == 's' && !EndsWith(w, "sses") && !EndsWith(w, "ies") ==>
      Singular(w) == if 2 <= |w| && w[|w| - 2] != 's' then w[..|w| - 1] else w
  {
  }

  function Past(w: string): string
  {
    if EndsWith(w, "eed") then
      if Measure(Before(w, 3)) > 0 then w[..|w| - 1] else w
    else if EndsWith(w, "ed") && HasVowel(Before(w, 2)) then Restored(Before(w, 2))
    else if EndsWith(w, "ing") && HasVowel(Before(w, 3)) then Restored(Before(w, 3))
    else w
  }

  lemma LastLetter(w: string, suffix: string)
    requires suffix != ""
    ensures EndsWith(w, suffix) ==> w != "" && w[|w| - 1] == suffix[|suffix| - 1]
  {
  }

  lemma RestoredOf(stem: string)
    requires stem != ""
    ensures EndsWith(stem, "at") || EndsWith(stem, "bl") || EndsWith(stem, "iz") ==> Restored(stem) == stem + "e"
    ensures !EndsWith(stem, "at") && !EndsWith(stem, "bl") && !EndsWith(stem, "iz") ==>
      Restored(stem) ==
        if DoubleConsonant(stem) then
          var last := stem[|stem| - 1];
          if last == 'l' || last == 's' || last == 'z' then stem else stem[..|stem| - 1]
        else if Measure(stem) == 1 && ShortEnd(stem) then stem + "e" else stem
  {
    hide DoubleConsonant, Measure, ShortEnd;
  }

  /** -ed or -ing, n letters long. */
  lemma PastOf(w: string, n: nat)
    requires !EndsWith(w, "eed")
    requires (n == 2 && EndsWith(w, "ed")) || (n == 3 && EndsWith(w, "ing") && !EndsWith(w, "ed"))
    ensures n <= |w| && Past(w) == if HasVowel(Before(w, n)) then Restored(Before(w, n)) else w
  {
    hide Restored, HasVowel;
    LastLetter(w, "ed");
    LastLetter(w, "ing");
  }

  function FinalY(w: string): string
  {
    if EndsWith(w, "y") && HasVowel(Before(w, 1)) then Before(w, 1) + "i" else w
  }

  function Step2(w: string): string { Rewrite(FirstMatch(Joined(Rules2, LETTERS2), w), 0, w) }

  function Step3(w: string): string { Rewrite(FirstMatch(Joined(Rules3, LETTERS3), w), 0, w) }

  function Step4(w: string): string { Rewrite(FirstMatch(Joined(Rules4, LETTERS4), w), 1, w) }

  /** A final e goes if the measure before it is above one, or is one and no short end is
      left. The measure does not see the e. */
  function FinalE(w: string): string
  {
    if EndsWith(w, "e") && (Measure(w) > 1 || (Measure(w) == 1 && !ShortEnd(Before(w, 1)))) then Before(w, 1) else w
  }

  function FinalLl(w: string): string
  {
    if EndsWith(w, "l") && DoubleConsonant(w) && Measure(w) > 1 then Before(w, 1) else w
  }

  function StemOf(word: string): string
  {
    if |word| <= 2 then word
    else FinalLl(FinalE(Step4(Step3(Step2(FinalY(Past(Singular(word))))))))
  }

  /** What a suffix is taken off of, and what it is taken off to. */
  lemma Removed(found: Option<Rule>, least: nat, w: string)
    requires found.Some? && EndsWith(w, found.value.suffix) && found.value.replacement == ""
    ensures var stem := Before(w, |found.value.suffix|);
      Rewrite(found, least, w) == if Measure(stem) > least then stem else w
  {
    hide Measure;
    var stem := Before(w, |found.value.suffix|);
    assert stem + "" == stem;
  }

  // ---- no step makes a word longer or empty ----

  lemma MeasureSmall(w: string)
    ensures Measure(w) == 0 || Measure(w) < |w|
  {
    FewTurns(Shape(w, |w|));
  }

  ghost predicate Shrinks(rules: seq<Rule>)
  {
    forall r :: r in rules ==> |r.replacement| <= |r.suffix|
  }

  lemma {:induction false} JoinedShrinks(table: char -> seq<Rule>, letters: string, back: nat)
    requires Indexed(table, back)
    ensures Shrinks(Joined(table, letters))
  {
    if letters != "" {
      JoinedShrinks(table, letters[1..], back);
    }
  }

  lemma RewriteSize(rules: seq<Rule>, least: nat, w: string)
    requires w != "" && Shrinks(rules)
    ensures 1 <= |Rewrite(FirstMatch(rules, w), least, w)| <= |w|
  {
    var found := FirstMatch(rules, w);
    if found.Some? {
      MeasureSmall(Before(w, |found.value.suffix|));
    }
  }

  lemma StepSizes(w: string)
    requires w != ""
    ensures 1 <= |Step2(w)| <= |w| && 1 <= |Step3(w)| <= |w| && 1 <= |Step4(w)| <= |w|
  {
    hide FirstMatch, Rewrite, Rules2, Rules3, Rules4, Joined, Indexed, Shrinks;
    TablesIndexed();
    JoinedShrinks(Rules2, LETTERS2, 2);
    JoinedShrinks(Rules3, LETTERS3, 1);
    JoinedShrinks(Rules4, LETTERS4, 2);
    RewriteSize(Joined(Rules2, LETTERS2), 0, w);
    RewriteSize(Joined(Rules3, LETTERS3), 0, w);
    RewriteSize(Joined(Rules4, LETTERS4), 1, w);
  }

  lemma SingularSize(w: string)
    requires w != ""
    ensures 1 <= |Singular(w)| <= |w|
  {
  }

  lemma PastSize(w: string)
    requires w != ""
    ensures 1 <= |Past(w)| <= |w|
  {
    hide Restored, HasVowel, Measure;
    if EndsWith(w, "ed") && HasVowel(Before(w, 2)) {
      VowelSomewhere(Before(w, 2));
      RestoredSize(Before(w, 2));
    }
    if EndsWith(w, "ing") && HasVowel(Before(w, 3)) {
      VowelSomewhere(Before(w, 3));
      RestoredSize(Before(w, 3));
    }
  }

  lemma VowelSomewhere(w: string)
    requires HasVowel(w)
    ensures w != ""
  {
  }

  lemma RestoredSize(stem: string)
    requires stem != ""
    ensures 1 <= |Restored(stem)| <= |stem| + 1
  {
  }

  lemma FinalSizes(w: string)
    requires w != ""
    ensures |FinalY(w)| == |w| && 1 <= |FinalE(w)| <= |w| && 1 <= |FinalLl(w)| <= |w|
  {
    MeasureSmall(w);
  }

  /** A stem is never empty and never longer than the word. */
  lemma StemSize(word: string)
    requires word != ""
    ensures 1 <= |StemOf(word)| <= |word|
  {
    hide Singular, Past, FinalY, Step2, Step3, Step4, FinalE, FinalLl;
    if 2 < |word| {
      var w := word;
      SingularSize(w);
      w := Singular(w);
      PastSize(w);
      w := Past(w);
      FinalSizes(w);
      w := FinalY(w);
      StepSizes(w);
      w := Step2(w);
      StepSizes(w);
      w := Step3(w);
      StepSizes(w);
      w := Step4(w);
      FinalSizes(w);
      w := FinalE(w);
      FinalSizes(w);
    }
  }
}
