/** What separates words and what does not, and what becomes of each. */
module WordLaws {
  import opened Analyzer
  import opened TokenLaws

  // ---- what separates ----

  /** A character between two texts that holds neither together with the other. */
  predicate Separates(a: string, c: char, b: string)
  {
    !IsWord(c) && !(a != [] && b != [] && Joins(a[|a| - 1], c, b[0]))
  }

  lemma {:induction false} RunBefore(prev: char, s: string, c: char, b: string)
    requires Separates([prev] + s, c, b)
    ensures RunLength(prev, s + [c] + b) == RunLength(prev, s)
    decreases |s|
  {
    var text := s + [c] + b;
    if s != [] {
      assert text[1..] == s[1..] + [c] + b;
      assert ([prev] + s)[|s|] == ([s[0]] + s[1..])[|s| - 1];
      RunBefore(s[0], s[1..], c, b);
    }
  }

  lemma {:induction false} TokensBefore(a: string, c: char, b: string)
    requires Separates(a, c, b)
    ensures Tokens(a + [c] + b) == Tokens(a) + Tokens(b)
    decreases |a|
  {
    hide RunLength, IsWord, Truncated;
    var text := a + [c] + b;
    if a == [] {
      assert text[1..] == b && text[0] == c;
      assert Tokens(a) + Tokens(b) == Tokens(b);
    } else if !IsWord(a[0]) {
      assert text[1..] == a[1..] + [c] + b;
      TokensBefore(a[1..], c, b);
    } else {
      assert text[1..] == a[1..] + [c] + b && [a[0]] + a[1..] == a;
      RunBefore(a[0], a[1..], c, b);
      var n := 1 + RunLength(a[0], a[1..]);
      assert text[..n] == a[..n] && text[n..] == a[n..] + [c] + b;
      TokensBefore(a[n..], c, b);
      assert [Truncated(a[..n])] + (Tokens(a[n..]) + Tokens(b)) == Tokens(a) + Tokens(b);
    }
  }

  lemma {:induction false} TermsJoin(p: Pipeline, a: seq<string>, b: seq<string>)
    ensures TermsOf(p, a + b) == TermsOf(p, a) + TermsOf(p, b)
  {
    if a == [] {
      assert a + b == b;
    } else {
      assert (a + b)[1..] == a[1..] + b;
      TermsJoin(p, a[1..], b);
    }
  }

  /** A separator leaves the terms of either side as they are, in order, repeats kept: any
      character but letters, digits, bytes from 128 up, apostrophes, periods and commas
      separates whatever it stands between, and those last three do unless the apostrophe
      is between letters or the period or comma between digits. */
  lemma SeparatorSeparates(p: Pipeline, a: string, c: char, b: string)
    requires !('a' <= c <= 'z' || 'A' <= c <= 'Z' || '0' <= c <= '9' || 128 <= c as int)
    requires !(c == '\'' && a != [] && b != [] && IsAlpha(a[|a| - 1]) && IsAlpha(b[0]))
    requires !((c == '.' || c == ',') && a != [] && b != [] && IsDigit(a[|a| - 1]) && IsDigit(b[0]))
    ensures Tokens(a + [c] + b) == Tokens(a) + Tokens(b)
    ensures Analysis(p, a + [c] + b) == Analysis(p, a) + Analysis(p, b)
  {
    hide Tokens, TermsOf;
    TokensBefore(a, c, b);
    TermsJoin(p, Tokens(a), Tokens(b));
  }

  // ---- what does not ----

  /** A text that holds together is one token. */
  ghost predicate AllHeld(text: string)
  {
    text != [] && forall i :: 0 <= i < |text| ==> Held(text, i)
  }

  lemma OneToken(text: string)
    requires AllHeld(text)
    ensures Tokens(text) == [if |text| <= 255 then text else text[..255]]
  {
    hide RunLength;
    assert Held(text, 0);
    RunHolds(text, 1);
    var n := 1 + RunLength(text[0], text[1..]);
    ToTheEnd(text, n);
    assert text[..n] == text && text[n..] == [];
  }

  lemma ToTheEnd(text: string, n: nat)
    requires AllHeld(text) && n <= |text| && (n < |text| ==> !Held(text, n))
    ensures n == |text|
  {
  }

  /** A letter, a digit or a byte of a multi-byte character. */
  predicate IsPlain(c: char)
  {
    'a' <= c <= 'z' || 'A' <= c <= 'Z' || '0' <= c <= '9' || 128 <= c as int
  }

  predicate AllPlain(w: string)
  {
    w != [] && forall i :: 0 <= i < |w| ==> IsPlain(w[i])
  }

  lemma PlainHeld(w: string)
    requires AllPlain(w)
    ensures AllHeld(w)
  {
  }

  /** An apostrophe between letters does not separate, nor does a period or comma between
      digits. */
  lemma SeparatorJoins(a: string, c: char, b: string)
    requires AllPlain(a) && AllPlain(b)
    requires
      || (c == '\'' && IsAlpha(a[|a| - 1]) && IsAlpha(b[0]))
      || ((c == '.' || c == ',') && '0' <= a[|a| - 1] <= '9' && '0' <= b[0] <= '9')
    ensures AllHeld(a + [c] + b)
    ensures var text := a + [c] + b; Tokens(text) == [if |text| <= 255 then text else text[..255]]
  {
    var text := a + [c] + b;
    forall i | 0 <= i < |text|
      ensures Held(text, i)
    {
      assert text[|a|] == c;
      assert i < |a| ==> text[i] == a[i];
      assert |a| < i ==> text[i] == b[i - |a| - 1];
    }
    OneToken(text);
  }

  // ---- what becomes of a token ----

  /** In small letters. */
  ghost predicate IsSmall(v: string, w: string)
  {
    |v| == |w| && forall i :: 0 <= i < |w| ==>
      v[i] as int == if 'A' <= w[i] <= 'Z' then w[i] as int - 'A' as int + 'a' as int else w[i] as int
  }

  predicate HasPossessive(w: string)
  {
    var n := |w|;
    3 <= n && w[n - 2] == '\'' && (w[n - 1] == 's' || w[n - 1] == 'S')
  }

  /** A token in small letters, v, is stemmed, or dropped if it is on the stop list. */
  lemma TokenBecomes(p: Pipeline, w: string, v: string)
    requires AllHeld(w) && |w| <= 255 && !HasPossessive(w) && IsSmall(v, w)
    ensures Analysis(p, w) == if v in p.stopwords then [] else [p.stem(v)]
  {
    hide Tokens, Held;
    OneToken(w);
    SmallIsLower(v, w);
    SingleTerm(p, w);
    assert StripPossessive(w) == w;
  }

  lemma SmallIsLower(v: string, w: string)
    requires IsSmall(v, w)
    ensures Lower(w) == v
  {
    forall i | 0 <= i < |w|
      ensures ToLower(w[i]) == v[i]
    {
      assert ToLower(w[i]) as int == v[i] as int;
    }
  }

  lemma SingleTerm(p: Pipeline, token: string)
    ensures TermsOf(p, [token]) == TermOf(p, token)
  {
    assert [token][1..] == [];
    assert TermOf(p, token) + [] == TermOf(p, token);
  }

  /** A trailing possessive, of either case, is taken off before that. */
  lemma PossessiveBecomes(p: Pipeline, w: string, s: char, v: string)
    requires AllHeld(w) && IsAlpha(w[|w| - 1]) && |w| + 2 <= 255 && (s == 's' || s == 'S') && IsSmall(v, w)
    ensures Analysis(p, w + ['\'', s]) == if v in p.stopwords then [] else [p.stem(v)]
  {
    var text := w + ['\'', s];
    forall i | 0 <= i < |text|
      ensures Held(text, i)
    {
      assert i < |w| ==> Held(w, i);
      assert text[|w|] == '\'' && text[|w| + 1] == s;
    }
    hide Tokens, Held;
    OneToken(text);
    assert text[..|w|] == w && StripPossessive(text) == w;
    SmallIsLower(v, w);
    SingleTerm(p, text);
  }

  function Small(w: string): (v: string)
    ensures IsSmall(v, w)
  {
    seq(|w|, i requires 0 <= i < |w| =>
      if 'A' <= w[i] <= 'Z' then (w[i] as int - 'A' as int + 'a' as int) as char else w[i])
  }

  /** So a word and its possessive have the same terms. */
  lemma PossessiveDropped(p: Pipeline, w: string)
    requires AllPlain(w) && IsAlpha(w[|w| - 1]) && |w| + 2 <= 255
    ensures Analysis(p, w + "'s") == Analysis(p, w) && Analysis(p, w + "'S") == Analysis(p, w)
  {
    hide Analysis, Held, IsSmall;
    PlainHeld(w);
    NoApostrophe(w);
    TokenBecomes(p, w, Small(w));
    PossessiveBecomes(p, w, 's', Small(w));
    PossessiveBecomes(p, w, 'S', Small(w));
    assert w + "'s" == w + ['\'', 's'] && w + "'S" == w + ['\'', 'S'];
  }

  lemma NoApostrophe(w: string)
    requires AllPlain(w)
    ensures !HasPossessive(w)
  {
    assert 3 <= |w| ==> IsPlain(w[|w| - 2]);
  }

  /** Of a longer word the first 255 characters count and the rest is dropped. */
  lemma LongWordCut(p: Pipeline, w: string)
    requires AllPlain(w) && 255 < |w|
    ensures Analysis(p, w) == Analysis(p, w[..255])
  {
    hide Tokens, Held;
    var cut := w[..255];
    assert AllPlain(cut);
    PlainHeld(w);
    PlainHeld(cut);
    OneToken(w);
    OneToken(cut);
  }
}
