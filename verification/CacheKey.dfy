/** The key a query is cached under, and why two queries with the same key have the
    same analysis. */
module CacheKey {
  import opened Analyzer

  predicate IsSpace(c: char) { c == ' ' || 9 <= c as int <= 13 }

  // ---- normalization ----

  /** Every run of white space becomes one blank, at the front none. */
  function Squeeze(s: string, afterSpace: bool): string
  {
    if s == [] then []
    else if IsSpace(s[0]) then
      if afterSpace then Squeeze(s[1..], true) else [' '] + Squeeze(s[1..], true)
    else [s[0]] + Squeeze(s[1..], false)
  }

  function StripBlanks(s: string): string
  {
    if s != [] && s[|s| - 1] == ' ' then StripBlanks(s[..|s| - 1]) else s
  }

  function Normal(query: string): string
  {
    StripBlanks(Squeeze(Lower(query), true))
  }

  method Normalize(query: string) returns (out: string)
    ensures out == Normal(query)
  {
    hide IsSpace;
    out := [];
    var lastWasSpace := true;
    assert Lower(query)[0..] == Lower(query);
    for i := 0 to |query|
      invariant out + Squeeze(Lower(query)[i..], lastWasSpace) == Squeeze(Lower(query), true)
    {
      SqueezeStep(Lower(query), i, lastWasSpace, out);
      var lower := ToLower(query[i]);
      if IsSpace(lower) {
        if !lastWasSpace {
          out := out + [' '];
        }
        lastWasSpace := true;
      } else {
        out := out + [lower];
        lastWasSpace := false;
      }
    }
    assert Lower(query)[|query|..] == [] && out + Squeeze([], lastWasSpace) == out;
    while out != [] && out[|out| - 1] == ' '
      invariant StripBlanks(out) == Normal(query)
      decreases |out|
    {
      out := out[..|out| - 1];
    }
  }

  lemma SqueezeStep(s: string, i: nat, afterSpace: bool, out: string)
    requires i < |s|
    ensures out + Squeeze(s[i..], afterSpace) ==
      (if !IsSpace(s[i]) then out + [s[i]] else if afterSpace then out else out + [' ']) +
      Squeeze(s[i + 1..], IsSpace(s[i]))
  {
    hide IsSpace;
    assert s[i..][1..] == s[i + 1..];
  }

  // ---- the normal form ----

  /** White space only as single blanks. */
  ghost predicate SingleBlanks(s: string)
  {
    && (forall i :: 0 <= i < |s| && IsSpace(s[i]) ==> s[i] == ' ')
    && forall i :: 0 < i < |s| ==> !(s[i - 1] == ' ' && s[i] == ' ')
  }

  /** Small letters, and white space only as single blanks between other characters. */
  ghost predicate InNormalForm(s: string)
  {
    && SingleBlanks(s) && (s != [] ==> s[0] != ' ' && s[|s| - 1] != ' ')
    && forall i :: 0 <= i < |s| ==> ToLower(s[i]) == s[i]
  }

  lemma {:induction false} SqueezeForm(s: string, afterSpace: bool)
    ensures var t := Squeeze(s, afterSpace);
      && SingleBlanks(t) && (afterSpace && t != [] ==> t[0] != ' ')
      && forall i :: 0 <= i < |t| ==> t[i] == ' ' || t[i] in s
  {
    if s != [] {
      var rest := Squeeze(s[1..], IsSpace(s[0]));
      SqueezeForm(s[1..], IsSpace(s[0]));
      var t := Squeeze(s, afterSpace);
      assert t == rest || t == [t[0]] + rest;
    }
  }

  lemma {:induction false} StripForm(s: string)
    requires SingleBlanks(s) && (s != [] ==> s[0] != ' ')
    ensures var t := StripBlanks(s);
      SingleBlanks(t) && t <= s && (t != [] ==> t[0] != ' ' && t[|t| - 1] != ' ')
  {
    if s != [] && s[|s| - 1] == ' ' {
      StripForm(s[..|s| - 1]);
    }
  }

  lemma {:induction false} SqueezeFixed(s: string, afterSpace: bool)
    requires SingleBlanks(s) && (afterSpace && s != [] ==> s[0] != ' ')
    ensures Squeeze(s, afterSpace) == s
  {
    if s != [] {
      SqueezeFixed(s[1..], s[0] == ' ');
      assert s == [s[0]] + s[1..];
    }
  }

  /** A normalized query is in normal form, and what is in normal form is normalized to
      itself: so normalizing twice is normalizing once. */
  lemma NormalForm(query: string)
    ensures InNormalForm(Normal(query))
    ensures InNormalForm(query) ==> Normal(query) == query
    ensures Normal(Normal(query)) == Normal(query)
  {
    hide IsSpace;
    NormalIsForm(query);
    FormIsFixed(Normal(query));
    if InNormalForm(query) {
      FormIsFixed(query);
    }
  }

  lemma NormalIsForm(query: string)
    ensures InNormalForm(Normal(query))
  {
    hide IsSpace;
    var lower := Lower(query);
    var squeezed := Squeeze(lower, true);
    SqueezeForm(lower, true);
    StripForm(squeezed);
    var t := StripBlanks(squeezed);
    forall i | 0 <= i < |t|
      ensures ToLower(t[i]) == t[i]
    {
      assert t[i] == squeezed[i];
    }
  }

  lemma FormIsFixed(s: string)
    requires InNormalForm(s)
    ensures Normal(s) == s
  {
    assert Lower(s) == s;
    SqueezeFixed(s, true);
  }

  // ---- the tokenizer does not see the difference ----

  /** A token holds no white space, so squeezing leaves it, and where it ends, alone. */
  lemma {:induction false} RunSqueezed(prev: char, s: string)
    ensures var n := RunLength(prev, s);
      && RunLength(prev, Squeeze(s, false)) == n
      && n <= |Squeeze(s, false)|
      && Squeeze(s, false)[..n] == s[..n]
      && Squeeze(s, false)[n..] == Squeeze(s[n..], false)
    decreases |s|
  {
    hide Squeeze, IsSpace, Continues;
    if s == [] {
      NothingSqueezed();
    } else {
      LookAhead(prev, s);
      if Continues(prev, s) {
        RunSqueezed(s[0], s[1..]);
        SqueezeHead(s);
        Shifted(Squeeze(s, false), s, RunLength(s[0], s[1..]));
      }
    }
  }

  lemma NothingSqueezed()
    ensures Squeeze([], false) == []
  {
  }

  lemma SqueezeHead(s: string)
    requires s != [] && !IsSpace(s[0])
    ensures Squeeze(s, false) == [s[0]] + Squeeze(s[1..], false)
    ensures Squeeze(s, false)[1..] == Squeeze(s[1..], false)
  {
  }

  lemma Shifted(t: string, s: string, n: nat)
    requires t != [] && s != [] && t[0] == s[0] && n < |t| && n < |s| && t[1..][..n] == s[1..][..n]
    ensures t[..n + 1] == s[..n + 1] && t[n + 1..] == t[1..][n..] && s[n + 1..] == s[1..][n..]
  {
    assert t[..n + 1] == [t[0]] + t[1..][..n];
    assert s[..n + 1] == [s[0]] + s[1..][..n];
  }

  lemma LookAhead(prev: char, s: string)
    requires s != []
    ensures Squeeze(s, false) != []
    ensures Continues(prev, Squeeze(s, false)) <==> Continues(prev, s)
    ensures Continues(prev, s) ==> !IsSpace(s[0])
  {
    if 1 < |s| {
      assert !IsSpace(s[0]) ==> Squeeze(s, false)[1..] == Squeeze(s[1..], false);
    }
  }

  lemma TokensSkip(s: string)
    requires s != [] && !IsWord(s[0])
    ensures Tokens(s) == Tokens(s[1..])
  {
  }

  lemma TokensTake(s: string, n: nat)
    requires s != [] && IsWord(s[0]) && n == RunLength(s[0], s[1..])
    ensures Tokens(s) == [Truncated([s[0]] + s[1..][..n])] + Tokens(s[1..][n..])
  {
    hide RunLength, IsWord, Truncated;
    assert s[..n + 1] == [s[0]] + s[1..][..n];
    assert s[n + 1..] == s[1..][n..];
  }

  lemma {:induction false} TokensSqueezed(s: string, afterSpace: bool)
    ensures Tokens(Squeeze(s, afterSpace)) == Tokens(s)
    decreases |s|
  {
    if s != [] {
      var t := Squeeze(s, afterSpace);
      if IsSpace(s[0]) {
        TokensSqueezed(s[1..], true);
        TokensSkip(s);
        if !afterSpace {
          TokensSkip(t);
          assert t[1..] == Squeeze(s[1..], true);
        }
      } else {
        assert t[1..] == Squeeze(s[1..], false) && t[0] == s[0];
        if !IsWord(s[0]) {
          TokensSkip(s);
          TokensSkip(t);
          TokensSqueezed(s[1..], false);
        } else {
          var n := RunLength(s[0], s[1..]);
          RunSqueezed(s[0], s[1..]);
          TokensTake(s, n);
          TokensTake(t, n);
          TokensSqueezed(s[1..][n..], false);
        }
      }
    }
  }

  lemma {:induction false} RunBeforeBlank(prev: char, s: string)
    ensures RunLength(prev, s + [' ']) == RunLength(prev, s)
    decreases |s|
  {
    if s != [] {
      assert (s + [' '])[1..] == s[1..] + [' '];
      RunBeforeBlank(s[0], s[1..]);
    }
  }

  lemma {:induction false} TokensBeforeBlank(s: string)
    ensures Tokens(s + [' ']) == Tokens(s)
    decreases |s|
  {
    var t := s + [' '];
    if s == [] {
      assert t[1..] == [];
    } else if !IsWord(s[0]) {
      assert t[1..] == s[1..] + [' '];
      TokensBeforeBlank(s[1..]);
    } else {
      assert t[1..] == s[1..] + [' '];
      RunBeforeBlank(s[0], s[1..]);
      var n := 1 + RunLength(s[0], s[1..]);
      assert t[n..] == s[n..] + [' '] && t[..n] == s[..n];
      TokensBeforeBlank(s[n..]);
    }
  }

  lemma {:induction false} TokensStripped(s: string)
    ensures Tokens(StripBlanks(s)) == Tokens(s)
    decreases |s|
  {
    if s != [] && s[|s| - 1] == ' ' {
      TokensStripped(s[..|s| - 1]);
      TokensBeforeBlank(s[..|s| - 1]);
      assert s == s[..|s| - 1] + [' '];
    }
  }

  /** Normalizing a query does not change its terms. */
  lemma AnalysisIgnoresNormalization(p: Pipeline, query: string)
    ensures Analysis(p, Normal(query)) == Analysis(p, query)
  {
    TokensStripped(Squeeze(Lower(query), true));
    TokensSqueezed(Lower(query), true);
    AnalysisIgnoresCase(p, query);
  }

  // ---- the key ----

  function Digit(d: nat): (c: char)
    requires d < 10
    ensures IsDigit(c)
  {
    (d + '0' as int) as char
  }

  function Decimal(k: nat): (s: string)
    ensures s != [] && forall i :: 0 <= i < |s| ==> IsDigit(s[i])
  {
    if k < 10 then [Digit(k)] else Decimal(k / 10) + [Digit(k % 10)]
  }

  lemma {:induction false} DecimalInjective(k: nat, m: nat)
    requires Decimal(k) == Decimal(m)
    ensures k == m
  {
    if 10 <= k && 10 <= m {
      assert Decimal(k)[..|Decimal(k)| - 1] == Decimal(k / 10);
      assert Decimal(m)[..|Decimal(m)| - 1] == Decimal(m / 10);
      DecimalInjective(k / 10, m / 10);
      assert Decimal(k)[|Decimal(k)| - 1] == Decimal(m)[|Decimal(m)| - 1];
    } else if k < 10 && m < 10 {
      assert Decimal(k)[0] == Decimal(m)[0];
    }
  }

  function Key(query: string, k: nat): string
  {
    Normal(query) + "|" + Decimal(k)
  }

  /** A key determines the normalized query and the number of results: whatever bars
      the query itself holds, the last one separates. */
  lemma KeyInjective(a: string, k: nat, b: string, m: nat)
    requires a + "|" + Decimal(k) == b + "|" + Decimal(m)
    ensures a == b && k == m
  {
    var whole := a + "|" + Decimal(k);
    assert whole == b + "|" + Decimal(m);
    assert whole[|a|] == '|' && whole[|b|] == '|';
    assert forall i :: |a| < i < |whole| ==> whole[i] == Decimal(k)[i - |a| - 1];
    assert forall i :: |b| < i < |whole| ==> whole[i] == Decimal(m)[i - |b| - 1];
    assert |a| == |b|;
    assert a == whole[..|a|] && b == whole[..|b|];
    assert Decimal(k) == whole[|a| + 1..] && Decimal(m) == whole[|b| + 1..];
    DecimalInjective(k, m);
  }
}
