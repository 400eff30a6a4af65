/** Text analysis, the same for documents and for queries, in the C locale. Bytes are
    characters below 256. */
module Analyzer {

  predicate IsDigit(c: char) { '0' <= c <= '9' }

  predicate IsAlpha(c: char) { 'A' <= c <= 'Z' || 'a' <= c <= 'z' }

  /** Letters, digits, and every byte of a multi-byte character. */
  predicate IsWord(c: char) { IsAlpha(c) || IsDigit(c) || (c as int) >= 0x80 }

  function ToLower(c: char): char
  {
    if 'A' <= c <= 'Z' then ((c as int) + 32) as char else c
  }

  function Lower(s: string): (lower: string)
    ensures |lower| == |s| && forall i :: 0 <= i < |s| ==> lower[i] == ToLower(s[i])
  {
    seq(|s|, i requires 0 <= i < |s| => ToLower(s[i]))
  }

  const MAX_TOKEN_LENGTH: nat := 255

  // ---- what the tokenizer finds ----

  /** Whether the first character of `rest` continues a token that `prev` belongs to: an
      apostrophe needs letters, a period or comma digits, on both sides. */
  predicate Continues(prev: char, rest: string)
    requires rest != []
  {
    || IsWord(rest[0])
    || (1 < |rest| &&
        ((rest[0] == '\'' && IsAlpha(prev) && IsAlpha(rest[1])) ||
         ((rest[0] == '.' || rest[0] == ',') && IsDigit(prev) && IsDigit(rest[1]))))
  }

  /** How many characters of `rest` continue the token. */
  function RunLength(prev: char, rest: string): (n: nat)
    ensures n <= |rest|
    decreases |rest|
  {
    if rest != [] && Continues(prev, rest) then 1 + RunLength(rest[0], rest[1..]) else 0
  }

  function Truncated(token: string): string
  {
    if |token| < MAX_TOKEN_LENGTH then token else token[..MAX_TOKEN_LENGTH]
  }

  /** The tokens of a text: maximal runs, cut to 255 characters each, what a cut leaves
      over being dropped. */
  function Tokens(text: string): seq<string>
  {
    if text == [] then []
    else if !IsWord(text[0]) then Tokens(text[1..])
    else
      var n := 1 + RunLength(text[0], text[1..]);
      [Truncated(text[..n])] + Tokens(text[n..])
  }

  /** From the start of a token to its end. */
  method ScanToken(text: string, start: nat) returns (i: nat)
    requires start < |text| && IsWord(text[start])
    ensures i == start + 1 + RunLength(text[start], text[start + 1..])
  {
    hide IsWord, IsAlpha, IsDigit;
    i := start;
    ghost var n := 1 + RunLength(text[start], text[start + 1..]);
    while i < |text|
      invariant start <= i <= |text|
      invariant i == start || (start < i && i - start + RunLength(text[i - 1], text[i..]) == n)
      decreases |text| - i
    {
      assert text[i..][1..] == text[i + 1..];
      if IsWord(text[i]) {
        i := i + 1;
        continue;
      }
      if i + 1 < |text| {
        if text[i] == '\'' && IsAlpha(text[i - 1]) && IsAlpha(text[i + 1]) {
          i := i + 1;
          continue;
        }
        if (text[i] == '.' || text[i] == ',') && IsDigit(text[i - 1]) && IsDigit(text[i + 1]) {
          i := i + 1;
          continue;
        }
      }
      break;
    }
  }

  method Tokenize(text: string) returns (out: seq<string>)
    ensures out == Tokens(text)
  {
    hide Tokens, RunLength, IsWord;
    out := [];
    var i := 0;
    assert text[0..] == text;
    while i < |text|
      invariant i <= |text| && out + Tokens(text[i..]) == Tokens(text)
      decreases |text| - i
    {
      if !IsWord(text[i]) {
        SkipStep(text, i);
        i := i + 1;
        continue;
      }
      var start := i;
      i := ScanToken(text, start);
      TokensStep(text, start, i - start);
      if i > start {
        var length := if i - start < MAX_TOKEN_LENGTH then i - start else MAX_TOKEN_LENGTH;
        out := out + [text[start..start + length]];
      }
    }
    assert text[i..] == [];
    NoTokens();
  }

  lemma NoTokens()
    ensures Tokens([]) == []
  {
  }

  lemma SkipStep(text: string, i: nat)
    requires i < |text| && !IsWord(text[i])
    ensures Tokens(text[i..]) == Tokens(text[i + 1..])
  {
    assert text[i..][1..] == text[i + 1..];
  }

  lemma TokensStep(text: string, start: nat, n: nat)
    requires start < |text| && IsWord(text[start]) && n == 1 + RunLength(text[start], text[start + 1..])
    ensures start + n <= |text|
    ensures Tokens(text[start..]) == [Truncated(text[start..start + n])] + Tokens(text[start + n..])
    ensures Truncated(text[start..start + n]) ==
      text[start..start + if n < MAX_TOKEN_LENGTH then n else MAX_TOKEN_LENGTH]
  {
    var rest := text[start..];
    assert rest[1..] == text[start + 1..];
    assert rest[..n] == text[start..start + n];
    assert rest[n..] == text[start + n..];
  }

  // ---- what becomes of a token ----

  /** Takes a trailing possessive off. */
  function StripPossessive(token: string): string
  {
    var n := |token|;
    if 3 <= n && (token[n - 1] == 's' || token[n - 1] == 'S') && token[n - 2] == '\'' then token[..n - 2] else token
  }

  datatype Pipeline = Pipeline(stopwords: set<string>, stem: string -> string)

  /** The terms of one token: one or none. */
  function TermOf(p: Pipeline, token: string): seq<string>
  {
    var word := Lower(StripPossessive(token));
    if word == "" || word in p.stopwords then [] else [p.stem(word)]
  }

  function TermsOf(p: Pipeline, tokens: seq<string>): seq<string>
  {
    if tokens == [] then [] else TermOf(p, tokens[0]) + TermsOf(p, tokens[1..])
  }

  function Analysis(p: Pipeline, text: string): seq<string>
  {
    TermsOf(p, Tokens(text))
  }

  lemma TermsStep(p: Pipeline, tokens: seq<string>, i: nat, out: seq<string>)
    requires i < |tokens|
    ensures out + TermsOf(p, tokens[i..]) == out + TermOf(p, tokens[i]) + TermsOf(p, tokens[i + 1..])
  {
    hide TermOf;
    assert tokens[i..][1..] == tokens[i + 1..];
    assert out + (TermOf(p, tokens[i]) + TermsOf(p, tokens[i + 1..])) ==
           out + TermOf(p, tokens[i]) + TermsOf(p, tokens[i + 1..]);
  }

  method Analyze(p: Pipeline, text: string) returns (out: seq<string>)
    ensures out == Analysis(p, text)
  {
    hide Tokens, TermsOf, TermOf, StripPossessive;
    var raw := Tokenize(text);
    out := [];
    assert raw[0..] == raw;
    for i := 0 to |raw|
      invariant out + TermsOf(p, raw[i..]) == TermsOf(p, raw)
    {
      TermsStep(p, raw, i, out);
      TermOfToken(p, raw[i]);
      var token := StripPossessive(raw[i]);
      if |token| == 0 {
        continue;
      }
      token := Lower(token);
      if token in p.stopwords {
        continue;
      }
      out := out + [p.stem(token)];
    }
    assert raw[|raw|..] == [];
    NoTerms(p);
  }

  lemma TermOfToken(p: Pipeline, token: string)
    ensures var stripped := StripPossessive(token);
      TermOf(p, token) ==
        if |stripped| == 0 || Lower(stripped) in p.stopwords then [] else [p.stem(Lower(stripped))]
  {
  }

  lemma NoTerms(p: Pipeline)
    ensures TermsOf(p, []) == []
  {
  }

  // ---- analysis does not see case ----

  lemma {:induction false} RunIgnoresCase(prev: char, rest: string)
    ensures RunLength(ToLower(prev), Lower(rest)) == RunLength(prev, rest)
    decreases |rest|
  {
    if rest != [] {
      assert Lower(rest)[1..] == Lower(rest[1..]);
      RunIgnoresCase(rest[0], rest[1..]);
    }
  }

  lemma {:induction false} AnalysisIgnoresCase(p: Pipeline, text: string)
    ensures Analysis(p, Lower(text)) == Analysis(p, text)
    decreases |text|
  {
    if text != [] {
      if !IsWord(text[0]) {
        assert Lower(text)[1..] == Lower(text[1..]);
        AnalysisIgnoresCase(p, text[1..]);
      } else {
        var n := 1 + RunLength(text[0], text[1..]);
        assert Lower(text)[1..] == Lower(text[1..]);
        RunIgnoresCase(text[0], text[1..]);
        assert Lower(text)[n..] == Lower(text[n..]);
        assert Lower(text)[..n] == Lower(text[..n]);
        TermIgnoresCase(p, text[..n]);
        AnalysisIgnoresCase(p, text[n..]);
      }
    }
  }

  lemma TermIgnoresCase(p: Pipeline, token: string)
    ensures TermOf(p, Truncated(Lower(token))) == TermOf(p, Truncated(token))
  {
    var t, u := Truncated(token), Truncated(Lower(token));
    assert u == Lower(t);
    assert StripPossessive(u) == Lower(StripPossessive(t));
    assert Lower(Lower(StripPossessive(t))) == Lower(StripPossessive(t));
  }
}
