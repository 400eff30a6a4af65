/** What is a token and what is not, said of the text without a scanner; and what becomes
    of words. */
module TokenLaws {
  import opened Analyzer

  // ---- tokens are the maximal runs of characters that hold together ----

  /** An apostrophe between letters, a period or comma between digits. */
  predicate Joins(before: char, c: char, after: char)
  {
    || (c == '\'' && IsAlpha(before) && IsAlpha(after))
    || ((c == '.' || c == ',') && IsDigit(before) && IsDigit(after))
  }

  /** Whether the character at i belongs to a token. */
  predicate Held(text: string, i: nat)
    requires i < |text|
  {
    IsWord(text[i]) || (0 < i < |text| - 1 && Joins(text[i - 1], text[i], text[i + 1]))
  }

  /** Where a token is. */
  datatype Span = Span(start: nat, end: nat)

  /** A run of characters that belong to a token, as long as it goes either way. */
  ghost predicate IsRun(text: string, s: Span)
  {
    && s.start < s.end <= |text|
    && (forall i :: s.start <= i < s.end ==> Held(text, i))
    && (0 < s.start ==> !Held(text, s.start - 1))
    && (s.end < |text| ==> !Held(text, s.end))
  }

  /** The runs from some place on, each once and in order, none left out. */
  ghost predicate AllRuns(text: string, from: nat, spans: seq<Span>)
  {
    && (forall k :: 0 <= k < |spans| ==> from <= spans[k].start && IsRun(text, spans[k]))
    && (forall k, m :: 0 <= k < m < |spans| ==> spans[k].end < spans[m].start)
    && forall i :: from <= i < |text| && Held(text, i) ==>
         exists k :: 0 <= k < |spans| && spans[k].start <= i < spans[k].end
  }

  /** A run up to its 255th character. */
  ghost predicate TokenAt(text: string, token: string, s: Span)
  {
    && s.start <= s.end <= |text|
    && token == text[s.start..if s.end - s.start <= 255 then s.end else s.start + 255]
  }

  ghost predicate TokensOf(text: string, tokens: seq<string>, spans: seq<Span>)
  {
    |tokens| == |spans| && forall k :: 0 <= k < |tokens| ==> TokenAt(text, tokens[k], spans[k])
  }

  /** A token goes on exactly while characters hold together. */
  lemma {:induction false} RunHolds(text: string, i: nat)
    requires 0 < i <= |text|
    ensures var n := RunLength(text[i - 1], text[i..]);
      && i + n <= |text|
      && (forall j :: i <= j < i + n ==> Held(text, j))
      && (i + n < |text| ==> !Held(text, i + n))
    decreases |text| - i
  {
    if i < |text| {
      assert text[i..][1..] == text[i + 1..];
      ContinuesHeld(text, i);
      if Held(text, i) {
        RunHolds(text, i + 1);
      }
    }
  }

  lemma ContinuesHeld(text: string, i: nat)
    requires 0 < i < |text|
    ensures Continues(text[i - 1], text[i..]) <==> Held(text, i)
  {
    assert 1 < |text[i..]| ==> text[i..][1] == text[i + 1];
  }

  lemma NotHeldNext(text: string, i: nat)
    requires 0 < i < |text| && !Held(text, i - 1) && !IsWord(text[i])
    ensures !Held(text, i)
  {
  }

  lemma {:induction false} RunsFrom(text: string, from: nat) returns (spans: seq<Span>)
    requires from <= |text|
    requires from == 0 || from == |text| || !Held(text, from - 1) || !Held(text, from)
    ensures AllRuns(text, from, spans) && TokensOf(text, Tokens(text[from..]), spans)
    decreases |text| - from
  {
    hide Held, RunLength, IsWord, Tokens, AllRuns, TokensOf, Truncated;
    if from == |text| {
      spans := [];
      NoRuns(text);
    } else if !IsWord(text[from]) {
      SkipStep(text, from);
      NotHeldHere(text, from);
      spans := RunsFrom(text, from + 1);
      RunsSkip(text, from, spans);
    } else {
      var n := 1 + RunLength(text[from], text[from + 1..]);
      FirstRun(text, from, n);
      var rest := RunsFrom(text, from + n);
      spans := [Span(from, from + n)] + rest;
      OneRunMore(text, from, n, rest);
      OneTokenMore(text, from, n, Tokens(text[from + n..]), rest);
    }
  }

  lemma NoRuns(text: string)
    ensures AllRuns(text, |text|, []) && TokensOf(text, Tokens(text[|text|..]), [])
  {
  }

  lemma RunsSkip(text: string, from: nat, spans: seq<Span>)
    requires from < |text| && !Held(text, from) && AllRuns(text, from + 1, spans)
    ensures AllRuns(text, from, spans)
  {
    hide Held;
  }

  lemma FirstRun(text: string, from: nat, n: nat)
    requires from < |text| && IsWord(text[from]) && n == 1 + RunLength(text[from], text[from + 1..])
    requires from == 0 || !Held(text, from - 1) || !Held(text, from)
    ensures from + n <= |text| && (from == 0 || !Held(text, from - 1))
    ensures forall i :: from <= i < from + n ==> Held(text, i)
    ensures from + n < |text| ==> !Held(text, from + n)
    ensures Tokens(text[from..]) == [Truncated(text[from..from + n])] + Tokens(text[from + n..])
  {
    hide RunLength, IsWord, Held, Tokens;
    RunHolds(text, from + 1);
    WordHeld(text, from);
    TokensStep(text, from, n);
  }

  lemma OneTokenMore(text: string, from: nat, n: nat, tokens: seq<string>, rest: seq<Span>)
    requires from + n <= |text| && TokensOf(text, tokens, rest)
    ensures TokensOf(text, [Truncated(text[from..from + n])] + tokens, [Span(from, from + n)] + rest)
  {
    hide TokenAt, Truncated;
    TokenHere(text, from, n);
  }

  lemma TokenHere(text: string, from: nat, n: nat)
    requires from + n <= |text|
    ensures TokenAt(text, Truncated(text[from..from + n]), Span(from, from + n))
  {
    if 255 < n {
      assert text[from..from + n][..255] == text[from..from + 255];
    }
  }

  lemma WordHeld(text: string, i: nat)
    requires i < |text| && IsWord(text[i])
    ensures Held(text, i)
  {
  }

  lemma NotHeldHere(text: string, i: nat)
    requires i < |text| && !IsWord(text[i]) && (i == 0 || !Held(text, i - 1) || !Held(text, i))
    ensures !Held(text, i)
  {
  }

  lemma OneRunMore(text: string, from: nat, n: nat, rest: seq<Span>)
    requires 1 <= n && from + n <= |text| && (from == 0 || !Held(text, from - 1))
    requires forall i :: from <= i < from + n ==> Held(text, i)
    requires from + n < |text| ==> !Held(text, from + n)
    requires AllRuns(text, from + n, rest)
    ensures AllRuns(text, from, [Span(from, from + n)] + rest)
  {
    hide Held;
    RunsCover(text, from, n, rest);
    forall k | 0 <= k < |rest|
      ensures from + n < rest[k].start
    {
      assert IsRun(text, rest[k]);
    }
  }

  lemma RunsCover(text: string, from: nat, n: nat, rest: seq<Span>)
    requires AllRuns(text, from + n, rest)
    ensures var spans := [Span(from, from + n)] + rest;
      forall i :: from <= i < |text| && Held(text, i) ==>
        exists k :: 0 <= k < |spans| && spans[k].start <= i < spans[k].end
  {
    hide Held;
    var spans := [Span(from, from + n)] + rest;
    forall i | from <= i < |text| && Held(text, i)
      ensures exists k :: 0 <= k < |spans| && spans[k].start <= i < spans[k].end
    {
      if i < from + n {
        assert spans[0].start <= i < spans[0].end;
      } else {
        var k :| 0 <= k < |rest| && rest[k].start <= i < rest[k].end;
        assert spans[k + 1] == rest[k];
      }
    }
  }

  /** The tokens of a text are its runs, each cut to 255 characters: all of them, each once
      and in order. */
  lemma TokensAreRuns(text: string) returns (spans: seq<Span>)
    ensures AllRuns(text, 0, spans) && TokensOf(text, Tokens(text), spans)
  {
    hide Tokens, Held, AllRuns, TokensOf;
    assert text[0..] == text;
    spans := RunsFrom(text, 0);
  }
}
