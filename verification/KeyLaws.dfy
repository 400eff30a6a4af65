/** What a cache key is: the words of the query in small letters with one blank between, and
    the number of results. */
module KeyLaws {
  import opened Analyzer
  import opened CacheKey

  /** How many characters there are before the first white space. */
  function WordLength(s: string): (n: nat)
    ensures n <= |s| && (forall i :: 0 <= i < n ==> !IsSpace(s[i])) && (n < |s| ==> IsSpace(s[n]))
  {
    if s == [] || IsSpace(s[0]) then 0 else 1 + WordLength(s[1..])
  }

  /** What white space separates. */
  function Words(s: string): seq<string>
    decreases |s|
  {
    if s == [] then []
    else if IsSpace(s[0]) then Words(s[1..])
    else
      var n := WordLength(s);
      [s[..n]] + Words(s[n..])
  }

  function Spaced(words: seq<string>): string
  {
    if words == [] then []
    else if |words| == 1 then words[0]
    else words[0] + " " + Spaced(words[1..])
  }

  lemma {:induction false} SqueezeWord(s: string, n: nat, afterSpace: bool)
    requires n <= |s| && forall i :: 0 <= i < n ==> !IsSpace(s[i])
    ensures Squeeze(s, afterSpace) == s[..n] + Squeeze(s[n..], if n == 0 then afterSpace else false)
  {
    hide IsSpace;
    if n == 0 {
      assert s[0..] == s;
    } else {
      SqueezeWord(s[1..], n - 1, false);
      assert s[1..][n - 1..] == s[n..] && s[..n] == [s[0]] + s[1..][..n - 1];
    }
  }

  lemma {:induction false} StripBehind(a: string, b: string)
    requires b != [] && b[0] != ' '
    ensures StripBlanks(a + b) == a + StripBlanks(b)
    decreases |b|
  {
    if b[|b| - 1] == ' ' {
      assert (a + b)[..|a + b| - 1] == a + b[..|b| - 1];
      StripBehind(a, b[..|b| - 1]);
    }
  }

  lemma StripWord(w: string)
    requires w != [] && !IsSpace(w[|w| - 1])
    ensures StripBlanks(w) == w && StripBlanks(w + " ") == w
  {
    assert (w + " ")[..|w|] == w;
  }

  /** Squeezing and stripping leave the words, each but the last with one blank behind it. */
  lemma {:induction false} SqueezedWords(s: string)
    ensures StripBlanks(Squeeze(s, true)) == Spaced(Words(s))
    ensures Squeeze(s, true) == [] <==> Words(s) == []
    ensures Squeeze(s, true) != [] ==> Squeeze(s, true)[0] != ' '
    decreases |s|
  {
    if s != [] {
      if IsSpace(s[0]) {
        SqueezedWords(s[1..]);
      } else {
        var n := WordLength(s);
        var w, rest := s[..n], s[n..];
        SqueezeWord(s, n, true);
        assert !IsSpace(w[|w| - 1]) && w[0] == s[0];
        StripWord(w);
        if rest == [] {
          assert Squeeze(s, true) == w && Words(rest) == [];
          assert [w] + [] == [w];
        } else {
          SqueezedWords(rest[1..]);
          var more := Squeeze(rest[1..], true);
          assert Squeeze(rest, false) == " " + more && Words(rest) == Words(rest[1..]);
          assert Squeeze(s, true) == (w + " ") + more;
          FirstSpaced(w, Words(rest));
          if more == [] {
            assert (w + " ") + more == w + " ";
          } else {
            StripBehind(w + " ", more);
          }
        }
      }
    }
  }

  lemma FirstSpaced(w: string, words: seq<string>)
    ensures Spaced([w] + words) == if words == [] then w else (w + " ") + Spaced(words)
  {
    assert ([w] + words)[1..] == words;
  }

  /** The normal form of a query is its words in small letters, one blank between them. */
  lemma NormalIsWords(query: string)
    ensures Normal(query) == Spaced(Words(Lower(query)))
  {
    hide Spaced, Words;
    SqueezedWords(Lower(query));
  }

  /** What a decimal numeral stands for. */
  function ValueOf(s: string): int
    requires forall i :: 0 <= i < |s| ==> IsDigit(s[i])
  {
    if s == [] then 0 else 10 * ValueOf(s[..|s| - 1]) + (s[|s| - 1] as int - '0' as int)
  }

  lemma {:induction false} DecimalStandsFor(k: nat)
    ensures ValueOf(Decimal(k)) == k
  {
    var s := Decimal(k);
    if k < 10 {
      assert s[..0] == [];
    } else {
      DecimalStandsFor(k / 10);
      assert s[..|s| - 1] == Decimal(k / 10);
    }
  }

  /** Two requests share a key exactly if they have the same words, up to case, and ask for
      as many results. */
  lemma SameKeyExactly(a: string, k: nat, b: string, m: nat)
    ensures Key(a, k) == Key(b, m) <==> Words(Lower(a)) == Words(Lower(b)) && k == m
  {
    hide Words, Decimal, Normal, Spaced;
    NormalIsWords(a);
    NormalIsWords(b);
    if Key(a, k) == Key(b, m) {
      KeyInjective(Normal(a), k, Normal(b), m);
      WordsOfSpaced(Lower(a));
      WordsOfSpaced(Lower(b));
    }
  }

  // ---- the words can be read off the normal form ----

  lemma {:induction false} WordsBefore(w: string, rest: string)
    requires w != [] && (forall i :: 0 <= i < |w| ==> !IsSpace(w[i])) && (rest != [] ==> IsSpace(rest[0]))
    ensures Words(w + rest) == [w] + Words(rest)
  {
    var s := w + rest;
    var n := WordLength(s);
    assert forall i :: 0 <= i < |w| ==> s[i] == w[i];
    assert rest != [] ==> s[|w|] == rest[0];
    assert n == |w|;
    assert s[..n] == w && s[n..] == rest;
  }

  lemma {:induction false} WordsAgain(words: seq<string>)
    requires forall i :: 0 <= i < |words| ==>
      words[i] != [] && forall j :: 0 <= j < |words[i]| ==> !IsSpace(words[i][j])
    ensures Words(Spaced(words)) == words
  {
    hide IsSpace, Words;
    if words == [] {
      NoWords();
    } else {
      WordsAgain(words[1..]);
      NoWords();
      var rest := if |words| == 1 then "" else " " + Spaced(words[1..]);
      assert words[0] + "" == words[0];
      assert Spaced(words) == words[0] + rest;
      BlankSkipped(Spaced(words[1..]));
      WordsBefore(words[0], rest);
      assert words == [words[0]] + words[1..];
    }
  }

  lemma NoWords()
    ensures Words("") == [] && IsSpace(' ')
  {
  }

  lemma BlankSkipped(s: string)
    ensures Words(" " + s) == Words(s)
  {
    assert (" " + s)[1..] == s;
  }

  lemma {:induction false} WordsAreWords(s: string)
    ensures forall i :: 0 <= i < |Words(s)| ==>
      Words(s)[i] != [] && forall j :: 0 <= j < |Words(s)[i]| ==> !IsSpace(Words(s)[i][j])
    decreases |s|
  {
    hide IsSpace;
    if s != [] {
      if IsSpace(s[0]) {
        WordsAreWords(s[1..]);
      } else {
        WordsAreWords(s[WordLength(s)..]);
      }
    }
  }

  lemma WordsOfSpaced(s: string)
    ensures Words(Spaced(Words(s))) == Words(s)
  {
    hide Words, Spaced, IsSpace;
    WordsAreWords(s);
    WordsAgain(Words(s));
  }
}
