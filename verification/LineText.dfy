/** Lines of text up to white space, and the mentions of a word in them.

    Two lines are alike when they have the same words, that is, the same runs of non-blank
    characters. The normal form of a line is its words one blank apart. A token without
    white space lies within one word, so its mentions are counted word by word and survive
    normalising. */
module LineText {
  import opened JsText

  // ----- words -----

  /** Length of the leading run of non-blank characters. */
  function Run(s: string): (n: nat)
    ensures n <= |s|
    ensures forall c <- s[..n] :: !IsSpace(c)
    ensures n < |s| ==> IsSpace(s[n])
  {
    if s == [] || IsSpace(s[0]) then 0 else 1 + Run(s[1..])
  }

  function Words(s: string): seq<string>
    decreases |s|
  {
    if s == [] then []
    else if IsSpace(s[0]) then Words(s[1..])
    else [s[..Run(s)]] + Words(s[Run(s)..])
  }

  predicate IsWord(w: string) { w != "" && forall c <- w :: !IsSpace(c) }

  function Join(words: seq<string>): string {
    if words == [] then ""
    else if |words| == 1 then words[0]
    else words[0] + (" " + Join(words[1..]))
  }

  // ----- normal form -----

  function TrimStart(s: string): string {
    if s != [] && IsSpace(s[0]) then TrimStart(s[1..]) else s
  }

  function TrimEnd(s: string): string {
    if s != [] && IsSpace(s[|s| - 1]) then TrimEnd(s[..|s| - 1]) else s
  }

  /** Every run of white space folded to one blank. */
  function Collapse(s: string): string {
    if s == [] then []
    else if !IsSpace(s[0]) then [s[0]] + Collapse(s[1..])
    else if |s| > 1 && IsSpace(s[1]) then Collapse(s[1..])
    else " " + Collapse(s[1..])
  }

  function Normalize(line: string): string { Collapse(TrimEnd(TrimStart(line))) }

  lemma {:induction false} CollapseWord(w: string, r: string)
    requires forall c <- w :: !IsSpace(c)
    ensures Collapse(w + r) == w + Collapse(r)
  {
    if w == [] {
      assert w + r == r;
    } else {
      assert (w + r)[1..] == w[1..] + r;
      CollapseWord(w[1..], r);
      assert [w[0]] + (w[1..] + Collapse(r)) == w + Collapse(r);
    }
  }

  lemma {:induction false} CollapseBlank(r: string)
    requires r != [] && IsSpace(r[0])
    ensures Collapse(r) == " " + Collapse(TrimStart(r))
  {
    if |r| > 1 && IsSpace(r[1]) {
      CollapseBlank(r[1..]);
    }
  }

  lemma {:induction false} TrimStartFacts(r: string)
    ensures Words(TrimStart(r)) == Words(r)
    ensures |TrimStart(r)| <= |r|
    ensures TrimStart(r) != [] ==> !IsSpace(TrimStart(r)[0]) && TrimStart(r)[|TrimStart(r)| - 1] == r[|r| - 1]
    ensures TrimStart(r) == [] ==> r == [] || IsSpace(r[|r| - 1])
  {
    if r != [] && IsSpace(r[0]) {
      TrimStartFacts(r[1..]);
    }
  }

  lemma {:induction false} WordsBeforeBlank(s: string, c: char)
    requires IsSpace(c)
    ensures Words(s + [c]) == Words(s)
    decreases |s|
  {
    if s == [] {
      assert (s + [c])[1..] == [];
    } else if IsSpace(s[0]) {
      assert (s + [c])[1..] == s[1..] + [c];
      WordsBeforeBlank(s[1..], c);
    } else {
      RunBeforeBlank(s, c);
      assert (s + [c])[..Run(s)] == s[..Run(s)] && (s + [c])[Run(s)..] == s[Run(s)..] + [c];
      WordsBeforeBlank(s[Run(s)..], c);
    }
  }

  lemma {:induction false} RunBeforeBlank(s: string, c: char)
    requires IsSpace(c)
    ensures Run(s + [c]) == Run(s)
  {
    if s != [] && !IsSpace(s[0]) {
      assert (s + [c])[1..] == s[1..] + [c];
      RunBeforeBlank(s[1..], c);
    }
  }

  lemma {:induction false} TrimEndFacts(s: string)
    ensures Words(TrimEnd(s)) == Words(s)
    ensures TrimEnd(s) != [] ==> TrimEnd(s)[0] == s[0] && !IsSpace(TrimEnd(s)[|TrimEnd(s)| - 1])
  {
    if s != [] && IsSpace(s[|s| - 1]) {
      var shorter, c := s[..|s| - 1], s[|s| - 1];
      assert s == shorter + [c];
      WordsBeforeBlank(shorter, c);
      TrimEndFacts(shorter);
    }
  }

  lemma {:induction false} CollapseJoins(s: string)
    requires s != [] && !IsSpace(s[0]) && !IsSpace(s[|s| - 1])
    ensures Collapse(s) == Join(Words(s)) && Words(s) != []
    decreases |s|
  {
    var w, r := s[..Run(s)], s[Run(s)..];
    assert s == w + r;
    CollapseWord(w, r);
    if r == [] {
      assert w + [] == w;
    } else {
      CollapseBlank(r);
      TrimStartFacts(r);
      assert r[|r| - 1] == s[|s| - 1];
      CollapseJoins(TrimStart(r));
      assert Words(s)[1..] == Words(r);
    }
  }

  /** The normal form is the words of the line, one blank apart. */
  lemma NormalizeJoins(line: string)
    ensures Normalize(line) == Join(Words(line))
  {
    TrimStartFacts(line);
    TrimEndFacts(TrimStart(line));
    if TrimEnd(TrimStart(line)) != [] {
      CollapseJoins(TrimEnd(TrimStart(line)));
    }
  }

  lemma {:induction false} WordsAreWords(s: string)
    ensures forall w <- Words(s) :: IsWord(w)
    decreases |s|
  {
    if s != [] {
      WordsAreWords(if IsSpace(s[0]) then s[1..] else s[Run(s)..]);
    }
  }

  lemma {:induction false} RunOfWord(w: string, r: string)
    requires (forall c <- w :: !IsSpace(c)) && (r == [] || IsSpace(r[0]))
    ensures Run(w + r) == |w|
  {
    if w == [] {
      assert w + r == r;
    } else {
      assert (w + r)[1..] == w[1..] + r;
      RunOfWord(w[1..], r);
    }
  }

  lemma FirstWord(w: string, r: string)
    requires IsWord(w) && (r == [] || IsSpace(r[0]))
    ensures Words(w + r) == [w] + Words(r)
  {
    RunOfWord(w, r);
    assert (w + r)[..|w|] == w && (w + r)[|w|..] == r;
    assert w[0] in w;
  }

  lemma {:induction false} WordsOfJoin(words: seq<string>)
    requires forall w <- words :: IsWord(w)
    ensures Words(Join(words)) == words
  {
    if |words| == 1 {
      FirstWord(words[0], "");
      assert words[0] + "" == words[0];
    } else if words != [] {
      var more := Join(words[1..]);
      WordsOfJoin(words[1..]);
      FirstWord(words[0], " " + more);
      assert (" " + more)[1..] == more;
    }
  }

  /** Two lines have the same normal form exactly when they differ only in white space. */
  lemma SameNormalFormIff(a: string, b: string)
    ensures Normalize(a) == Normalize(b) <==> Words(a) == Words(b)
  {
    NormalizeJoins(a);
    NormalizeJoins(b);
    WordsAreWords(a);
    WordsAreWords(b);
    WordsOfJoin(Words(a));
    WordsOfJoin(Words(b));
  }

  // ----- mentions -----

  /** The number of mentions of a token, found left to right without overlap. */
  function Count(s: string, token: string): nat
    requires token != ""
  {
    if s == [] then 0
    else if token <= s then 1 + Count(s[|token|..], token)
    else Count(s[1..], token)
  }

  lemma {:induction false} CountAcrossBlank(w: string, c: char, r: string, token: string)
    requires IsSpace(c) && IsWord(token)
    ensures Count(w + ([c] + r), token) == Count(w, token) + Count(r, token)
    decreases |w|
  {
    var s := w + ([c] + r);
    assert |token| > |w| ==> s[|w|] == c;
    if token <= s {
      assert forall i :: 0 <= i < |token| ==> token[i] == s[i] && token[i] in token;
      assert |token| <= |w| && token <= w;
      assert s[|token|..] == w[|token|..] + ([c] + r);
      CountAcrossBlank(w[|token|..], c, r, token);
    } else if w == [] {
      assert s[1..] == r;
    } else {
      assert token <= w ==> token <= s;
      assert s[1..] == w[1..] + ([c] + r);
      CountAcrossBlank(w[1..], c, r, token);
    }
  }

  function CountIn(words: seq<string>, token: string): nat
    requires token != ""
  {
    if words == [] then 0 else Count(words[0], token) + CountIn(words[1..], token)
  }

  lemma {:induction false} CountByWord(s: string, token: string)
    requires IsWord(token)
    ensures Count(s, token) == CountIn(Words(s), token)
    decreases |s|
  {
    if s == [] {
    } else if IsSpace(s[0]) {
      assert s == [] + ([s[0]] + s[1..]);
      CountAcrossBlank([], s[0], s[1..], token);
      CountByWord(s[1..], token);
    } else {
      var w, r := s[..Run(s)], s[Run(s)..];
      CountByWord(r, token);
      assert s == w + r;
      if r == [] {
        assert w == s;
      } else {
        assert r == [r[0]] + r[1..] == [] + ([r[0]] + r[1..]);
        CountAcrossBlank(w, r[0], r[1..], token);
        CountAcrossBlank([], r[0], r[1..], token);
      }
    }
  }

  /** Normalising a line keeps its mentions of a token without white space. */
  lemma NormalizeKeepsCount(line: string, token: string)
    requires IsWord(token)
    ensures Count(Normalize(line), token) == Count(line, token)
  {
    CountByWord(line, token);
    CountByWord(Normalize(line), token);
    NormalizeJoins(line);
    WordsAreWords(line);
    WordsOfJoin(Words(line));
  }
}
