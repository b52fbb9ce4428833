/** The legacy-vocabulary scanner: every mention of a retired spelling gets a key made of its
    file, the spelling, the normalised line and an ordinal among equal mentions. */
module Occurrences {
  import opened Basics
  import opened LineText
  import opened Counter
  import Decimal

  const LEGACY := ["filePath", "toFile"]

  lemma LegacyAreWords()
    ensures forall token <- LEGACY :: IsWord(token)
  {
  }

  // ----- scanning one line -----

  /** JavaScript's `indexOf` from an index on. */
  function IndexOf(s: string, token: string, start: nat): (r: Option<nat>)
    ensures r.Some? ==> start <= r.value && r.value + |token| <= |s| && s[r.value..r.value + |token|] == token
    decreases |s| - start
  {
    if start + |token| > |s| then None
    else if s[start..start + |token|] == token then Some(start)
    else IndexOf(s, token, start + 1)
  }

  lemma {:induction false} IndexCounts(s: string, token: string, start: nat)
    requires token != "" && start <= |s|
    ensures match IndexOf(s, token, start)
            case None => Count(s[start..], token) == 0
            case Some(at) => Count(s[start..], token) == 1 + Count(s[at + |token|..], token)
    decreases |s| - start
  {
    if start + |token| > |s| {
      ShortCount(s[start..], token);
    } else {
      PrefixIff(s, token, start);
      if s[start..start + |token|] == token {
        CountHere(s, token, start);
      } else {
        CountLater(s, token, start);
        IndexCounts(s, token, start + 1);
      }
    }
  }

  lemma CountHere(s: string, token: string, start: nat)
    requires token != "" && start <= |s| && token <= s[start..]
    ensures Count(s[start..], token) == 1 + Count(s[start + |token|..], token)
  {
    assert s[start..][|token|..] == s[start + |token|..];
  }

  lemma CountLater(s: string, token: string, start: nat)
    requires token != "" && start < |s| && !(token <= s[start..])
    ensures Count(s[start..], token) == Count(s[start + 1..], token)
  {
    assert s[start..][1..] == s[start + 1..];
  }

  lemma PrefixIff(s: string, token: string, start: nat)
    requires start + |token| <= |s|
    ensures token <= s[start..] <==> s[start..start + |token|] == token
  {
    assert s[start..][..|token|] == s[start..start + |token|];
  }

  lemma {:induction false} ShortCount(t: string, token: string)
    requires |t| < |token|
    ensures Count(t, token) == 0
  {
    if t != [] {
      ShortCount(t[1..], token);
    }
  }

  /** A mention with its 1-based position. */
  datatype Found = Found(line: nat, column: nat, token: string, text: string)

  /** `f` stands where it says. */
  ghost predicate Stands(f: Found, lines: seq<string>) {
    && 1 <= f.line <= |lines| && 1 <= f.column && f.token in LEGACY
    && var line := lines[f.line - 1];
    && f.column - 1 + |f.token| <= |line| && line[f.column - 1..f.column - 1 + |f.token|] == f.token
    && f.text == Normalize(line)
  }

  ghost predicate AllStand(found: seq<Found>, lines: seq<string>) { forall f <- found :: Stands(f, lines) }

  type Mention = (string, string)

  function MentionOf(f: Found): Mention { (f.token, f.text) }

  function Mentions(found: seq<Found>): seq<Mention> {
    seq(|found|, i requires 0 <= i < |found| => MentionOf(found[i]))
  }

  function Repeat(x: Mention, n: nat): seq<Mention> { seq(n, _ => x) }

  /** All mentions of the first `k` tokens on a line, token by token. */
  function LineMentions(line: string, k: nat): seq<Mention>
    requires k <= |LEGACY|
  {
    if k == 0 then []
    else
      var token := LEGACY[k - 1];
      LineMentions(line, k - 1) + Repeat((token, Normalize(line)), Count(line, token))
  }

  function Raw(lines: seq<string>): seq<Mention> {
    if lines == [] then [] else Raw(lines[..|lines| - 1]) + LineMentions(lines[|lines| - 1], |LEGACY|)
  }

  /** The loop has read `line` up to `start`, pushing `n` mentions of `x` after `before`. */
  ghost predicate Scanning(raw: seq<Found>, lines: seq<string>, before: seq<Mention>, x: Mention, n: nat) {
    AllStand(raw, lines) && Mentions(raw) == before + Repeat(x, n)
  }

  lemma Pushed(raw: seq<Found>, lines: seq<string>, before: seq<Mention>, n: nat, f: Found)
    requires Scanning(raw, lines, before, MentionOf(f), n) && Stands(f, lines)
    ensures Scanning(raw + [f], lines, before, MentionOf(f), n + 1)
  {
    assert Repeat(MentionOf(f), n + 1) == Repeat(MentionOf(f), n) + [MentionOf(f)];
    assert Mentions(raw + [f]) == Mentions(raw) + [MentionOf(f)];
  }

  /** `b` comes after `a` in a scan: on a later line, or for another token of the line, or
      further on without overlap. */
  predicate Follows(a: Found, b: Found) {
    || a.line < b.line
    || (a.line == b.line && (a.token != b.token || a.column + |a.token| <= b.column))
  }

  ghost predicate InOrder(found: seq<Found>) {
    forall i, j :: 0 <= i < j < |found| ==> Follows(found[i], found[j])
  }

  /** Everything found lies before column `start` (0-based) for `token` on line `line`, the
      tokens `done` of that line being finished. */
  ghost predicate Passed(found: seq<Found>, line: nat, done: seq<string>, token: string, start: nat) {
    && InOrder(found)
    && forall f <- found ::
         f.line < line || (f.line == line && (f.token in done || (f.token == token && f.column + |token| <= start + 1)))
  }

  ghost predicate PassedTokens(found: seq<Found>, line: nat, done: seq<string>) {
    InOrder(found) && forall f <- found :: f.line < line || (f.line == line && f.token in done)
  }

  lemma PassedNext(found: seq<Found>, line: nat, done: seq<string>, token: string, start: nat, f: Found)
    requires Passed(found, line, done, token, start) && token !in done
    requires f.line == line && f.token == token && start + 1 <= f.column
    ensures Passed(found + [f], line, done, token, f.column - 1 + |token|)
  {
    forall i | 0 <= i < |found|
      ensures Follows(found[i], f)
    {
      assert found[i] in found;
    }
  }

  lemma PassedStart(found: seq<Found>, line: nat, done: seq<string>, token: string)
    requires PassedTokens(found, line, done)
    ensures Passed(found, line, done, token, 0)
  {
  }

  lemma PassedEnd(found: seq<Found>, line: nat, done: seq<string>, token: string, start: nat)
    requires Passed(found, line, done, token, start)
    ensures PassedTokens(found, line, done + [token])
  {
  }

  method Push(lines: seq<string>, lineIndex: nat, token: string, at: nat, raw: seq<Found>,
              ghost before: seq<Mention>, ghost n: nat, ghost done: seq<string>, ghost start: nat)
    returns (raw': seq<Found>)
    requires lineIndex < |lines| && token in LEGACY && token !in done && start <= at
    requires at + |token| <= |lines[lineIndex]| && lines[lineIndex][at..at + |token|] == token
    requires Scanning(raw, lines, before, (token, Normalize(lines[lineIndex])), n)
    requires Passed(raw, lineIndex + 1, done, token, start)
    ensures Scanning(raw', lines, before, (token, Normalize(lines[lineIndex])), n + 1)
    ensures Passed(raw', lineIndex + 1, done, token, at + |token|)
  {
    var found := Found(lineIndex + 1, at + 1, token, Normalize(lines[lineIndex]));
    Pushed(raw, lines, before, n, found);
    PassedNext(raw, lineIndex + 1, done, token, start, found);
    raw' := raw + [found];
  }

  /** Find the next mention on a line and record it, or find that none is left. */
  method ScanStep(lines: seq<string>, lineIndex: nat, token: string, start: nat, raw: seq<Found>,
                  ghost before: seq<Mention>, ghost n: nat, ghost done: seq<string>)
    returns (found: bool, raw': seq<Found>, start': nat)
    requires lineIndex < |lines| && token in LEGACY && token !in done && token != "" && start <= |lines[lineIndex]|
    requires Scanning(raw, lines, before, (token, Normalize(lines[lineIndex])), n)
    requires Passed(raw, lineIndex + 1, done, token, start)
    ensures !found ==> raw' == raw && start' == start && Count(lines[lineIndex][start..], token) == 0
    ensures found ==> start < start' <= |lines[lineIndex]| && Passed(raw', lineIndex + 1, done, token, start')
    ensures found ==> Scanning(raw', lines, before, (token, Normalize(lines[lineIndex])), n + 1)
    ensures found ==> Count(lines[lineIndex][start..], token) == 1 + Count(lines[lineIndex][start'..], token)
  {
    raw', start' := raw, start;
    IndexCounts(lines[lineIndex], token, start);
    var at := IndexOf(lines[lineIndex], token, start);
    found := at.Some?;
    if found {
      raw' := Push(lines, lineIndex, token, at.value, raw, before, n, done, start);
      start' := at.value + |token|;
    }
  }

  method ScanToken(lines: seq<string>, lineIndex: nat, token: string, raw: seq<Found>,
                   ghost before: seq<Mention>, ghost x: Mention, ghost done: seq<string>)
    returns (raw': seq<Found>)
    requires lineIndex < |lines| && token in LEGACY && token != "" && x == (token, Normalize(lines[lineIndex]))
    requires token !in done && PassedTokens(raw, lineIndex + 1, done) && Scanning(raw, lines, before, x, 0)
    ensures Scanning(raw', lines, before, x, Count(lines[lineIndex], token))
    ensures PassedTokens(raw', lineIndex + 1, done + [token])
  {
    var line := lines[lineIndex];
    raw' := raw;
    var start: nat := 0;
    ghost var n := 0;
    assert line[0..] == line;
    PassedStart(raw, lineIndex + 1, done, token);
    var more := true;
    while more
      invariant start <= |line| && n + Count(line[start..], token) == Count(line, token)
      invariant Scanning(raw', lines, before, x, n) && Passed(raw', lineIndex + 1, done, token, start)
      invariant !more ==> Count(line[start..], token) == 0
      decreases if more then 1 + |line| - start else 0
    {
      more, raw', start := ScanStep(lines, lineIndex, token, start, raw', before, n, done);
      n := if more then n + 1 else n;
    }
    PassedEnd(raw', lineIndex + 1, done, token, start);
  }

  lemma LegacyDistinct(k: nat)
    requires k < |LEGACY|
    ensures LEGACY[k] in LEGACY && LEGACY[k] != "" && LEGACY[k] !in LEGACY[..k]
    ensures LEGACY[..k] + [LEGACY[k]] == LEGACY[..k + 1]
  {
    assert LEGACY[0][0] != LEGACY[1][0];
  }

  /** All mentions of the first `k` tokens of line `i` have been found, after those of the
      lines before it. */
  ghost predicate ScannedTo(raw: seq<Found>, lines: seq<string>, i: nat, k: nat)
    requires i < |lines| && k <= |LEGACY|
  {
    && AllStand(raw, lines) && Mentions(raw) == Raw(lines[..i]) + LineMentions(lines[i], k)
    && PassedTokens(raw, i + 1, LEGACY[..k])
  }

  method ScanNext(lines: seq<string>, i: nat, k: nat, raw: seq<Found>) returns (raw': seq<Found>)
    requires i < |lines| && k < |LEGACY| && ScannedTo(raw, lines, i, k)
    ensures ScannedTo(raw', lines, i, k + 1)
  {
    ghost var before, x := Mentions(raw), (LEGACY[k], Normalize(lines[i]));
    assert before + Repeat(x, 0) == before;
    LegacyDistinct(k);
    raw' := ScanToken(lines, i, LEGACY[k], raw, before, x, LEGACY[..k]);
  }

  method ScanLines(lines: seq<string>) returns (raw: seq<Found>)
    ensures AllStand(raw, lines) && InOrder(raw)
    ensures Mentions(raw) == Raw(lines)
  {
    raw := [];
    for i := 0 to |lines|
      invariant AllStand(raw, lines)
      invariant Mentions(raw) == Raw(lines[..i])
      invariant PassedTokens(raw, i + 1, [])
    {
      assert lines[..i + 1][..i] == lines[..i];
      assert LEGACY[..0] == [];
      for k := 0 to |LEGACY|
        invariant ScannedTo(raw, lines, i, k)
      {
        raw := ScanNext(lines, i, k, raw);
      }
    }
    assert lines[..|lines|] == lines;
  }

  // ----- ordinals -----

  /** Every mention with its ordinal among the equal mentions up to it. */
  ghost function Numbered<T>(raw: seq<T>): seq<(T, nat)> {
    if raw == [] then []
    else var last := |raw| - 1; Numbered(raw[..last]) + [(raw[last], multiset(raw)[raw[last]])]
  }

  lemma {:induction false} NumberedSet<T>(raw: seq<T>, x: T, n: nat)
    ensures (x, n) in Numbered(raw) <==> 1 <= n <= multiset(raw)[x]
  {
    if raw != [] {
      var last := |raw| - 1;
      NumberedSet(raw[..last], x, n);
      assert raw == raw[..last] + [raw[last]];
      assert multiset(raw)[x] == multiset(raw[..last])[x] + if x == raw[last] then 1 else 0;
    }
  }

  lemma {:induction false} NumberedDistinct(raw: seq<Mention>, i: nat, j: nat)
    requires i < j < |raw|
    ensures |Numbered(raw)| == |raw| && Numbered(raw)[i] != Numbered(raw)[j]
  {
    NumberedLength(raw);
    var last := |raw| - 1;
    NumberedLength(raw[..last]);
    if j < last {
      NumberedDistinct(raw[..last], i, j);
    } else {
      assert raw == raw[..last] + [raw[last]];
      NumberedSet(raw[..last], raw[last], multiset(raw)[raw[last]]);
      assert Numbered(raw)[i] == Numbered(raw[..last])[i];
      assert Numbered(raw[..last])[i] in Numbered(raw[..last]);
    }
  }

  lemma {:induction false} NumberedLength(raw: seq<Mention>)
    ensures |Numbered(raw)| == |raw|
  {
    if raw != [] {
      NumberedLength(raw[..|raw| - 1]);
    }
  }

  datatype Occurrence = Occurrence(found: Found, ordinal: nat)

  function Identities(out: seq<Occurrence>): seq<(Mention, nat)> {
    seq(|out|, i requires 0 <= i < |out| => (MentionOf(out[i].found), out[i].ordinal))
  }

  /** The scanner's counter name for a mention. */
  function CounterName(path: string, x: Mention): string { path + (['\0'] + (x.1 + (['\0'] + x.0))) }

  lemma CancelFront(a: string, x: string, y: string)
    requires a + x == a + y
    ensures x == y
  {
    assert (a + x)[|a|..] == x && (a + y)[|a|..] == y;
  }

  lemma CancelBack(x: string, y: string, b: string)
    requires x + b == y + b
    ensures x == y
  {
    assert (x + b)[..|x|] == x && (y + b)[..|y|] == y;
  }

  lemma CounterNameInjective(path: string, x: Mention, y: Mention)
    requires x.0 in LEGACY && y.0 in LEGACY && CounterName(path, x) == CounterName(path, y)
    ensures x == y
  {
    var s, t := x.1 + (['\0'] + x.0), y.1 + (['\0'] + y.0);
    CancelFront(path, ['\0'] + s, ['\0'] + t);
    CancelFront(['\0'], s, t);
    assert s[|s| - 1] == x.0[|x.0| - 1] && t[|t| - 1] == y.0[|y.0| - 1];
    assert x.0 == y.0;
    CancelBack(x.1, y.1, ['\0'] + x.0);
  }

  /** The counters hold how often each mention has been seen. */
  ghost predicate Counts(seen: map<string, nat>, path: string, raw: seq<Mention>) {
    forall x: Mention {:trigger CounterName(path, x)} ::
      x.0 in LEGACY ==> Get(seen, CounterName(path, x)) == multiset(raw)[x]
  }

  lemma CountsNext(seen: map<string, nat>, path: string, raw: seq<Mention>, x: Mention)
    requires Counts(seen, path, raw) && x.0 in LEGACY
    ensures Counts(Add(seen, CounterName(path, x), 1), path, raw + [x])
  {
    forall y: Mention | y.0 in LEGACY
      ensures Get(Add(seen, CounterName(path, x), 1), CounterName(path, y)) == multiset(raw + [x])[y]
    {
      if CounterName(path, x) == CounterName(path, y) {
        CounterNameInjective(path, x, y);
      }
    }
  }

  lemma NumberedNext<T>(raw: seq<T>, x: T)
    ensures Numbered(raw + [x]) == Numbered(raw) + [(x, multiset(raw)[x] + 1)]
  {
    var more := raw + [x];
    assert more[..|raw|] == raw && more[|raw|] == x;
    assert multiset(more)[x] == multiset(raw)[x] + 1;
  }

  lemma NumberStep(path: string, raw: seq<Found>, i: nat, out: seq<Occurrence>, seen: map<string, nat>)
    requires i < |raw| && raw[i].token in LEGACY
    requires Identities(out) == Numbered(Mentions(raw[..i])) && Counts(seen, path, Mentions(raw[..i]))
    ensures var counter := CounterName(path, MentionOf(raw[i]));
            && Identities(out + [Occurrence(raw[i], Get(seen, counter) + 1)]) == Numbered(Mentions(raw[..i + 1]))
            && Counts(Add(seen, counter, 1), path, Mentions(raw[..i + 1]))
  {
    var x := MentionOf(raw[i]);
    var next := Occurrence(raw[i], Get(seen, CounterName(path, x)) + 1);
    assert Mentions(raw[..i + 1]) == Mentions(raw[..i]) + [x];
    NumberedNext(Mentions(raw[..i]), x);
    CountsNext(seen, path, Mentions(raw[..i]), x);
    assert Identities(out + [next]) == Identities(out) + [(x, next.ordinal)];
  }

  method Number(path: string, raw: seq<Found>) returns (out: seq<Occurrence>)
    requires forall f <- raw :: f.token in LEGACY
    ensures Identities(out) == Numbered(Mentions(raw))
    ensures |out| == |raw| && forall i :: 0 <= i < |raw| ==> out[i].found == raw[i]
  {
    out := [];
    var seen: map<string, nat> := map[];
    for i := 0 to |raw|
      invariant |out| == i && forall k :: 0 <= k < i ==> out[k].found == raw[k]
      invariant Identities(out) == Numbered(Mentions(raw[..i]))
      invariant Counts(seen, path, Mentions(raw[..i]))
    {
      var x := MentionOf(raw[i]);
      var counter := CounterName(path, x);
      var ordinal := Get(seen, counter) + 1;
      NumberStep(path, raw, i, out, seen);
      seen := Add(seen, counter, 1);
      out := out + [Occurrence(raw[i], ordinal)];
    }
    assert raw[..|raw|] == raw;
  }

  /** The scan of a file: every mention with its position and its ordinal, each at another
      place than those before it. */
  method ScanLinesForOccurrences(path: string, lines: seq<string>) returns (out: seq<Occurrence>)
    ensures Identities(out) == Numbered(Raw(lines))
    ensures forall occurrence <- out :: Stands(occurrence.found, lines)
    ensures forall i, j :: 0 <= i < j < |out| ==> Follows(out[i].found, out[j].found)
  {
    var raw := ScanLines(lines);
    out := Number(path, raw);
    forall occurrence | occurrence in out
      ensures Stands(occurrence.found, lines)
    {
      var i :| 0 <= i < |out| && out[i] == occurrence;
      assert occurrence.found == raw[i];
    }
  }

  // ----- keys -----

  function Key(path: string, x: Mention, ordinal: nat): string {
    path + ("::" + (x.0 + ("::#" + (Decimal.Str(ordinal) + (":" + (":\"" + (x.1 + "\"")))))))
  }

  lemma KeyInjective(path: string, x: Mention, n: nat, y: Mention, m: nat)
    requires x.0 in LEGACY && y.0 in LEGACY
    ensures Key(path, x, n) == Key(path, y, m) ==> x == y && n == m
  {
    if Key(path, x, n) == Key(path, y, m) {
      KeySplits(path, x, n, y, m);
    }
  }

  lemma KeySplits(path: string, x: Mention, n: nat, y: Mention, m: nat)
    requires x.0 in LEGACY && y.0 in LEGACY && Key(path, x, n) == Key(path, y, m)
    ensures x == y && n == m
  {
    var a3, b3 := ":\"" + (x.1 + "\""), ":\"" + (y.1 + "\"");
    var a2, b2 := Decimal.Str(n) + (":" + a3), Decimal.Str(m) + (":" + b3);
    var a1, b1 := x.0 + ("::#" + a2), y.0 + ("::#" + b2);
    CancelFront(path, "::" + a1, "::" + b1);
    CancelFront("::", a1, b1);
    assert a1[0] == x.0[0] && b1[0] == y.0[0];
    assert x.0 == y.0;
    CancelFront(x.0, "::#" + a2, "::#" + b2);
    CancelFront("::#", a2, b2);
    NumberSplits(n, a3, m, b3);
    CancelFront(":\"", x.1 + "\"", y.1 + "\"");
    CancelBack(x.1, y.1, "\"");
  }

  lemma NumberSplits(n: nat, a: string, m: nat, b: string)
    requires Decimal.Str(n) + (":" + a) == Decimal.Str(m) + (":" + b)
    ensures n == m && a == b
  {
    assert Decimal.Str(n) + [':'] + a == Decimal.Str(n) + (":" + a);
    assert Decimal.Str(m) + [':'] + b == Decimal.Str(m) + (":" + b);
    Decimal.SplitUnique(Decimal.Str(n), a, Decimal.Str(m), b, ':');
    Decimal.StrInjective(n, m);
  }

  ghost function Keys(path: string, lines: seq<string>): set<string> {
    set p <- Numbered(Raw(lines)) :: Key(path, p.0, p.1)
  }

  // ----- what keys depend on -----

  function Normals(lines: seq<string>): seq<string> {
    if lines == [] then [] else Normals(lines[..|lines| - 1]) + [Normalize(lines[|lines| - 1])]
  }

  /** How many lines read `text` once normalised. */
  function Copies(lines: seq<string>, text: string): nat { multiset(Normals(lines))[text] }

  lemma RepeatCounts(x: Mention, n: nat, y: Mention)
    ensures multiset(Repeat(x, n))[y] == if x == y then n else 0
  {
    if n > 0 {
      RepeatCounts(x, n - 1, y);
      assert Repeat(x, n) == Repeat(x, n - 1) + [x];
    }
  }

  lemma LineCounts(line: string, x: Mention)
    ensures multiset(LineMentions(line, |LEGACY|))[x]
         == if x.0 in LEGACY && x.1 == Normalize(line) then Count(line, x.0) else 0
  {
    var text := Normalize(line);
    var a, b := LEGACY[0], LEGACY[1];
    RepeatCounts((a, text), Count(line, a), x);
    RepeatCounts((b, text), Count(line, b), x);
    assert LineMentions(line, 1) == Repeat((a, text), Count(line, a));
    assert LineMentions(line, 2) == LineMentions(line, 1) + Repeat((b, text), Count(line, b));
  }

  /** The mentions `x` that the lines contribute one by one. */
  function Contributed(lines: seq<string>, x: Mention): nat {
    if lines == [] || x.0 !in LEGACY then 0
    else
      var last := |lines| - 1;
      Contributed(lines[..last], x) + if x.1 == Normalize(lines[last]) then Count(lines[last], x.0) else 0
  }

  lemma {:induction false} RawContributed(lines: seq<string>, x: Mention)
    ensures multiset(Raw(lines))[x] == Contributed(lines, x)
  {
    if lines != [] {
      var last := |lines| - 1;
      RawContributed(lines[..last], x);
      LineCounts(lines[last], x);
      AddedCounts(Raw(lines[..last]), LineMentions(lines[last], |LEGACY|), x);
    }
  }

  lemma AddedCounts(a: seq<Mention>, b: seq<Mention>, x: Mention)
    ensures multiset(a + b)[x] == multiset(a)[x] + multiset(b)[x]
  {
  }

  lemma CopiesNext(lines: seq<string>, text: string)
    requires lines != []
    ensures var last := |lines| - 1;
            Copies(lines, text) == Copies(lines[..last], text) + if text == Normalize(lines[last]) then 1 else 0
  {
  }

  lemma {:induction false} ContributedCounts(lines: seq<string>, x: Mention, k: nat)
    requires x.0 in LEGACY && IsWord(x.0) && k == Count(x.1, x.0)
    ensures Contributed(lines, x) == Copies(lines, x.1) * k
  {
    if lines != [] {
      var last := |lines| - 1;
      ContributedCounts(lines[..last], x, k);
      CopiesNext(lines, x.1);
      NormalizeKeepsCount(lines[last], x.0);
      OneMore(Copies(lines[..last], x.1), k);
    }
  }

  /** A mention occurs as often as its line has copies, times its mentions on that line. */
  lemma RawCounts(lines: seq<string>, x: Mention)
    ensures multiset(Raw(lines))[x] == if x.0 in LEGACY then Copies(lines, x.1) * Count(x.1, x.0) else 0
  {
    RawContributed(lines, x);
    if x.0 in LEGACY {
      LegacyAreWords();
      ContributedCounts(lines, x, Count(x.1, x.0));
    }
  }

  lemma OneMore(n: nat, k: nat)
    ensures (n + 1) * k == n * k + k
  {
  }

  /** A line that mentions a retired spelling. */
  predicate Bears(text: string) { exists token <- LEGACY :: token != "" && Count(text, token) > 0 }

  ghost predicate SameBearing(a: seq<string>, b: seq<string>) {
    forall text :: Bears(text) ==> Copies(a, text) == Copies(b, text)
  }

  lemma KeyMember(path: string, lines: seq<string>, x: Mention, n: nat)
    requires x.0 in LEGACY
    ensures Key(path, x, n) in Keys(path, lines) <==> 1 <= n <= Copies(lines, x.1) * Count(x.1, x.0)
  {
    RawCounts(lines, x);
    NumberedSet(Raw(lines), x, n);
    if Key(path, x, n) in Keys(path, lines) {
      var p :| p in Numbered(Raw(lines)) && Key(path, p.0, p.1) == Key(path, x, n);
      NumberedSet(Raw(lines), p.0, p.1);
      RawCounts(lines, p.0);
      KeyInjective(path, p.0, p.1, x, n);
    }
  }

  lemma Product(n: nat, k: nat)
    requires n * k > 0
    ensures k > 0
  {
  }

  lemma PairKept(a: seq<string>, b: seq<string>, x: Mention, n: nat)
    requires SameBearing(a, b) && (x, n) in Numbered(Raw(a))
    ensures (x, n) in Numbered(Raw(b))
  {
    NumberedSet(Raw(a), x, n);
    NumberedSet(Raw(b), x, n);
    RawCounts(a, x);
    RawCounts(b, x);
    Product(Copies(a, x.1), Count(x.1, x.0));
    assert Bears(x.1);
  }

  lemma SamePairs(a: seq<string>, b: seq<string>)
    requires SameBearing(a, b)
    ensures forall p :: p in Numbered(Raw(a)) <==> p in Numbered(Raw(b))
  {
    forall p | p in Numbered(Raw(a)) || p in Numbered(Raw(b))
      ensures p in Numbered(Raw(a)) && p in Numbered(Raw(b))
    {
      if p in Numbered(Raw(a)) {
        PairKept(a, b, p.0, p.1);
      } else {
        PairKept(b, a, p.0, p.1);
      }
    }
  }

  lemma Larger(n: nat, m: nat, k: nat)
    requires n < m && k > 0
    ensures 1 <= m * k && n * k < m * k
  {
  }

  lemma FewerCopies(path: string, a: seq<string>, b: seq<string>, text: string)
    requires Bears(text) && Copies(a, text) < Copies(b, text)
    ensures Keys(path, a) != Keys(path, b)
  {
    var token :| token in LEGACY && token != "" && Count(text, token) > 0;
    var n := Copies(b, text) * Count(text, token);
    Larger(Copies(a, text), Copies(b, text), Count(text, token));
    KeyMember(path, a, (token, text), n);
    KeyMember(path, b, (token, text), n);
  }

  /** Two versions of a file have the same keys exactly when each line that mentions a
      retired spelling has, up to white space, as many copies in one as in the other. So
      moving or re-indenting lines and adding lines without mentions changes no key. */
  lemma SameKeysIff(path: string, a: seq<string>, b: seq<string>)
    ensures Keys(path, a) == Keys(path, b) <==> SameBearing(a, b)
  {
    if SameBearing(a, b) {
      SamePairs(a, b);
    } else {
      var text :| Bears(text) && Copies(a, text) != Copies(b, text);
      if Copies(a, text) < Copies(b, text) {
        FewerCopies(path, a, b, text);
      } else {
        FewerCopies(path, b, a, text);
      }
    }
  }

  // Three edits that do not matter.

  lemma {:induction false} NormalsSplit(a: seq<string>, b: seq<string>)
    ensures Normals(a + b) == Normals(a) + Normals(b)
  {
    if b == [] {
      assert a + b == a;
    } else {
      assert (a + b)[..|a + b| - 1] == a + b[..|b| - 1];
      NormalsSplit(a, b[..|b| - 1]);
    }
  }

  lemma NormalsAround(a: seq<string>, line: string, b: seq<string>)
    ensures Normals(a + ([line] + b)) == Normals(a) + ([Normalize(line)] + Normals(b))
  {
    NormalsSplit(a, [line] + b);
    NormalsSplit([line], b);
  }

  /** Changing the white space of a line. */
  lemma Reindented(a: seq<string>, line: string, line': string, b: seq<string>)
    requires Words(line) == Words(line')
    ensures SameBearing(a + ([line] + b), a + ([line'] + b))
  {
    SameNormalFormIff(line, line');
    NormalsAround(a, line, b);
    NormalsAround(a, line', b);
  }

  /** Inserting a line that mentions nothing. */
  lemma Inserted(a: seq<string>, line: string, b: seq<string>)
    requires forall token <- LEGACY :: token != "" ==> Count(line, token) == 0
    ensures SameBearing(a + b, a + ([line] + b))
  {
    NormalsSplit(a, b);
    NormalsAround(a, line, b);
    LegacyAreWords();
    forall token | token in LEGACY
      ensures token != "" ==> Count(Normalize(line), token) == 0
    {
      NormalizeKeepsCount(line, token);
    }
    assert !Bears(Normalize(line));
  }

  /** Swapping two stretches of lines. */
  lemma Moved(a: seq<string>, b: seq<string>, c: seq<string>, d: seq<string>)
    ensures SameBearing(a + (b + (c + d)), a + (c + (b + d)))
  {
    NormalsSplit(a, b + (c + d));
    NormalsSplit(b, c + d);
    NormalsSplit(c, d);
    NormalsSplit(a, c + (b + d));
    NormalsSplit(c, b + d);
    NormalsSplit(b, d);
  }

  /** The keys of a file are pairwise distinct. */
  lemma KeysDistinct(path: string, lines: seq<string>, i: nat, j: nat)
    requires i < j < |Raw(lines)|
    ensures |Numbered(Raw(lines))| == |Raw(lines)|
    ensures var p, q := Numbered(Raw(lines))[i], Numbered(Raw(lines))[j]; Key(path, p.0, p.1) != Key(path, q.0, q.1)
  {
    NumberedDistinct(Raw(lines), i, j);
    var p, q := Numbered(Raw(lines))[i], Numbered(Raw(lines))[j];
    NumberedSet(Raw(lines), p.0, p.1);
    NumberedSet(Raw(lines), q.0, q.1);
    RawCounts(lines, p.0);
    RawCounts(lines, q.0);
    KeyInjective(path, p.0, p.1, q.0, q.1);
  }
}
