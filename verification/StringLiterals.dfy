/** The JavaScript string-literal scanners of the token audit.

    Quoted literals, template literals with interpolations, and the extraction of all
    template literals of a source text. Each index loop is tied to a scan of the remaining
    text, and what the scans close is exactly what a grammar of tokens writes. */
module StringLiterals {
  import opened Basics

  /** Raw text, characters consumed, and whether the closing delimiter was found. A
      trailing backslash counts as two characters, so `used` may exceed what is there
      by one. */
  datatype Scan = Scan(text: string, used: nat, closed: bool)

  /** One turn of a scanner: the text it copies, how far it moves, and the new nesting
      depth of `${` ... `}`, or the closing delimiter. */
  datatype Move = Copy(part: string, n: nat, depth: nat) | Stop

  predicate IsQuote(c: char) { c == '"' || c == '\'' || c == '`' }

  function Ahead(part: string, n: nat, r: Scan): Scan { Scan(part + r.text, n + r.used, r.closed) }

  /** JavaScript's `t.slice(0, 2)` and `t.slice(n)`. */
  function Two(t: string): string { if |t| >= 2 then t[..2] else t }

  function Drop(t: string, n: nat): string { if n <= |t| then t[n..] else "" }

  function QuotedMove(t: string, quote: char): (m: Move)
    requires t != []
    ensures m.Copy? ==> 1 <= m.n <= |t| + 1
  {
    if t[0] == '\\' then Copy(Two(t), 2, 0)
    else if t[0] == quote then Stop
    else Copy([t[0]], 1, 0)
  }

  function BacktickMove(t: string, depth: nat): (m: Move)
    requires t != []
    ensures m.Copy? ==> 1 <= m.n <= |t| + 1
  {
    if t[0] == '\\' then Copy(Two(t), 2, depth)
    else if t[0] == '$' && |t| > 1 && t[1] == '{' then Copy("${", 2, depth + 1)
    else if t[0] == '}' && depth > 0 then Copy("}", 1, depth - 1)
    else if t[0] == '`' && depth == 0 then Stop
    else Copy([t[0]], 1, depth)
  }

  function ScanQuoted(t: string, quote: char): (r: Scan)
    decreases |t|
  {
    if t == [] then Scan("", 0, false)
    else
      match QuotedMove(t, quote)
      case Stop => Scan("", 1, true)
      case Copy(part, n, _) => Ahead(part, n, ScanQuoted(Drop(t, n), quote))
  }

  function ScanBacktick(t: string, depth: nat): (r: Scan)
    decreases |t|
  {
    if t == [] then Scan("", 0, false)
    else
      match BacktickMove(t, depth)
      case Stop => Scan("", 1, true)
      case Copy(part, n, depth') => Ahead(part, n, ScanBacktick(Drop(t, n), depth'))
  }

  /** A closed literal ends on its delimiter; an open one runs to the end, or one past it
      after a trailing backslash. */
  ghost predicate Bounded(t: string, r: Scan, quote: char) {
    if r.closed then 1 <= r.used <= |t| && t[r.used - 1] == quote else |t| <= r.used <= |t| + 1
  }

  lemma BoundedAhead(t: string, part: string, n: nat, r: Scan, quote: char)
    requires 1 <= n <= |t| + 1 && Bounded(Drop(t, n), r, quote) && (n > |t| ==> r == Scan("", 0, false))
    ensures Bounded(t, Ahead(part, n, r), quote)
  {
  }

  lemma {:induction false} QuotedBounds(t: string, quote: char)
    ensures Bounded(t, ScanQuoted(t, quote), quote)
    decreases |t|
  {
    if t != [] && QuotedMove(t, quote).Copy? {
      var move := QuotedMove(t, quote);
      QuotedBounds(Drop(t, move.n), quote);
      BoundedAhead(t, move.part, move.n, ScanQuoted(Drop(t, move.n), quote), quote);
    }
  }

  lemma {:induction false} BacktickBounds(t: string, depth: nat)
    ensures Bounded(t, ScanBacktick(t, depth), '`')
    decreases |t|
  {
    if t != [] && BacktickMove(t, depth).Copy? {
      var move := BacktickMove(t, depth);
      BacktickBounds(Drop(t, move.n), move.depth);
      BoundedAhead(t, move.part, move.n, ScanBacktick(Drop(t, move.n), move.depth), '`');
    }
  }

  // ----- the source's index loops -----

  lemma AheadTwice(a: string, n: nat, b: string, m: nat, r: Scan)
    ensures Ahead(a, n, Ahead(b, m, r)) == Ahead(a + b, n + m, r)
  {
    assert a + (b + r.text) == (a + b) + r.text;
  }

  lemma DropTwice(s: string, i: nat, n: nat)
    requires i <= |s|
    ensures Drop(Drop(s, i), n) == Drop(s, i + n)
  {
  }

  /** A move in front of what scanning on gives. */
  function Before(move: Move, more: Scan): Scan {
    match move
    case Stop => Scan("", 1, true)
    case Copy(part, n, _) => Ahead(part, n, more)
  }

  lemma AheadMove(text: string, k: nat, move: Move, more: Scan)
    ensures Ahead(text, k, Before(move, more)) ==
            match move
            case Stop => Scan(text, k + 1, true)
            case Copy(part, n, _) => Ahead(text + part, k + n, more)
  {
    if move.Copy? {
      AheadTwice(text, k, move.part, move.n, more);
    } else {
      assert text + "" == text;
    }
  }

  /** The loop has copied `text` and stands at `at`; scanning on would give `whole`. */
  ghost predicate QuotedAt(source: string, start: nat, at: nat, text: string, quote: char, whole: Scan) {
    start < at && Ahead(text, at - start - 1, ScanQuoted(Drop(source, at), quote)) == whole
  }

  /** The move at an index of the source. */
  function QuotedMoveAt(source: string, at: nat, quote: char): (m: Move)
    requires at < |source|
    ensures m == QuotedMove(Drop(source, at), quote)
    ensures m.Copy? ==> 1 <= m.n <= |source| - at + 1
  {
    if source[at] == '\\' then Copy(Two(Drop(source, at)), 2, 0)
    else if source[at] == quote then Stop
    else Copy([source[at]], 1, 0)
  }

  lemma QuotedTurn(source: string, start: nat, at: nat, text: string, quote: char, whole: Scan, move: Move)
    requires QuotedAt(source, start, at, text, quote, whole) && at < |source|
    requires move == QuotedMove(Drop(source, at), quote)
    ensures match move
            case Stop => whole == Scan(text, at - start, true)
            case Copy(part, n, _) => QuotedAt(source, start, at + n, text + part, quote, whole)
  {
    var more := if move.Copy? then ScanQuoted(Drop(source, at + move.n), quote) else Scan("", 0, false);
    assert ScanQuoted(Drop(source, at), quote) == Before(move, more) by {
      if move.Copy? {
        DropTwice(source, at, move.n);
      }
    }
    AheadMove(text, at - start - 1, move, more);
  }

  /** The loop body: one turn, or the closing quote. */
  method CopyQuotedOne(source: string, start: nat, at: nat, text: string, quote: char, ghost whole: Scan)
    returns (text': string, at': nat, closed: bool)
    requires QuotedAt(source, start, at, text, quote, whole) && at < |source|
    ensures at < at' <= |source| + 1
    ensures closed ==> whole == Scan(text', at' - start - 1, true)
    ensures !closed ==> QuotedAt(source, start, at', text', quote, whole)
  {
    var move := QuotedMoveAt(source, at, quote);
    QuotedTurn(source, start, at, text, quote, whole, move);
    match move
    case Stop => return text, at + 1, true;
    case Copy(part, n, _) => return text + part, at + n, false;
  }

  method CopyQuoted(source: string, start: nat, quote: char, ghost whole: Scan) returns (text: string, end: nat)
    requires start < |source| && QuotedAt(source, start, start + 1, "", quote, whole)
    ensures text == whole.text && end == start + 1 + whole.used
    ensures start + 1 <= end <= |source| + 1
  {
    end, text := start + 1, "";
    while end < |source|
      invariant start < end <= |source| + 1 && QuotedAt(source, start, end, text, quote, whole)
    {
      var closed;
      text, end, closed := CopyQuotedOne(source, start, end, text, quote, whole);
      if closed {
        return;
      }
    }
    assert text + "" == text;
  }

  method ParseQuotedString(source: string, start: nat, quote: char) returns (text: string, end: nat)
    requires start < |source|
    ensures var r := ScanQuoted(source[start + 1..], quote); text == r.text && end == start + 1 + r.used
    ensures start + 1 <= end <= |source| + 1
  {
    QuotedStart(source, start, quote);
    text, end := CopyQuoted(source, start, quote, ScanQuoted(source[start + 1..], quote));
  }

  lemma QuotedStart(source: string, start: nat, quote: char)
    requires start < |source|
    ensures QuotedAt(source, start, start + 1, "", quote, ScanQuoted(source[start + 1..], quote))
  {
    var whole := ScanQuoted(source[start + 1..], quote);
    assert "" + whole.text == whole.text;
  }

  ghost predicate BacktickAt(source: string, start: nat, at: nat, text: string, depth: nat, whole: Scan) {
    start < at && Ahead(text, at - start - 1, ScanBacktick(Drop(source, at), depth)) == whole
  }

  /** The move at an index of the source. */
  function BacktickMoveAt(source: string, at: nat, depth: nat): (m: Move)
    requires at < |source|
    ensures m == BacktickMove(Drop(source, at), depth)
    ensures m.Copy? ==> 1 <= m.n <= |source| - at + 1
  {
    if source[at] == '\\' then Copy(Two(Drop(source, at)), 2, depth)
    else if source[at] == '$' && at + 1 < |source| && source[at + 1] == '{' then Copy("${", 2, depth + 1)
    else if source[at] == '}' && depth > 0 then Copy("}", 1, depth - 1)
    else if source[at] == '`' && depth == 0 then Stop
    else Copy([source[at]], 1, depth)
  }

  lemma BacktickTurn(source: string, start: nat, at: nat, text: string, depth: nat, whole: Scan, move: Move)
    requires BacktickAt(source, start, at, text, depth, whole) && at < |source|
    requires move == BacktickMove(Drop(source, at), depth)
    ensures match move
            case Stop => whole == Scan(text, at - start, true)
            case Copy(part, n, depth') => BacktickAt(source, start, at + n, text + part, depth', whole)
  {
    var more := if move.Copy? then ScanBacktick(Drop(source, at + move.n), move.depth) else Scan("", 0, false);
    assert ScanBacktick(Drop(source, at), depth) == Before(move, more) by {
      if move.Copy? {
        DropTwice(source, at, move.n);
      }
    }
    AheadMove(text, at - start - 1, move, more);
  }

  lemma BacktickStart(source: string, start: nat)
    requires start < |source|
    ensures BacktickAt(source, start, start + 1, "", 0, ScanBacktick(source[start + 1..], 0))
  {
    var whole := ScanBacktick(source[start + 1..], 0);
    assert "" + whole.text == whole.text;
  }

  /** The loop body: one turn, or the closing backtick. */
  method CopyOne(source: string, start: nat, at: nat, text: string, depth: nat, ghost whole: Scan)
    returns (text': string, at': nat, depth': nat, closed: bool)
    requires BacktickAt(source, start, at, text, depth, whole) && at < |source|
    ensures at < at' <= |source| + 1
    ensures closed ==> whole == Scan(text', at' - start - 1, true)
    ensures !closed ==> BacktickAt(source, start, at', text', depth', whole)
  {
    var move := BacktickMoveAt(source, at, depth);
    BacktickTurn(source, start, at, text, depth, whole, move);
    match move
    case Stop => return text, at + 1, depth, true;
    case Copy(part, n, inner) => return text + part, at + n, inner, false;
  }

  method CopyBacktick(source: string, start: nat, ghost whole: Scan) returns (text: string, end: nat, closed: bool)
    requires start < |source| && BacktickAt(source, start, start + 1, "", 0, whole)
    ensures text == whole.text && end == start + 1 + whole.used && closed == whole.closed
    ensures start + 1 <= end <= |source| + 1
  {
    end, text, closed := start + 1, "", false;
    var braceDepth: nat := 0;
    while end < |source|
      invariant start < end <= |source| + 1 && BacktickAt(source, start, end, text, braceDepth, whole)
      invariant !closed
    {
      text, end, braceDepth, closed := CopyOne(source, start, end, text, braceDepth, whole);
      if closed {
        return;
      }
    }
    assert text + "" == text;
  }

  method ParseBacktickString(source: string, start: nat) returns (text: string, end: nat)
    requires start < |source|
    ensures var r := ScanBacktick(source[start + 1..], 0); text == r.text && end == start + 1 + r.used
    ensures start + 1 <= end <= |source| + 1
  {
    var closed;
    BacktickStart(source, start);
    text, end, closed := CopyBacktick(source, start, ScanBacktick(source[start + 1..], 0));
  }

  // ----- extracting template literals -----

  /** The texts of the successive closed template literals; an unclosed one ends it. */
  function Extracted(t: string): seq<string>
    decreases |t|
  {
    if t == [] then []
    else if t[0] != '`' then Extracted(t[1..])
    else
      var r := ScanBacktick(t[1..], 0);
      Continued(r, Extracted(Drop(t, 1 + r.used)))
  }

  /** A literal at the front of a text: its text and the rest, or the end. */
  function Continued(r: Scan, rest: seq<string>): seq<string> {
    if r.closed then [r.text] + rest else []
  }

  /** One step of the extraction at an index of the source. */
  lemma ExtractedPlain(source: string, i: nat)
    requires i < |source| && source[i] != '`'
    ensures Extracted(Drop(source, i)) == Extracted(Drop(source, i + 1))
  {
    DropTwice(source, i, 1);
  }

  lemma ExtractedTemplate(source: string, i: nat, r: Scan)
    requires i < |source| && source[i] == '`' && ScanBacktick(source[i + 1..], 0) == r
    ensures Extracted(Drop(source, i)) == Continued(r, Extracted(Drop(source, i + 1 + r.used)))
  {
    assert Drop(source, i)[1..] == source[i + 1..];
    DropTwice(source, i, 1 + r.used);
  }

  method ScanTemplate(source: string, start: nat) returns (text: string, end: nat, closed: bool)
    requires start < |source|
    ensures start + 1 <= end && (closed ==> end <= |source|)
    ensures ScanBacktick(source[start + 1..], 0) == Scan(text, end - start - 1, closed)
  {
    BacktickStart(source, start);
    BacktickBounds(source[start + 1..], 0);
    text, end, closed := CopyBacktick(source, start, ScanBacktick(source[start + 1..], 0));
  }

  /** One step: a literal found, the next index, or the end at an unclosed literal. */
  method ExtractOne(source: string, i: nat) returns (found: Option<string>, next: nat, unclosed: bool)
    requires i < |source|
    ensures unclosed ==> Extracted(Drop(source, i)) == []
    ensures !unclosed ==> i < next <= |source|
    ensures !unclosed && found.None? ==> Extracted(Drop(source, i)) == Extracted(Drop(source, next))
    ensures !unclosed && found.Some? ==> Extracted(Drop(source, i)) == [found.value] + Extracted(Drop(source, next))
  {
    if source[i] != '`' {
      ExtractedPlain(source, i);
      return None, i + 1, false;
    }
    var text, j, closed := ScanTemplate(source, i);
    ExtractedTemplate(source, i, Scan(text, j - i - 1, closed));
    return Some(text), j, !closed;
  }

  method ExtractBacktickStrings(source: string) returns (out: seq<string>)
    ensures out == Extracted(source)
  {
    out := [];
    var i: nat := 0;
    assert Drop(source, 0) == source;
    while i < |source|
      invariant i <= |source| && out + Extracted(Drop(source, i)) == Extracted(source)
    {
      var found, next, unclosed := ExtractOne(source, i);
      if unclosed {
        return;
      }
      if found.Some? {
        AppendOne(out, found.value, Extracted(Drop(source, next)));
        out := out + [found.value];
      }
      i := next;
    }
  }

  lemma AppendOne(out: seq<string>, text: string, rest: seq<string>)
    ensures out + ([text] + rest) == (out + [text]) + rest
  {
  }

  // ----- what the scanners recognise -----

  /** The pieces of a literal's body: a plain character, an escaped one, and the brackets
      of an interpolation. */
  datatype Token = Plain(c: char) | Escaped(c: char) | Open | Close

  function Spelling(token: Token): string {
    match token
    case Plain(c) => [c]
    case Escaped(c) => ['\\', c]
    case Open => "${"
    case Close => "}"
  }

  function Put(tokens: seq<Token>, rest: string): string {
    if tokens == [] then rest else Spelling(tokens[0]) + Put(tokens[1..], rest)
  }

  function Text(tokens: seq<Token>): string {
    if tokens == [] then "" else Spelling(tokens[0]) + Text(tokens[1..])
  }

  /** A quoted body has no bare backslash and no bare quote. */
  predicate QuotedBody(tokens: seq<Token>, quote: char) {
    forall token <- tokens :: token.Escaped? || (token.Plain? && token.c != '\\' && token.c != quote)
  }

  /** The nesting depth after a token. */
  function After(token: Token, depth: nat): nat {
    match token
    case Open => depth + 1
    case Close => if depth > 0 then depth - 1 else 0
    case _ => depth
  }

  /** May `token` stand at this depth, in front of `rest`? */
  predicate Fits(token: Token, rest: seq<Token>, depth: nat) {
    match token
    case Plain(c) =>
      && c != '\\'
      && !(c == '$' && rest != [] && rest[0] == Plain('{'))
      && (if depth == 0 then c != '`' else c != '}')
    case Close => depth > 0
    case _ => true
  }

  /** A template body: brackets balance, a bare backtick stands only inside them, a bare
      `}` only outside them, and a `$` before a `{` is an opening bracket. */
  predicate TemplateBody(tokens: seq<Token>, depth: nat) {
    if tokens == [] then depth == 0
    else Fits(tokens[0], tokens[1..], depth) && TemplateBody(tokens[1..], After(tokens[0], depth))
  }

  lemma DropPut(part: string, tail: string)
    ensures Drop(part + tail, |part|) == tail
  {
  }

  lemma {:induction false} QuotedComplete(tokens: seq<Token>, quote: char, rest: string)
    requires QuotedBody(tokens, quote) && quote != '\\'
    ensures ScanQuoted(Put(tokens, [quote] + rest), quote) == Scan(Text(tokens), |Text(tokens)| + 1, true)
  {
    if tokens != [] {
      QuotedComplete(tokens[1..], quote, rest);
      DropPut(Spelling(tokens[0]), Put(tokens[1..], [quote] + rest));
      assert tokens[0] in tokens;
    }
  }

  /** Of the tokens, only a plain `{` is spelled with a `{` in front. */
  lemma FirstBrace(tokens: seq<Token>, rest: string)
    requires rest == [] || rest[0] != '{'
    ensures var t := Put(tokens, rest); t != [] && t[0] == '{' ==> tokens != [] && tokens[0] == Plain('{')
  {
  }

  lemma TokenMove(token: Token, more: seq<Token>, depth: nat, tail: string)
    requires Fits(token, more, depth)
    requires tail != [] && tail[0] == '{' ==> more != [] && more[0] == Plain('{')
    ensures BacktickMove(Spelling(token) + tail, depth) == Copy(Spelling(token), |Spelling(token)|, After(token, depth))
  {
  }

  /** Every template body followed by a backtick is read back, and not beyond. */
  lemma {:induction false} TemplateComplete(tokens: seq<Token>, depth: nat, rest: string)
    requires TemplateBody(tokens, depth)
    ensures ScanBacktick(Put(tokens, "`" + rest), depth) == Scan(Text(tokens), |Text(tokens)| + 1, true)
  {
    if tokens != [] {
      var tail := Put(tokens[1..], "`" + rest);
      DropPut(Spelling(tokens[0]), tail);
      FirstBrace(tokens[1..], "`" + rest);
      TokenMove(tokens[0], tokens[1..], depth, tail);
      TemplateComplete(tokens[1..], After(tokens[0], depth), rest);
    }
  }

  // The converse: whatever a scanner closes is such a body.

  /** `r` is the reading of `tokens`, with `c` behind them, in front of `t`. */
  ghost predicate ReadFrom(t: string, tokens: seq<Token>, c: char, r: Scan) {
    t == Put(tokens, [c] + Drop(t, r.used)) && Text(tokens) == r.text
  }

  lemma PutCons(token: Token, more: seq<Token>, rest: string)
    ensures Put([token] + more, rest) == Spelling(token) + Put(more, rest)
    ensures Text([token] + more) == Spelling(token) + Text(more)
  {
    assert ([token] + more)[1..] == more;
  }

  lemma ReadOneMore(t: string, token: Token, more: seq<Token>, n: nat, c: char, r: Scan)
    requires n <= |t| && n == |Spelling(token)| && t == Spelling(token) + Drop(t, n)
    requires ReadFrom(Drop(t, n), more, c, r)
    ensures ReadFrom(t, [token] + more, c, Ahead(Spelling(token), n, r))
  {
    DropTwice(t, n, r.used);
    PutCons(token, more, [c] + Drop(t, n + r.used));
  }

  lemma QuotedToken(t: string, quote: char) returns (token: Token)
    requires |t| >= 2 && QuotedMove(t, quote).Copy?
    ensures QuotedMove(t, quote) == Copy(Spelling(token), |Spelling(token)|, 0)
    ensures t == Spelling(token) + Drop(t, |Spelling(token)|)
    ensures token.Escaped? || (token.Plain? && token.c != '\\' && token.c != quote)
  {
    token := if t[0] == '\\' then Escaped(t[1]) else Plain(t[0]);
  }

  /** A scan closes only after at least one character. */
  lemma ClosedNeeds(t: string, n: nat, quote: char, r: Scan)
    requires 1 <= n && Bounded(Drop(t, n), r, quote) && r.closed
    ensures |t| >= 2
  {
  }

  lemma {:induction false} QuotedSound(t: string, quote: char) returns (tokens: seq<Token>)
    requires ScanQuoted(t, quote).closed && quote != '\\'
    ensures QuotedBody(tokens, quote) && ReadFrom(t, tokens, quote, ScanQuoted(t, quote))
    decreases |t|
  {
    var move := QuotedMove(t, quote);
    if move == Stop {
      tokens := [];
    } else {
      var rest := Drop(t, move.n);
      var more := QuotedSound(rest, quote);
      QuotedBounds(rest, quote);
      ClosedNeeds(t, move.n, quote, ScanQuoted(rest, quote));
      var token := QuotedToken(t, quote);
      ReadOneMore(t, token, more, move.n, quote, ScanQuoted(rest, quote));
      tokens := [token] + more;
    }
  }

  function TokenOf(t: string, depth: nat): Token
    requires |t| >= 2
  {
    if t[0] == '\\' then Escaped(t[1])
    else if t[0] == '$' && t[1] == '{' then Open
    else if t[0] == '}' && depth > 0 then Close
    else Plain(t[0])
  }

  lemma MoveToken(t: string, depth: nat, token: Token)
    requires |t| >= 2 && BacktickMove(t, depth).Copy? && token == TokenOf(t, depth)
    ensures BacktickMove(t, depth) == Copy(Spelling(token), |Spelling(token)|, After(token, depth))
    ensures t == Spelling(token) + Drop(t, |Spelling(token)|)
  {
  }

  lemma TokenFits(t: string, depth: nat, more: seq<Token>, rest: string)
    requires |t| >= 2 && BacktickMove(t, depth).Copy?
    requires Drop(t, |Spelling(TokenOf(t, depth))|) == Put(more, rest)
    ensures Fits(TokenOf(t, depth), more, depth)
  {
    if more != [] && more[0] == Plain('{') {
      assert Put(more, rest)[0] == '{';
    }
  }

  lemma BodyCons(token: Token, more: seq<Token>, depth: nat)
    requires Fits(token, more, depth) && TemplateBody(more, After(token, depth))
    ensures TemplateBody([token] + more, depth)
  {
    assert ([token] + more)[1..] == more;
  }

  lemma {:induction false} TemplateSound(t: string, depth: nat) returns (tokens: seq<Token>)
    requires ScanBacktick(t, depth).closed
    ensures TemplateBody(tokens, depth) && ReadFrom(t, tokens, '`', ScanBacktick(t, depth))
    decreases |t|
  {
    var move := BacktickMove(t, depth);
    if move == Stop {
      tokens := [];
    } else {
      var rest := Drop(t, move.n);
      var r := ScanBacktick(rest, move.depth);
      var more := TemplateSound(rest, move.depth);
      BacktickBounds(rest, move.depth);
      ClosedNeeds(t, move.n, '`', r);
      var token := TokenOf(t, depth);
      MoveToken(t, depth, token);
      TokenFits(t, depth, more, ['`'] + Drop(rest, r.used));
      ReadOneMore(t, token, more, move.n, '`', r);
      BodyCons(token, more, depth);
      tokens := [token] + more;
    }
  }
}
