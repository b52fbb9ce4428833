/** String expressions of the token audit: literals joined by `+`, read as one text. */
module StringExpressions {
  import opened Basics
  import opened JsText
  import opened StringLiterals

  /** An unescaped literal and how far it reaches beyond its first quote. */
  datatype Literal = Literal(text: string, used: nat)

  /** What the expression parser is built from: white space and a reader for the literal at
      an index. The parser is stated for any such parts; `JavaScript` gives the source's. */
  datatype Parts = Parts(space: char -> bool, literal: (string, nat) -> Literal)

  function LiteralAt(source: string, i: nat, unescape: string -> string): Literal {
    var r := ScanLiteral(Drop(source, i));
    Literal(unescape(r.text), r.used)
  }

  function ScanLiteral(t: string): Scan {
    if t == [] then Scan("", 0, false)
    else if t[0] == '`' then ScanBacktick(t[1..], 0)
    else ScanQuoted(t[1..], t[0])
  }

  function JavaScript(unescape: string -> string): Parts {
    Parts(IsSpace, (source: string, i: nat) => LiteralAt(source, i, unescape))
  }

  /** The end of the run of white space (or of white space and `+` signs) from `i` on. */
  function BlankEnd(s: string, i: nat, space: char -> bool, plus: bool): (e: nat)
    ensures i <= e && (e <= |s| || e == i)
    decreases |s| - i
  {
    if i >= |s| || !(space(s[i]) || (plus && s[i] == '+')) then i else BlankEnd(s, i + 1, space, plus)
  }

  predicate LiteralNext(s: string, i: nat, space: char -> bool) {
    var m := BlankEnd(s, i, space, false);
    m < |s| && IsQuote(s[m])
  }

  /** After a literal: does a `+` and another literal follow? */
  predicate Continues(s: string, i: nat, space: char -> bool) {
    var k := BlankEnd(s, i, space, false);
    k < |s| && s[k] == '+' && LiteralNext(s, k + 1, space)
  }

  /** One turn of the loop: skip blanks, read a literal if there is one, and look whether
      another follows. `at` is where the loop stands afterwards. */
  datatype Turn = Last(text: string, at: nat) | More(text: string, at: nat)

  function AfterLiteral(s: string, i: nat, text: string, space: char -> bool): Turn {
    if Continues(s, i, space) then More(text, BlankEnd(s, i, space, false) + 1) else Last(text, i)
  }

  function TurnAt(s: string, i: nat, p: Parts): (turn: Turn)
    ensures i <= turn.at
    ensures turn.More? ==> i < turn.at <= |s|
  {
    var w := BlankEnd(s, i, p.space, true);
    if w >= |s| || !IsQuote(s[w]) then Last("", w)
    else var r := p.literal(s, w); AfterLiteral(s, w + 1 + r.used, r.text, p.space)
  }

  datatype Parsed = Parsed(text: string, end: nat)

  /** The whole expression from `i` on, given what each turn does. */
  function Expression(s: string, i: nat, turnAt: (string, nat) -> Turn): Parsed
    decreases |s| - i
  {
    if i >= |s| then Parsed("", i)
    else
      var turn := turnAt(s, i);
      if turn.More? && i < turn.at then
        var more := Expression(s, turn.at, turnAt);
        Parsed(turn.text + more.text, more.end)
      else Parsed(turn.text, turn.at)
  }

  // ----- the source's loops -----

  method SkipBlank(source: string, start: nat, space: char -> bool, plus: bool) returns (i: nat)
    ensures i == BlankEnd(source, start, space, plus)
  {
    i := start;
    while i < |source| && (space(source[i]) || (plus && source[i] == '+'))
      invariant BlankEnd(source, i, space, plus) == BlankEnd(source, start, space, plus)
    {
      i := i + 1;
    }
  }

  /** The lookahead after a literal: the turn it ends. */
  method LookAhead(source: string, i: nat, text: string, space: char -> bool) returns (turn: Turn)
    ensures turn == AfterLiteral(source, i, text, space)
  {
    var look := SkipBlank(source, i, space, false);
    if look < |source| && source[look] == '+' {
      var look2 := SkipBlank(source, look + 1, space, false);
      if look2 < |source| && IsQuote(source[look2]) {
        return More(text, look + 1);
      }
    }
    return Last(text, i);
  }

  method ReadLiteral(source: string, i: nat, unescape: string -> string, ghost p: Parts)
    returns (text: string, end: nat)
    requires i < |source| && IsQuote(source[i]) && Reads(p, unescape)
    ensures i < end && p.literal(source, i) == Literal(text, end - i - 1)
  {
    assert p.literal(source, i) == LiteralAt(source, i, unescape);
    assert Drop(source, i)[1..] == source[i + 1..];
    var raw;
    if source[i] == '`' {
      raw, end := ParseBacktickString(source, i);
    } else {
      raw, end := ParseQuotedString(source, i, source[i]);
    }
    text := unescape(raw);
  }

  /** `p` reads literals as the source does. */
  ghost predicate Reads(p: Parts, unescape: string -> string) {
    forall s, i: nat {:trigger LiteralAt(s, i, unescape)} :: p.literal(s, i) == LiteralAt(s, i, unescape)
  }

  method OneTurn(source: string, i: nat, unescape: string -> string, p: Parts) returns (turn: Turn)
    requires Reads(p, unescape)
    ensures turn == TurnAt(source, i, p)
  {
    var at := SkipBlank(source, i, p.space, true);
    if at >= |source| || !IsQuote(source[at]) {
      return Last("", at);
    }
    var text, end := ReadLiteral(source, at, unescape, p);
    turn := LookAhead(source, end, text, p.space);
  }

  /** `turnAt` is the turn made of `p`. */
  ghost predicate Turns(turnAt: (string, nat) -> Turn, p: Parts) {
    forall s, i: nat {:trigger TurnAt(s, i, p)} :: turnAt(s, i) == TurnAt(s, i, p)
  }

  method NextTurn(source: string, i: nat, unescape: string -> string, p: Parts, ghost turnAt: (string, nat) -> Turn)
    returns (turn: Turn)
    requires Reads(p, unescape) && Turns(turnAt, p)
    ensures turn == turnAt(source, i) && i <= turn.at && (turn.More? ==> i < turn.at)
  {
    turn := OneTurn(source, i, unescape, p);
  }

  method ExpressionLoop(source: string, start: nat, unescape: string -> string, p: Parts,
                        ghost turnAt: (string, nat) -> Turn)
    returns (combined: string, i: nat)
    requires Reads(p, unescape) && Turns(turnAt, p)
    ensures Expression(source, start, turnAt) == Parsed(combined, i)
  {
    i, combined := start, "";
    ghost var whole := Expression(source, start, turnAt);
    assert "" + whole.text == whole.text;
    while i < |source|
      invariant var e := Expression(source, i, turnAt); whole == Parsed(combined + e.text, e.end)
    {
      var turn := NextTurn(source, i, unescape, p, turnAt);
      ghost var e := Expression(source, turn.at, turnAt);
      assert combined + (turn.text + e.text) == (combined + turn.text) + e.text;
      combined, i := combined + turn.text, turn.at;
      if turn.Last? {
        return;
      }
    }
    assert combined + "" == combined;
  }

  /** What a JavaScript string expression at `start` stands for. */
  ghost function Meaning(source: string, start: nat, unescape: string -> string): Parsed {
    Expression(source, start, (s: string, i: nat) => TurnAt(s, i, JavaScript(unescape)))
  }

  /** The texts of a run of joined literals, unescaped and concatenated, with the index
      after the last one; None when there is no text. */
  method ParseStringExpression(source: string, start: nat, unescape: string -> string)
    returns (r: Option<(string, nat)>)
    ensures var e := Meaning(source, start, unescape);
            r == if e.text == "" then None else Some((e.text, e.end))
  {
    var p := JavaScript(unescape);
    var combined, end := ExpressionLoop(source, start, unescape, p, (s: string, i: nat) => TurnAt(s, i, p));
    if combined == "" {
      return None;
    }
    return Some((combined, end));
  }

  // ----- what is written is what is read -----

  datatype Form = Quoted(quote: char, body: seq<Token>) | Template(body: seq<Token>)

  predicate WellFormed(form: Form) {
    match form
    case Quoted(quote, body) => (quote == '"' || quote == '\'') && QuotedBody(body, quote)
    case Template(body) => TemplateBody(body, 0)
  }

  function Delimiter(form: Form): char { if form.Template? then '`' else form.quote }

  function PutLiteral(form: Form, rest: string): string {
    [Delimiter(form)] + Put(form.body, [Delimiter(form)] + rest)
  }

  /** `+` and another literal, with white space on both sides of the sign. */
  datatype Join = Join(before: string, after: string, form: Form)

  function PutJoins(joins: seq<Join>, rest: string): string {
    if joins == [] then rest
    else joins[0].before + (['+'] + (joins[0].after + PutLiteral(joins[0].form, PutJoins(joins[1..], rest))))
  }

  predicate AllBlank(t: string, space: char -> bool, plus: bool) {
    forall c <- t :: space(c) || (plus && c == '+')
  }

  predicate IsJoin(join: Join, space: char -> bool) {
    AllBlank(join.before, space, false) && AllBlank(join.after, space, false) && WellFormed(join.form)
  }

  predicate WellJoined(joins: seq<Join>, space: char -> bool) {
    joins == [] || (IsJoin(joins[0], space) && WellJoined(joins[1..], space))
  }

  ghost predicate At(s: string, i: nat, t: string) { i <= |s| && s[i..] == t }

  lemma Past(s: string, i: nat, part: string, rest: string)
    requires At(s, i, part + rest)
    ensures At(s, i + |part|, rest)
    ensures part != "" ==> s[i] == part[0]
    ensures part == "" && rest != "" ==> s[i] == rest[0]
  {
    assert s[i..][|part|..] == rest;
  }

  lemma {:induction false} BlankRun(s: string, i: nat, run: string, rest: string, space: char -> bool, plus: bool)
    requires At(s, i, run + rest) && AllBlank(run, space, plus)
    requires rest == "" || !(space(rest[0]) || (plus && rest[0] == '+'))
    ensures BlankEnd(s, i, space, plus) == i + |run|
    decreases |run|
  {
    Past(s, i, run, rest);
    if run != "" {
      assert run + rest == [run[0]] + (run[1..] + rest);
      assert run[0] in run;
      Past(s, i, [run[0]], run[1..] + rest);
      BlankRun(s, i + 1, run[1..], rest, space, plus);
    }
  }

  lemma {:induction false} PutEnd(tokens: seq<Token>, rest: string)
    ensures Put(tokens, rest) == Text(tokens) + rest
  {
    if tokens != [] {
      PutEnd(tokens[1..], rest);
    }
  }

  lemma LiteralEnd(s: string, i: nat, form: Form, rest: string)
    requires At(s, i, PutLiteral(form, rest))
    ensures At(s, i + 2 + |Text(form.body)|, rest) && i < |s| && s[i] == Delimiter(form)
  {
    var d := [Delimiter(form)];
    Past(s, i, d, Put(form.body, d + rest));
    PutEnd(form.body, d + rest);
    Past(s, i + 1, Text(form.body), d + rest);
    Past(s, i + 1 + |Text(form.body)|, d, rest);
  }

  lemma LiteralRead(s: string, i: nat, form: Form, rest: string, unescape: string -> string, p: Parts)
    requires At(s, i, PutLiteral(form, rest)) && WellFormed(form) && Reads(p, unescape)
    ensures p.literal(s, i) == Literal(unescape(Text(form.body)), 1 + |Text(form.body)|)
  {
    var d := Delimiter(form);
    assert p.literal(s, i) == LiteralAt(s, i, unescape);
    assert Drop(s, i) == s[i..] == PutLiteral(form, rest);
    assert PutLiteral(form, rest)[1..] == Put(form.body, [d] + rest);
    if form.Template? {
      TemplateComplete(form.body, 0, rest);
    } else {
      QuotedComplete(form.body, d, rest);
    }
  }

  /** No quote or `+` is white space. */
  predicate Spaces(space: char -> bool) { !space('+') && !space('"') && !space('\'') && !space('`') }

  /** Past a run of blanks stands what follows it. */
  lemma Skipped(s: string, i: nat, run: string, c: char, rest: string, space: char -> bool, plus: bool)
    requires At(s, i, run + ([c] + rest)) && AllBlank(run, space, plus) && !space(c) && !(plus && c == '+')
    ensures BlankEnd(s, i, space, plus) == i + |run| < |s| && s[i + |run|] == c
    ensures At(s, i + |run|, [c] + rest) && At(s, i + |run| + 1, rest)
  {
    BlankRun(s, i, run, [c] + rest, space, plus);
    Past(s, i, run, [c] + rest);
    Past(s, i + |run|, [c], rest);
  }

  lemma LookedAhead(s: string, i: nat, k: nat, m: nat, text: string, space: char -> bool)
    requires BlankEnd(s, i, space, false) == k < |s| && s[k] == '+'
    requires BlankEnd(s, k + 1, space, false) == m < |s| && IsQuote(s[m])
    ensures AfterLiteral(s, i, text, space) == More(text, k + 1)
  {
  }

  /** After a literal, `+` and another literal are seen across white space. */
  lemma JoinSeen(s: string, i: nat, before: string, after: string, c: char, rest: string, text: string,
                 space: char -> bool)
    requires Spaces(space) && AllBlank(before, space, false) && AllBlank(after, space, false) && IsQuote(c)
    requires At(s, i, before + (['+'] + (after + ([c] + rest))))
    ensures AfterLiteral(s, i, text, space) == More(text, i + |before| + 1)
    ensures At(s, i + |before| + 1, after + ([c] + rest))
  {
    var k := i + |before|;
    Skipped(s, i, before, '+', after + ([c] + rest), space, false);
    Skipped(s, k + 1, after, c, rest, space, false);
    LookedAhead(s, i, k, k + 1 + |after|, text, space);
  }

  lemma Taken(s: string, i: nat, w: nat, p: Parts, literal: Literal, turnAt: (string, nat) -> Turn)
    requires Turns(turnAt, p)
    requires BlankEnd(s, i, p.space, true) == w < |s| && IsQuote(s[w]) && p.literal(s, w) == literal
    ensures turnAt(s, i) == AfterLiteral(s, w + 1 + literal.used, literal.text, p.space)
  {
    assert turnAt(s, i) == TurnAt(s, i, p);
  }

  lemma LeadSkipped(s: string, i: nat, lead: string, form: Form, rest: string, space: char -> bool)
    requires At(s, i, lead + PutLiteral(form, rest)) && AllBlank(lead, space, true)
    requires Spaces(space) && WellFormed(form)
    ensures BlankEnd(s, i, space, true) == i + |lead| < |s| && IsQuote(s[i + |lead|])
    ensures At(s, i + |lead|, PutLiteral(form, rest))
  {
    var d := Delimiter(form);
    Skipped(s, i, lead, d, Put(form.body, [d] + rest), space, true);
  }

  /** What follows a literal. */
  lemma FormEnd(s: string, i: nat, lead: string, form: Form, rest: string)
    requires At(s, i, lead + PutLiteral(form, rest))
    ensures At(s, i + |lead| + 2 + |Text(form.body)|, rest)
  {
    Past(s, i, lead, PutLiteral(form, rest));
    LiteralEnd(s, i + |lead|, form, rest);
  }

  /** One turn over a literal. */
  lemma FormTurn(s: string, i: nat, lead: string, form: Form, rest: string,
                 unescape: string -> string, p: Parts, turnAt: (string, nat) -> Turn)
    requires At(s, i, lead + PutLiteral(form, rest)) && AllBlank(lead, p.space, true)
    requires Reads(p, unescape) && Turns(turnAt, p) && Spaces(p.space) && WellFormed(form)
    ensures i < |s|
    ensures turnAt(s, i) == AfterLiteral(s, i + |lead| + 2 + |Text(form.body)|, unescape(Text(form.body)), p.space)
  {
    var w, text := i + |lead|, Text(form.body);
    LeadSkipped(s, i, lead, form, rest, p.space);
    assert p.literal(s, w) == Literal(unescape(text), 1 + |text|) by {
      LiteralRead(s, w, form, rest, unescape, p);
    }
    Taken(s, i, w, p, Literal(unescape(text), 1 + |text|), turnAt);
  }

  /** A turn over a literal with another one joined on. */
  lemma JoinTurn(s: string, j: nat, join: Join, rest: string, text: string, space: char -> bool,
                 turn: Turn)
    requires At(s, j, join.before + (['+'] + (join.after + PutLiteral(join.form, rest))))
    requires turn == AfterLiteral(s, j, text, space)
    requires IsJoin(join, space) && Spaces(space)
    ensures turn == More(text, j + |join.before| + 1)
    ensures At(s, j + |join.before| + 1, join.after + PutLiteral(join.form, rest))
  {
    var d := Delimiter(join.form);
    JoinSeen(s, j, join.before, join.after, d, Put(join.form.body, [d] + rest), text, space);
  }

  /** The turn over the last literal. */
  lemma LastTurn(s: string, i: nat, lead: string, form: Form, rest: string,
                 unescape: string -> string, p: Parts, turnAt: (string, nat) -> Turn)
    requires At(s, i, lead + PutLiteral(form, rest))
    requires AllBlank(lead, p.space, true) && WellFormed(form)
    requires Reads(p, unescape) && Turns(turnAt, p) && Spaces(p.space)
    requires |rest| <= |s| && !Continues(s, |s| - |rest|, p.space)
    ensures i < |s| && turnAt(s, i) == Last(unescape(Text(form.body)), |s| - |rest|)
  {
    FormTurn(s, i, lead, form, rest, unescape, p, turnAt);
    FormEnd(s, i, lead, form, rest);
  }

  /** The turn over a literal in front of `more`. */
  lemma FormStep(s: string, i: nat, lead: string, form: Form, more: string,
                 unescape: string -> string, p: Parts, turnAt: (string, nat) -> Turn) returns (j: nat)
    requires At(s, i, lead + PutLiteral(form, more)) && AllBlank(lead, p.space, true) && WellFormed(form)
    requires Reads(p, unescape) && Turns(turnAt, p) && Spaces(p.space)
    ensures i < |s| && i < j && At(s, j, more) && turnAt(s, i) == AfterLiteral(s, j, unescape(Text(form.body)), p.space)
  {
    j := i + |lead| + 2 + |Text(form.body)|;
    FormTurn(s, i, lead, form, more, unescape, p, turnAt);
    FormEnd(s, i, lead, form, more);
  }

  /** The turn over a literal that others are joined to. */
  lemma JoinedOn(s: string, i: nat, lead: string, form: Form, joins: seq<Join>, rest: string,
                 unescape: string -> string, p: Parts, turnAt: (string, nat) -> Turn) returns (at: nat)
    requires joins != [] && At(s, i, lead + PutLiteral(form, PutJoins(joins, rest))) && AllBlank(lead, p.space, true)
    requires WellFormed(form) && IsJoin(joins[0], p.space)
    requires Reads(p, unescape) && Turns(turnAt, p) && Spaces(p.space)
    ensures i < |s| && i < at && turnAt(s, i) == More(unescape(Text(form.body)), at)
    ensures At(s, at, joins[0].after + PutLiteral(joins[0].form, PutJoins(joins[1..], rest)))
  {
    var j := FormStep(s, i, lead, form, PutJoins(joins, rest), unescape, p, turnAt);
    JoinTurn(s, j, joins[0], PutJoins(joins[1..], rest), unescape(Text(form.body)), p.space, turnAt(s, i));
    at := j + |joins[0].before| + 1;
  }

  /** From `i` on, the turns read `texts` one by one and end at `end`. */
  ghost predicate TurnsRead(s: string, i: nat, turnAt: (string, nat) -> Turn, texts: seq<string>, end: nat)
    decreases |texts|
  {
    && texts != [] && i < |s|
    && if |texts| == 1 then turnAt(s, i) == Last(texts[0], end)
       else
         var turn := turnAt(s, i);
         turn.More? && i < turn.at && turn.text == texts[0] && TurnsRead(s, turn.at, turnAt, texts[1..], end)
  }

  function Concat(texts: seq<string>): string { if texts == [] then "" else texts[0] + Concat(texts[1..]) }

  lemma {:induction false} TurnsExpress(s: string, i: nat, turnAt: (string, nat) -> Turn, texts: seq<string>, end: nat)
    requires TurnsRead(s, i, turnAt, texts, end)
    ensures Expression(s, i, turnAt) == Parsed(Concat(texts), end)
    decreases |texts|
  {
    if |texts| == 1 {
      assert Concat(texts[1..]) == "" && texts[0] + "" == texts[0];
    } else {
      TurnsExpress(s, turnAt(s, i).at, turnAt, texts[1..], end);
    }
  }

  function Texts(joins: seq<Join>, unescape: string -> string): seq<string> {
    if joins == [] then [] else [unescape(Text(joins[0].form.body))] + Texts(joins[1..], unescape)
  }

  lemma {:induction false} JoinsTurn(s: string, i: nat, lead: string, form: Form, joins: seq<Join>, rest: string,
                                     unescape: string -> string, p: Parts, turnAt: (string, nat) -> Turn)
    requires At(s, i, lead + PutLiteral(form, PutJoins(joins, rest))) && AllBlank(lead, p.space, true)
    requires WellFormed(form) && WellJoined(joins, p.space)
    requires Reads(p, unescape) && Turns(turnAt, p) && Spaces(p.space)
    requires |rest| <= |s| && !Continues(s, |s| - |rest|, p.space)
    ensures TurnsRead(s, i, turnAt, [unescape(Text(form.body))] + Texts(joins, unescape), |s| - |rest|)
    decreases |joins|
  {
    var text, texts := unescape(Text(form.body)), Texts(joins, unescape);
    assert ([text] + texts)[1..] == texts;
    if joins == [] {
      LastTurn(s, i, lead, form, rest, unescape, p, turnAt);
    } else {
      var join := joins[0];
      var at := JoinedOn(s, i, lead, form, joins, rest, unescape, p, turnAt);
      JoinsTurn(s, at, join.after, join.form, joins[1..], rest, unescape, p, turnAt);
    }
  }

  lemma JoinsExpress(s: string, i: nat, lead: string, form: Form, joins: seq<Join>, rest: string,
                     unescape: string -> string, p: Parts, turnAt: (string, nat) -> Turn)
    requires At(s, i, lead + PutLiteral(form, PutJoins(joins, rest))) && AllBlank(lead, p.space, true)
    requires WellFormed(form) && WellJoined(joins, p.space)
    requires Reads(p, unescape) && Turns(turnAt, p) && Spaces(p.space)
    requires |rest| <= |s| && !Continues(s, |s| - |rest|, p.space)
    ensures Expression(s, i, turnAt)
         == Parsed(Concat([unescape(Text(form.body))] + Texts(joins, unescape)), |s| - |rest|)
  {
    JoinsTurn(s, i, lead, form, joins, rest, unescape, p, turnAt);
    TurnsExpress(s, i, turnAt, [unescape(Text(form.body))] + Texts(joins, unescape), |s| - |rest|);
  }

  /** A run of joined literals reads as the concatenation of their texts, and the parser
      stops right behind the last one, whenever no further literal is joined on there. */
  lemma MeaningOfWritten(s: string, i: nat, lead: string, form: Form, joins: seq<Join>, rest: string,
                         unescape: string -> string)
    requires At(s, i, lead + PutLiteral(form, PutJoins(joins, rest))) && AllBlank(lead, IsSpace, true)
    requires WellFormed(form) && WellJoined(joins, IsSpace)
    requires |rest| <= |s| && !Continues(s, |s| - |rest|, IsSpace)
    ensures Meaning(s, i, unescape)
         == Parsed(Concat([unescape(Text(form.body))] + Texts(joins, unescape)), |s| - |rest|)
  {
    var p := JavaScript(unescape);
    JoinsExpress(s, i, lead, form, joins, rest, unescape, p, (s: string, i: nat) => TurnAt(s, i, p));
  }

  lemma LiteralBounds(s: string, i: nat, unescape: string -> string)
    requires i < |s|
    ensures i + 1 + LiteralAt(s, i, unescape).used <= |s| + 1
  {
    assert Drop(s, i)[1..] == s[i + 1..];
    BacktickBounds(s[i + 1..], 0);
    QuotedBounds(s[i + 1..], s[i]);
  }

  lemma TurnBounds(s: string, i: nat, unescape: string -> string, p: Parts)
    requires i < |s| && Reads(p, unescape)
    ensures i <= TurnAt(s, i, p).at <= |s| + 1
    ensures TurnAt(s, i, p).text != "" ==> i < TurnAt(s, i, p).at
  {
    var w := BlankEnd(s, i, p.space, true);
    if w < |s| {
      LiteralBounds(s, w, unescape);
    }
  }

  /** The parser moves forward, and at most one past the end. */
  lemma {:induction false} ExpressionBounds(s: string, i: nat, unescape: string -> string, p: Parts,
                                            turnAt: (string, nat) -> Turn)
    requires Reads(p, unescape) && Turns(turnAt, p)
    ensures var e := Expression(s, i, turnAt);
            && (i < |s| ==> i <= e.end <= |s| + 1)
            && (e.text != "" ==> i < e.end <= |s| + 1)
    decreases |s| - i
  {
    if i < |s| {
      TurnBounds(s, i, unescape, p);
      assert turnAt(s, i) == TurnAt(s, i, p);
      var turn := turnAt(s, i);
      if turn.More? && turn.at < |s| {
        ExpressionBounds(s, turn.at, unescape, p, turnAt);
      }
    }
  }

  lemma MeaningBounds(s: string, i: nat, unescape: string -> string)
    ensures var e := Meaning(s, i, unescape); e.text != "" ==> i < e.end <= |s| + 1
  {
    var p := JavaScript(unescape);
    ExpressionBounds(s, i, unescape, p, (s: string, i: nat) => TurnAt(s, i, p));
  }
}
