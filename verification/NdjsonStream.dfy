/** Re-framing of a child process's output: a producer thread reads the pipe in
    chunks of any size and queues them, a consumer appends queued chunks to a buffer
    and cuts newline-terminated frames off its front. */
module NdjsonStream {
  import opened Basics

  const NEWLINE: byte := 10

  /** Python's `bytes.strip()` characters. */
  predicate IsSpace(b: byte) {
    b == 32 || 9 <= b <= 13
  }

  function Strip(line: seq<byte>): (r: seq<byte>)
    decreases |line|
  {
    if line == [] then []
    else if IsSpace(line[0]) then Strip(line[1..])
    else if IsSpace(line[|line| - 1]) then Strip(line[..|line| - 1])
    else line
  }

  ghost predicate AllBlank(s: seq<byte>) {
    forall i :: 0 <= i < |s| ==> s[i] == 32 || 9 <= s[i] <= 13
  }

  /** What is stripped off both ends is white space, and no white space is left there. */
  lemma {:induction false} StripMeans(line: seq<byte>) returns (front: seq<byte>, back: seq<byte>)
    ensures line == front + Strip(line) + back && AllBlank(front) && AllBlank(back)
    ensures var s := Strip(line); s != [] ==> !AllBlank([s[0]]) && !AllBlank([s[|s| - 1]])
    decreases |line|
  {
    front, back := [], [];
    if line != [] {
      var last := |line| - 1;
      if IsSpace(line[0]) {
        front, back := StripMeans(line[1..]);
        FrontBlank(line[0], front, Strip(line[1..]), back);
        assert line == [line[0]] + line[1..];
        front := [line[0]] + front;
      } else if IsSpace(line[last]) {
        front, back := StripMeans(line[..last]);
        BackBlank(front, Strip(line[..last]), back, line[last]);
        assert line == line[..last] + [line[last]];
        back := back + [line[last]];
      } else {
        assert [line[0]][0] == line[0] && [line[last]][0] == line[last];
      }
    }
  }

  lemma FrontBlank(b: byte, front: seq<byte>, s: seq<byte>, back: seq<byte>)
    requires IsSpace(b) && AllBlank(front)
    ensures [b] + (front + s + back) == ([b] + front) + s + back && AllBlank([b] + front)
  {
  }

  lemma BackBlank(front: seq<byte>, s: seq<byte>, back: seq<byte>, b: byte)
    requires IsSpace(b) && AllBlank(back)
    ensures (front + s + back) + [b] == front + s + (back + [b]) && AllBlank(back + [b])
  {
  }

  /** UTF-8 decoding, `json.loads` and the test for an object: Some(frame) or not a frame. */
  type Parser<F> = seq<byte> -> Option<F>

  /** The frame a line carries, if any. */
  function FrameOf<F>(parse: Parser<F>, line: seq<byte>): Option<F> {
    if Strip(line) == [] then None else parse(Strip(line))
  }

  function Single<F>(frame: Option<F>): seq<F> {
    match frame
    case None => []
    case Some(f) => [f]
  }

  /** Position of the first newline, or the length if there is none. */
  function Cut(bytes: seq<byte>): (i: nat)
    ensures i <= |bytes|
    ensures i < |bytes| ==> bytes[i] == NEWLINE
    ensures forall j :: 0 <= j < i ==> bytes[j] != NEWLINE
  {
    if bytes == [] || bytes[0] == NEWLINE then 0 else 1 + Cut(bytes[1..])
  }

  /** All frames of the complete lines of a byte string: the reference reader. */
  function Frames<F>(parse: Parser<F>, bytes: seq<byte>): seq<F>
    decreases |bytes|
  {
    var i := Cut(bytes);
    if i == |bytes| then [] else Single(FrameOf(parse, bytes[..i])) + Frames(parse, bytes[i + 1..])
  }

  lemma CutStable(bytes: seq<byte>, more: seq<byte>)
    requires NEWLINE in bytes
    ensures Cut(bytes) < |bytes| && Cut(bytes + more) == Cut(bytes)
  {
    var i, j := Cut(bytes), Cut(bytes + more);
    assert i < |bytes| by {
      var k :| 0 <= k < |bytes| && bytes[k] == NEWLINE;
    }
    assert (bytes + more)[i] == NEWLINE;
    assert forall k :: 0 <= k < i ==> (bytes + more)[k] == bytes[k];
  }

  /** Cutting the first line off a buffer is the same whatever bytes follow later. */
  lemma FramesPeel<F>(parse: Parser<F>, bytes: seq<byte>, more: seq<byte>)
    requires NEWLINE in bytes
    ensures var i := Cut(bytes);
            Frames(parse, bytes + more) == Single(FrameOf(parse, bytes[..i])) + Frames(parse, bytes[i + 1..] + more)
  {
    CutStable(bytes, more);
    var i := Cut(bytes);
    assert (bytes + more)[..i] == bytes[..i];
    assert (bytes + more)[i + 1..] == bytes[i + 1..] + more;
  }

  // ----- the stream as a step system -----

  /** What one `os.read` gave the producer: bytes, or the end of the pipe, or an error
      (which the source treats as the end). */
  datatype ReadOutcome = Data(bytes: seq<byte>) | Closed | Failed

  /** `queue` holds chunks, then None once the producer has stopped. `received`,
      `consumed` and `delivered` are history: all bytes read from the pipe, all bytes
      cut off the buffer, all frames handed out. */
  datatype State<F> = State(
    buffer: seq<byte>,
    eof: bool,
    queue: seq<Option<seq<byte>>>,
    stopped: bool,
    received: seq<byte>,
    consumed: seq<byte>,
    delivered: seq<F>)

  function Start<F>(): State<F> { State([], false, [], false, [], [], []) }

  /** One turn of `_drain`. */
  function DrainStep<F>(s: State<F>, outcome: ReadOutcome): State<F> {
    if s.stopped then s
    else if outcome.Data? && outcome.bytes != [] then
      s.(queue := s.queue + [Some(outcome.bytes)], received := s.received + outcome.bytes)
    else
      s.(queue := s.queue + [None], stopped := true)
  }

  /** `_pull`: an empty queue stands for a wait that timed out. */
  function PullStep<F>(s: State<F>): State<F> {
    if s.eof || s.queue == [] then s
    else if s.queue[0] == None then s.(eof := true, queue := s.queue[1..])
    else s.(buffer := s.buffer + s.queue[0].value, queue := s.queue[1..])
  }

  /** One turn of `_next_buffered_frame`: cut one line off the buffer. */
  function CutStep<F>(parse: Parser<F>, s: State<F>): State<F> {
    if NEWLINE !in s.buffer then s
    else
      var i := Cut(s.buffer);
      CutStable(s.buffer, []);
      var rest := s.(buffer := s.buffer[i + 1..], consumed := s.consumed + s.buffer[..i + 1]);
      rest.(delivered := s.delivered + Single(FrameOf(parse, s.buffer[..i])))
  }

  datatype Event = Drain(outcome: ReadOutcome) | Pull | CutLine

  function Step<F>(parse: Parser<F>, s: State<F>, e: Event): State<F> {
    match e
    case Drain(outcome) => DrainStep(s, outcome)
    case Pull => PullStep(s)
    case CutLine => CutStep(parse, s)
  }

  function Run<F>(parse: Parser<F>, events: seq<Event>): State<F> {
    if events == [] then Start()
    else Step(parse, Run(parse, events[..|events| - 1]), events[|events| - 1])
  }

  /** The bytes waiting in the queue. */
  function Queued(queue: seq<Option<seq<byte>>>): seq<byte> {
    if queue == [] then []
    else (match queue[0] case None => [] case Some(c) => c) + Queued(queue[1..])
  }

  lemma {:induction false} QueuedSnoc(queue: seq<Option<seq<byte>>>, c: Option<seq<byte>>)
    ensures Queued(queue + [c]) == Queued(queue) + (match c case None => [] case Some(b) => b)
  {
    if queue == [] {
      assert (queue + [c])[1..] == [];
    } else {
      assert (queue + [c])[1..] == queue[1..] + [c];
      QueuedSnoc(queue[1..], c);
    }
  }

  /** The end marker is queued once, last, when the producer stops; the consumer's eof
      flag is its being taken. */
  ghost predicate QueueShape<F>(s: State<F>) {
    && (forall i :: 0 <= i < |s.queue| ==> (s.queue[i] == None <==> s.stopped && !s.eof && i == |s.queue| - 1))
    && (s.stopped && !s.eof ==> s.queue != [])
    && (s.eof ==> s.stopped && s.queue == [])
  }

  /** Lines are cut whole, no byte is lost or reordered, and the frames handed out are
      those of the lines cut. */
  ghost predicate Conserved<F>(parse: Parser<F>, s: State<F>) {
    && QueueShape(s)
    && s.received == s.consumed + s.buffer + Queued(s.queue)
    && WholeLines(s.consumed)
    && s.delivered == Frames(parse, s.consumed)
  }

  lemma {:induction false} FramesConcat<F>(parse: Parser<F>, a: seq<byte>, b: seq<byte>)
    requires WholeLines(a)
    ensures Frames(parse, a + b) == Frames(parse, a) + Frames(parse, b)
    decreases |a|
  {
    if a == [] {
      assert a + b == b;
    } else {
      assert NEWLINE in a;
      FramesPeel(parse, a, b);
      CutStable(a, []);
      var rest := a[Cut(a) + 1..];
      assert WholeLines(rest);
      FramesConcat(parse, rest, b);
      Associate(Single(FrameOf(parse, a[..Cut(a)])), Frames(parse, rest), Frames(parse, b));
    }
  }

  /** A buffer's first line, its newline included, carries at most its one frame. */
  lemma FirstLine<F>(parse: Parser<F>, buffer: seq<byte>)
    requires NEWLINE in buffer
    ensures Cut(buffer) < |buffer|
    ensures var line := buffer[..Cut(buffer) + 1];
            && line[|line| - 1] == NEWLINE
            && Frames(parse, line) == Single(FrameOf(parse, buffer[..Cut(buffer)]))
  {
    CutStable(buffer, []);
    var i := Cut(buffer);
    var line := buffer[..i + 1];
    assert Cut(line) == i by {
      assert line[i] == NEWLINE;
      assert forall j :: 0 <= j < i ==> line[j] == buffer[j];
    }
    assert line[..i] == buffer[..i] && line[i + 1..] == [];
  }

  lemma DrainConserves<F>(parse: Parser<F>, s: State<F>, outcome: ReadOutcome)
    requires Conserved(parse, s)
    ensures Conserved(parse, DrainStep(s, outcome))
  {
    if !s.stopped {
      QueuedSnoc(s.queue, if outcome.Data? && outcome.bytes != [] then Some(outcome.bytes) else None);
    }
  }

  lemma PullConserves<F>(parse: Parser<F>, s: State<F>)
    requires Conserved(parse, s)
    ensures Conserved(parse, PullStep(s))
  {
  }

  lemma CutConserves<F>(parse: Parser<F>, s: State<F>)
    requires Conserved(parse, s)
    ensures Conserved(parse, CutStep(parse, s))
    ensures CutStep(parse, s).consumed + CutStep(parse, s).buffer == s.consumed + s.buffer
  {
    if NEWLINE in s.buffer {
      CutParts(parse, s.consumed, s.buffer);
    }
  }

  predicate WholeLines(bytes: seq<byte>) {
    bytes == [] || bytes[|bytes| - 1] == NEWLINE
  }

  lemma CutParts<F>(parse: Parser<F>, consumed: seq<byte>, buffer: seq<byte>)
    requires NEWLINE in buffer && WholeLines(consumed)
    ensures Cut(buffer) < |buffer|
    ensures var n := Cut(buffer) + 1;
            && (consumed + buffer[..n]) + buffer[n..] == consumed + buffer
            && WholeLines(consumed + buffer[..n])
            && Frames(parse, consumed + buffer[..n]) == Frames(parse, consumed) + Single(FrameOf(parse, buffer[..n - 1]))
  {
    FirstLine(parse, buffer);
    FramesConcat(parse, consumed, buffer[..Cut(buffer) + 1]);
    MoveLine(consumed, buffer, Cut(buffer) + 1);
  }

  lemma MoveLine(consumed: seq<byte>, buffer: seq<byte>, n: nat)
    requires n <= |buffer|
    ensures (consumed + buffer[..n]) + buffer[n..] == consumed + buffer
  {
  }

  /** Safety over every interleaving of producer and consumer, every chunking and every
      timeout: nothing is lost, repeated, reordered or invented. Frames delivered and frames
      of what is still in the buffer, the queue and the pipe make up the whole stream. */
  lemma {:induction false} RunConserves<F>(parse: Parser<F>, events: seq<Event>, unread: seq<byte>)
    ensures Conserved(parse, Run(parse, events))
    ensures var s := Run(parse, events);
            s.delivered + Frames(parse, s.buffer + (Queued(s.queue) + unread)) == Frames(parse, s.received + unread)
    decreases |events|
  {
    if events != [] {
      var before := Run(parse, events[..|events| - 1]);
      RunConserves(parse, events[..|events| - 1], unread);
      match events[|events| - 1]
      case Drain(outcome) => DrainConserves(parse, before, outcome);
      case Pull => PullConserves(parse, before);
      case CutLine => CutConserves(parse, before);
    }
    ConservedFrames(parse, Run(parse, events), unread);
  }

  lemma ConservedFrames<F>(parse: Parser<F>, s: State<F>, unread: seq<byte>)
    requires Conserved(parse, s)
    ensures s.delivered + Frames(parse, s.buffer + (Queued(s.queue) + unread)) == Frames(parse, s.received + unread)
  {
    FramesSplit(parse, s.consumed, s.buffer, Queued(s.queue) + unread);
    Associate(s.consumed + s.buffer, Queued(s.queue), unread);
  }

  lemma FramesSplit<F>(parse: Parser<F>, lines: seq<byte>, b: seq<byte>, c: seq<byte>)
    requires WholeLines(lines)
    ensures Frames(parse, lines) + Frames(parse, b + c) == Frames(parse, lines + b + c)
  {
    FramesConcat(parse, lines, b + c);
    Associate(lines, b, c);
  }

  /** Once the consumer has seen the end and has no full line left, every complete frame
      the pipe carried has been delivered. */
  lemma EndMeansAllDelivered<F>(parse: Parser<F>, s: State<F>)
    requires Conserved(parse, s) && s.eof && NEWLINE !in s.buffer
    ensures s.delivered == Frames(parse, s.received)
  {
    ConservedFrames(parse, s, []);
    assert s.buffer + (Queued(s.queue) + []) == s.buffer && s.received + [] == s.received;
  }

  // ----- the class -----

  /** What happens around one turn of the `read_frame` loop: the pipe reads the producer
      completes meanwhile, and whether the deadline has passed when it is checked. */
  datatype Turn = Turn(pipe: seq<ReadOutcome>, expired: bool)

  /** What a run of pipe reads queues: the chunks, and the end mark when the pipe ends. */
  function Entries(stopped: bool, pipe: seq<ReadOutcome>): seq<Option<seq<byte>>> {
    if stopped || pipe == [] then []
    else if pipe[0].Data? && pipe[0].bytes != [] then [Some(pipe[0].bytes)] + Entries(false, pipe[1..])
    else [None]
  }

  predicate Ends(stopped: bool, pipe: seq<ReadOutcome>) {
    stopped || exists i :: 0 <= i < |pipe| && !(pipe[i].Data? && pipe[i].bytes != [])
  }

  function Pipes(turns: seq<Turn>): seq<ReadOutcome> {
    if turns == [] then [] else Pipes(turns[..|turns| - 1]) + turns[|turns| - 1].pipe
  }

  /** All that is queued once the turns are over, if nothing is pulled. */
  function Feed<F>(s: State<F>, turns: seq<Turn>): seq<Option<seq<byte>>> {
    s.queue + Entries(s.stopped, Pipes(turns))
  }

  /** The pull of turn `i` brings the i-th chunk: the deadline has not passed, and by then
      that chunk, and no end mark, is queued. */
  predicate Pulls<F>(s: State<F>, turns: seq<Turn>, i: nat) {
    && i < |turns| && !turns[i].expired
    && var queued := Feed(s, turns[..i + 1]);
    && i < |queued| && queued[i].Some?
  }

  /** The bytes seen after `n` pulls. */
  function Seen<F>(s: State<F>, turns: seq<Turn>, n: nat): seq<byte> {
    var all := Feed(s, turns);
    s.buffer + Queued(if n <= |all| then all[..n] else all)
  }

  /** The first `n` pulls bring chunks, and before the last of them no frame is complete. */
  ghost predicate Fruitless<F>(parse: Parser<F>, s: State<F>, turns: seq<Turn>, n: nat) {
    forall i: nat :: i < n ==> Pulls(s, turns, i) && Frames(parse, Seen(s, turns, i)) == []
  }

  /** A read ends after `n` pulls: with the first frame seen, as soon as there is one; or
      without, when the turns are over or the next pull brings nothing. */
  ghost predicate ReadEnds<F>(parse: Parser<F>, s: State<F>, turns: seq<Turn>, n: nat, frame: Option<F>) {
    && n <= |turns| && Fruitless(parse, s, turns, n)
    && match frame
       case Some(f) => var frames := Frames(parse, Seen(s, turns, n)); frames != [] && frames[0] == f
       case None => Frames(parse, Seen(s, turns, n)) == [] && !Pulls(s, turns, n)
  }

  lemma {:induction false} EntriesConcat(stopped: bool, a: seq<ReadOutcome>, b: seq<ReadOutcome>)
    ensures Entries(stopped, a + b) == Entries(stopped, a) + Entries(Ends(stopped, a), b)
  {
    if a == [] {
      assert a + b == b;
    } else {
      assert (a + b)[0] == a[0] && (a + b)[1..] == a[1..] + b;
      if !stopped && a[0].Data? && a[0].bytes != [] {
        EntriesConcat(false, a[1..], b);
        EndsLater(a);
      } else {
        assert Ends(stopped, a);
      }
    }
  }

  lemma EndsLater(a: seq<ReadOutcome>)
    requires a != [] && a[0].Data? && a[0].bytes != []
    ensures Ends(false, a) <==> Ends(false, a[1..])
  {
    if i :| 0 <= i < |a| && !(a[i].Data? && a[i].bytes != []) {
      assert a[1..][i - 1] == a[i];
    }
    if i :| 0 <= i < |a| - 1 && !(a[1..][i].Data? && a[1..][i].bytes != []) {
      assert a[i + 1] == a[1..][i];
    }
  }

  lemma EndsConcat(stopped: bool, a: seq<ReadOutcome>, b: seq<ReadOutcome>)
    ensures Ends(stopped, a + b) <==> Ends(Ends(stopped, a), b)
  {
    var all := a + b;
    if i :| 0 <= i < |a| && !(a[i].Data? && a[i].bytes != []) {
      assert all[i] == a[i];
    }
    if i :| 0 <= i < |b| && !(b[i].Data? && b[i].bytes != []) {
      assert all[|a| + i] == b[i];
    }
  }

  /** One turn more. */
  lemma FeedNext<F>(s: State<F>, turns: seq<Turn>, i: nat)
    requires i < |turns|
    ensures Feed(s, turns[..i + 1])
         == Feed(s, turns[..i]) + Entries(Ends(s.stopped, Pipes(turns[..i])), turns[i].pipe)
    ensures Ends(s.stopped, Pipes(turns[..i + 1])) == Ends(Ends(s.stopped, Pipes(turns[..i])), turns[i].pipe)
  {
    assert turns[..i + 1][..i] == turns[..i];
    EntriesConcat(s.stopped, Pipes(turns[..i]), turns[i].pipe);
    EndsConcat(s.stopped, Pipes(turns[..i]), turns[i].pipe);
    Associate(s.queue, Entries(s.stopped, Pipes(turns[..i])),
              Entries(Ends(s.stopped, Pipes(turns[..i])), turns[i].pipe));
  }

  lemma {:induction false} FeedGrows<F>(s: State<F>, turns: seq<Turn>, i: nat)
    requires i <= |turns|
    ensures Feed(s, turns[..i]) <= Feed(s, turns)
    decreases |turns| - i
  {
    if i == |turns| {
      assert turns[..i] == turns;
    } else {
      FeedNext(s, turns, i);
      FeedGrows(s, turns, i + 1);
    }
  }

  class NdjsonStream<F> {
    const parse: Parser<F>
    var buffer: seq<byte>
    var eof: bool
    var chunks: seq<Option<seq<byte>>>
    var stopped: bool
    ghost var received: seq<byte>
    ghost var consumed: seq<byte>
    ghost var delivered: seq<F>

    ghost function Model(): State<F>
      reads this
    {
      State(buffer, eof, chunks, stopped, received, consumed, delivered)
    }

    ghost predicate Valid()
      reads this
    {
      Conserved(parse, Model())
    }

    constructor (parse: Parser<F>)
      ensures this.parse == parse && Valid() && Model() == Start()
    {
      this.parse := parse;
      buffer, eof, chunks, stopped, received, consumed, delivered := [], false, [], false, [], [], [];
    }

    /** The producer thread completes some pipe reads. */
    method Drain(pipe: seq<ReadOutcome>)
      requires Valid()
      modifies this
      ensures Valid() && buffer == old(buffer) && eof == old(eof)
      ensures consumed == old(consumed) && delivered == old(delivered)
      ensures received == old(received) + Arrived(old(stopped), pipe)
      ensures chunks == old(chunks) + Entries(old(stopped), pipe) && stopped == Ends(old(stopped), pipe)
    {
      var i := 0;
      while i < |pipe|
        invariant 0 <= i <= |pipe| && Valid() && buffer == old(buffer) && eof == old(eof)
        invariant consumed == old(consumed) && delivered == old(delivered)
        invariant received + Arrived(stopped, pipe[i..]) == old(received) + Arrived(old(stopped), pipe)
        invariant chunks + Entries(stopped, pipe[i..]) == old(chunks) + Entries(old(stopped), pipe)
        invariant Ends(stopped, pipe[i..]) == Ends(old(stopped), pipe)
      {
        ghost var bytes, queued := received, chunks;
        DrainSplits(stopped, pipe, i);
        var more := DrainOne(pipe[i]);
        Associate(bytes, more, Arrived(stopped, pipe[i + 1..]));
        Associate(queued, chunks[|queued|..], Entries(stopped, pipe[i + 1..]));
        i := i + 1;
      }
    }

    /** One read of the pipe: its bytes are queued, or the end mark is. */
    method DrainOne(outcome: ReadOutcome) returns (ghost bytes: seq<byte>)
      requires Valid()
      modifies this`chunks, this`received, this`stopped
      ensures Model() == DrainStep(old(Model()), outcome) && Valid()
      ensures received == old(received) + bytes
      ensures bytes == if !old(stopped) && outcome.Data? then outcome.bytes else []
      ensures stopped == (old(stopped) || !outcome.Data? || outcome.bytes == [])
    {
      bytes := [];
      ghost var before := Model();
      if !stopped {
        if outcome.Data? && outcome.bytes != [] {
          chunks := chunks + [Some(outcome.bytes)];
          bytes := outcome.bytes;
          received := received + bytes;
        } else {
          chunks := chunks + [None];
          stopped := true;
        }
      }
      assert Model() == DrainStep(before, outcome);
      DrainConserves(parse, before, outcome);
    }

    /** Take one line off the buffer, with the frame it carries, if any. */
    method CutLine() returns (frame: Option<F>)
      requires Valid() && NEWLINE in buffer
      modifies this`buffer, this`consumed, this`delivered
      ensures Valid() && |buffer| < |old(buffer)|
      ensures delivered == old(delivered) + if frame.Some? then [frame.value] else []
      ensures old(consumed) + old(buffer) == consumed + buffer
    {
      ghost var before := Model();
      CutConserves(parse, before);
      CutStable(buffer, []);
      var i := Cut(buffer);
      var line := buffer[..i];
      consumed, buffer := consumed + buffer[..i + 1], buffer[i + 1..];
      var stripped := Strip(line);
      frame := None;
      if stripped != [] {
        frame := parse(stripped);
      }
      if frame.Some? {
        delivered := delivered + [frame.value];
      }
      assert Model() == CutStep(parse, before);
    }

    /** The first frame among the buffered lines; lines that carry none are dropped. */
    method NextBufferedFrame() returns (frame: Option<F>)
      requires Valid()
      modifies this`buffer, this`consumed, this`delivered
      ensures Valid()
      ensures frame == None ==> NEWLINE !in buffer && delivered == old(delivered)
      ensures frame.Some? ==> delivered == old(delivered) + [frame.value]
      ensures old(consumed) + old(buffer) == consumed + buffer
    {
      while NEWLINE in buffer
        invariant Valid() && delivered == old(delivered)
        invariant old(consumed) + old(buffer) == consumed + buffer
        decreases |buffer|
      {
        frame := CutLine();
        if frame.Some? {
          return;
        }
      }
      return None;
    }

    /** Append one queued chunk; false on an empty queue or once the pipe is closed. */
    method Pull() returns (ok: bool)
      requires Valid()
      modifies this`buffer, this`eof, this`chunks
      ensures Valid() && Model() == PullStep(old(Model()))
      ensures ok <==> !old(eof) && old(chunks) != [] && old(chunks)[0].Some?
    {
      PullConserves(parse, Model());
      if eof {
        return false;
      }
      if chunks == [] {
        return false;
      }
      var chunk := chunks[0];
      chunks := chunks[1..];
      if chunk == None {
        eof := true;
        return false;
      }
      buffer := buffer + chunk.value;
      return true;
    }

    /** The next frame, or None when no frame completed in time. Running out of turns is
        the deadline passing. A frame comes back exactly when one is complete after the chunks
        that can be pulled in time, and it is the first; `n` counts the pulls. */
    method ReadFrame(turns: seq<Turn>) returns (frame: Option<F>, ghost n: nat)
      requires Valid()
      modifies this
      ensures Valid() && old(received) <= received
      ensures frame.Some? ==> delivered == old(delivered) + [frame.value]
      ensures frame == None ==> delivered == old(delivered) && NEWLINE !in buffer
      ensures frame == None && eof ==> delivered == Frames(parse, received)
      ensures ReadDone(parse, old(Model()), turns, n, Model(), frame)
    {
      var i := 0;
      n, frame := 0, None;
      ghost var s := Model();
      ReadingStarts(parse, s, turns);
      var more := true;
      while more
        invariant 0 <= i <= |turns| && n == i
        invariant more ==> Reading(parse, s, turns, i, Model())
        invariant !more ==> ReadDone(parse, s, turns, i, Model(), frame)
        decreases if more then |turns| - i + 1 else 0
      {
        frame, more := Advance(turns, i, s);
        if more {
          i, n := i + 1, n + 1;
        }
      }
    }

    /** One round of the loop: a frame that is complete, or one more chunk, or neither. */
    method Advance(turns: seq<Turn>, i: nat, ghost s: State<F>) returns (frame: Option<F>, more: bool)
      requires i <= |turns| && Reading(parse, s, turns, i, Model())
      modifies this
      ensures more ==> i < |turns| && Reading(parse, s, turns, i + 1, Model())
      ensures !more ==> ReadDone(parse, s, turns, i, Model(), frame)
    {
      more := false;
      frame := Look(turns, i, s);
      if frame.Some? || i == |turns| {
        if frame.None? && eof {
          EndMeansAllDelivered(parse, Model());
        }
        return;
      }
      more := TakeTurn(turns, i, s);
      if !more && eof {
        EndMeansAllDelivered(parse, Model());
      }
    }

    /** Look for a frame among the bytes seen after `i` turns. */
    method Look(turns: seq<Turn>, i: nat, ghost s: State<F>) returns (frame: Option<F>)
      requires i <= |turns| && Reading(parse, s, turns, i, Model())
      modifies this`buffer, this`consumed, this`delivered
      ensures Valid() && delivered == s.delivered + Single(frame)
      ensures received == old(received) && chunks == old(chunks) && consumed + buffer == s.consumed + Seen(s, turns, i)
      ensures frame.None? ==> NEWLINE !in buffer && Reading(parse, s, turns, i, Model())
      ensures frame.None? ==> Frames(parse, Seen(s, turns, i)) == []
      ensures frame.Some? || i == |turns| ==> ReadEnds(parse, s, turns, i, frame)
    {
      frame := NextBufferedFrame();
      FirstSeen(parse, s, Seen(s, turns, i), Model(), frame);
    }

    /** One turn that found no frame: let the pipe run, check the clock, pull. */
    method TakeTurn(turns: seq<Turn>, i: nat, ghost s: State<F>) returns (pulled: bool)
      requires i < |turns| && Reading(parse, s, turns, i, Model()) && Frames(parse, Seen(s, turns, i)) == []
      modifies this
      ensures Conserved(parse, Model()) && delivered == s.delivered
      ensures pulled <==> Pulls(s, turns, i)
      ensures pulled ==> Reading(parse, s, turns, i + 1, Model())
      ensures !pulled ==> buffer == old(buffer) && consumed == old(consumed) && ReadEnds(parse, s, turns, i, None)
      ensures !pulled ==> Drained(s, turns, i, Model()) || (eof && chunks == [] && Ran(s, turns, i, Model()))
    {
      Drain(turns[i].pipe);
      DrainedTurn(parse, s, turns, i, old(Model()), Model());
      if turns[i].expired {
        return false;
      }
      PulledTurn(parse, s, turns, i, old(Model()), Model());
      pulled := Pull();
    }
  }

  lemma {:induction false} FramesGrow<F>(parse: Parser<F>, a: seq<byte>, b: seq<byte>)
    ensures Frames(parse, a) <= Frames(parse, a + b)
    decreases |a|
  {
    if NEWLINE in a {
      FramesPeel(parse, a, b);
      FramesPeel(parse, a, []);
      assert a + [] == a && a[Cut(a) + 1..] + [] == a[Cut(a) + 1..];
      FramesGrow(parse, a[Cut(a) + 1..], b);
    }
  }

  lemma {:induction false} QueuedGrow(a: seq<Option<seq<byte>>>, b: seq<Option<seq<byte>>>)
    ensures Queued(a + b) == Queued(a) + Queued(b)
  {
    if a == [] {
      assert a + b == b;
    } else {
      assert (a + b)[1..] == a[1..] + b;
      QueuedGrow(a[1..], b);
    }
  }

  lemma SeenGrows<F>(parse: Parser<F>, s: State<F>, turns: seq<Turn>, n: nat)
    ensures Frames(parse, Seen(s, turns, n)) <= Frames(parse, s.buffer + Queued(Feed(s, turns)))
  {
    var all := Feed(s, turns);
    var i := if n <= |all| then n else |all|;
    assert all == all[..i] + all[i..];
    QueuedGrow(all[..i], all[i..]);
    Associate(s.buffer, Queued(all[..i]), Queued(all[i..]));
    FramesGrow(parse, s.buffer + Queued(all[..i]), Queued(all[i..]));
  }

  /** `m` pulls in a row bring chunks in time, and then a frame is complete. */
  ghost predicate InTime<F>(parse: Parser<F>, s: State<F>, turns: seq<Turn>, m: nat) {
    m <= |turns| && (forall i: nat :: i < m ==> Pulls(s, turns, i)) && Frames(parse, Seen(s, turns, m)) != []
  }

  /** A read returns a frame exactly when one completes in time, and it is the first frame
      of all that was buffered, queued or still to come. */
  lemma ReadIffInTime<F>(parse: Parser<F>, s: State<F>, turns: seq<Turn>, n: nat, frame: Option<F>)
    requires ReadEnds(parse, s, turns, n, frame)
    ensures frame.Some? <==> exists m: nat :: InTime(parse, s, turns, m)
    ensures frame.Some? ==> var all := Frames(parse, s.buffer + Queued(Feed(s, turns))); all != [] && all[0] == frame.value
  {
    if frame.Some? {
      assert InTime(parse, s, turns, n);
      SeenGrows(parse, s, turns, n);
    }
  }

  /** After `i` turns: no frame has been found, the chunks not pulled are queued, and the
      bytes seen so far are accounted for. */
  ghost predicate Reading<F>(parse: Parser<F>, s: State<F>, turns: seq<Turn>, i: nat, now: State<F>)
    requires i <= |turns|
  {
    && Conserved(parse, s) && Conserved(parse, now)
    && now.delivered == s.delivered && now.received == s.received + Arrived(s.stopped, Pipes(turns[..i]))
    && i <= |Feed(s, turns[..i])| && now.queue == Feed(s, turns[..i])[i..]
    && now.stopped == Ends(s.stopped, Pipes(turns[..i]))
    && now.consumed + now.buffer == s.consumed + Seen(s, turns, i)
    && Fruitless(parse, s, turns, i)
  }

  /** A read from state `s` ends in state `now`. The pipe has run for the turns begun; what
      it brought and was not pulled is still queued, but for an end mark that was taken. */
  ghost predicate ReadDone<F>(parse: Parser<F>, s: State<F>, turns: seq<Turn>, n: nat, now: State<F>, frame: Option<F>) {
    && ReadEnds(parse, s, turns, n, frame) && Conserved(parse, now)
    && now.delivered == s.delivered + Single(frame)
    && now.consumed + now.buffer == s.consumed + Seen(s, turns, n)
    && (frame == None ==> NEWLINE !in now.buffer && (now.eof ==> now.delivered == Frames(parse, now.received)))
    && var begun := if frame == None && n < |turns| then n + 1 else n;
    && now.stopped == Ends(s.stopped, Pipes(turns[..begun]))
    && now.received == s.received + Arrived(s.stopped, Pipes(turns[..begun]))
    && n <= |Feed(s, turns[..begun])|
    && (now.queue == Feed(s, turns[..begun])[n..] || (now.eof && now.queue == []))
  }

  lemma ReadingStarts<F>(parse: Parser<F>, s: State<F>, turns: seq<Turn>)
    requires Conserved(parse, s)
    ensures Reading(parse, s, turns, 0, s)
  {
    assert turns[..0] == [] && Feed(s, turns)[..0] == [];
    assert Entries(s.stopped, []) == [] && Arrived(s.stopped, []) == [];
  }

  ghost predicate Drained<F>(s: State<F>, turns: seq<Turn>, i: nat, now: State<F>)
    requires i < |turns|
  {
    && Ran(s, turns, i, now) && i <= |Feed(s, turns[..i + 1])| && now.queue == Feed(s, turns[..i + 1])[i..]
  }

  /** The pipe has run for turn `i` and those before. */
  ghost predicate Ran<F>(s: State<F>, turns: seq<Turn>, i: nat, now: State<F>)
    requires i < |turns|
  {
    && i <= |Feed(s, turns[..i + 1])|
    && now.stopped == Ends(s.stopped, Pipes(turns[..i + 1]))
    && now.received == s.received + Arrived(s.stopped, Pipes(turns[..i + 1]))
  }

  lemma DrainedTurn<F>(parse: Parser<F>, s: State<F>, turns: seq<Turn>, i: nat, before: State<F>, now: State<F>)
    requires i < |turns| && Reading(parse, s, turns, i, before)
    requires now.queue == before.queue + Entries(before.stopped, turns[i].pipe)
    requires now.stopped == Ends(before.stopped, turns[i].pipe)
    requires now.received == before.received + Arrived(before.stopped, turns[i].pipe)
    ensures Drained(s, turns, i, now)
  {
    FeedNext(s, turns, i);
    DropBefore(Feed(s, turns[..i]), Entries(before.stopped, turns[i].pipe), i);
    ArrivedNext(s.stopped, turns, i);
    Associate(s.received, Arrived(s.stopped, Pipes(turns[..i])), Arrived(before.stopped, turns[i].pipe));
  }

  lemma DropBefore<T>(a: seq<T>, b: seq<T>, i: nat)
    requires i <= |a|
    ensures a[i..] + b == (a + b)[i..]
  {
  }

  lemma ArrivedNext(stopped: bool, turns: seq<Turn>, i: nat)
    requires i < |turns|
    ensures Arrived(stopped, Pipes(turns[..i + 1]))
         == Arrived(stopped, Pipes(turns[..i])) + Arrived(Ends(stopped, Pipes(turns[..i])), turns[i].pipe)
  {
    assert turns[..i + 1][..i] == turns[..i];
    ArrivedConcat(stopped, Pipes(turns[..i]), turns[i].pipe);
  }

  lemma {:induction false} ArrivedConcat(stopped: bool, a: seq<ReadOutcome>, b: seq<ReadOutcome>)
    ensures Arrived(stopped, a + b) == Arrived(stopped, a) + Arrived(Ends(stopped, a), b)
  {
    if a == [] {
      assert a + b == b;
    } else {
      assert (a + b)[0] == a[0] && (a + b)[1..] == a[1..] + b;
      if !stopped && a[0].Data? && a[0].bytes != [] {
        ArrivedConcat(false, a[1..], b);
        EndsLater(a);
      } else {
        assert Ends(stopped, a);
      }
    }
  }

  /** The chunk of turn `i` is pulled. */
  lemma PulledTurn<F>(parse: Parser<F>, s: State<F>, turns: seq<Turn>, i: nat, before: State<F>, now: State<F>)
    requires i < |turns| && Reading(parse, s, turns, i, before) && Frames(parse, Seen(s, turns, i)) == []
    requires Conserved(parse, now) && Drained(s, turns, i, now)
    requires now.buffer == before.buffer && now.consumed == before.consumed && now.delivered == before.delivered
    requires !turns[i].expired
    ensures Pulls(s, turns, i) <==> !now.eof && now.queue != [] && now.queue[0].Some?
    ensures Pulls(s, turns, i) ==> Reading(parse, s, turns, i + 1, PullStep(now))
  {
    if Pulls(s, turns, i) {
      PullConserves(parse, now);
      PulledBytes(s, turns, i, now.consumed, now.buffer);
    }
  }

  lemma PulledBytes<F>(s: State<F>, turns: seq<Turn>, i: nat, consumed: seq<byte>, buffer: seq<byte>)
    requires Pulls(s, turns, i) && consumed + buffer == s.consumed + Seen(s, turns, i)
    ensures consumed + (buffer + Feed(s, turns[..i + 1])[i].value) == s.consumed + Seen(s, turns, i + 1)
  {
    var chunk := Feed(s, turns[..i + 1])[i].value;
    FeedGrows(s, turns, i + 1);
    SeenNext(s, turns, i, chunk);
    Associate(consumed, buffer, chunk);
    Associate(s.consumed, Seen(s, turns, i), chunk);
  }

  lemma DrainSplits(stopped: bool, pipe: seq<ReadOutcome>, i: nat)
    requires i < |pipe|
    ensures var more := !stopped && pipe[i].Data? && pipe[i].bytes != []; var rest := pipe[i + 1..];
            && Arrived(stopped, pipe[i..]) == (if more then pipe[i].bytes else []) + Arrived(!more, rest)
            && Entries(stopped, pipe[i..])
               == (if more then [Some(pipe[i].bytes)] else if stopped then [] else [None]) + Entries(!more, rest)
            && Ends(stopped, pipe[i..]) == Ends(!more, rest)
  {
    assert pipe[i..][0] == pipe[i] && pipe[i..][1..] == pipe[i + 1..];
    if pipe[i].Data? && pipe[i].bytes != [] {
      EndsLater(pipe[i..]);
    } else {
      assert Ends(false, pipe[i..]);
    }
  }

  lemma SeenNext<F>(s: State<F>, turns: seq<Turn>, i: nat, chunk: seq<byte>)
    requires i < |Feed(s, turns)| && Feed(s, turns)[i] == Some(chunk)
    ensures Seen(s, turns, i + 1) == Seen(s, turns, i) + chunk
  {
    var all := Feed(s, turns);
    assert all[..i + 1] == all[..i] + [all[i]];
    QueuedSnoc(all[..i], all[i]);
    Associate(s.buffer, Queued(all[..i]), chunk);
  }

  lemma FirstSeen<F>(parse: Parser<F>, s: State<F>, seen: seq<byte>, now: State<F>, frame: Option<F>)
    requires Conserved(parse, s) && Conserved(parse, now) && now.consumed + now.buffer == s.consumed + seen
    requires now.delivered == s.delivered + Single(frame) && (frame.None? ==> NEWLINE !in now.buffer)
    ensures frame.None? ==> Frames(parse, seen) == []
    ensures frame.Some? ==> Frames(parse, seen) != [] && Frames(parse, seen)[0] == frame.value
  {
    BufferedFrames(parse, s, seen, now);
    SameRest(s.delivered, Single(frame), Frames(parse, now.buffer), Frames(parse, seen));
  }

  lemma SameRest<T>(a: seq<T>, b: seq<T>, c: seq<T>, d: seq<T>)
    requires (a + b) + c == a + d
    ensures b + c == d
  {
    assert ((a + b) + c)[|a|..] == b + c && (a + d)[|a|..] == d;
  }

  /** What is delivered and what is still buffered are the frames of all bytes seen. */
  lemma BufferedFrames<F>(parse: Parser<F>, s: State<F>, seen: seq<byte>, now: State<F>)
    requires Conserved(parse, s) && Conserved(parse, now) && now.consumed + now.buffer == s.consumed + seen
    ensures now.delivered + Frames(parse, now.buffer) == s.delivered + Frames(parse, seen)
    ensures NEWLINE !in now.buffer ==> Frames(parse, now.buffer) == []
  {
    FramesConcat(parse, now.consumed, now.buffer);
    FramesConcat(parse, s.consumed, seen);
  }

  /** The bytes a run of pipe reads hands over before the producer stops. */
  function Arrived(stopped: bool, pipe: seq<ReadOutcome>): seq<byte> {
    if stopped || pipe == [] || !pipe[0].Data? || pipe[0].bytes == [] then []
    else pipe[0].bytes + Arrived(false, pipe[1..])
  }
}
