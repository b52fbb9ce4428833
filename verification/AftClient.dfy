/** Request/response correlation over the NDJSON stream: every request carries a fresh
    decimal id, and a call discards frames until one with its own id appears. */
module AftClient {
  import opened Basics
  import opened NdjsonStream
  import Decimal

  /** A parsed frame: its `id` (push frames have none) and the rest. */
  datatype Frame = Frame(id: Option<string>, body: seq<byte>)

  datatype Request = Request(id: string, command: string)

  datatype Failure = Timeout | Exited

  datatype Result<T> = Ok(value: T) | Err(error: Failure)

  // ----- the client as a step system, with an arbitrary honest server -----

  /** `sent` lists all requests; `wire` the frames emitted and not yet read, which the
      stream hands over in order and without loss; `dropped` the frames read and thrown
      away; `returned` the answers given to callers. */
  datatype ClientState = ClientState(
    sent: seq<Request>,
    waiting: bool,
    wire: seq<Frame>,
    dropped: seq<Frame>,
    returned: seq<(Request, Frame)>)

  datatype Event =
    | Call(command: string)
    | Emit(frame: Frame)
    | Read
    | GiveUp

  type Answers = (Request, Frame) -> bool

  /** A server tags a frame only with the id of a request it has received, and then the
      frame answers that request. Order, delay, repetition and pushes are free. */
  ghost predicate Honest(answers: Answers, sent: seq<Request>, frame: Frame) {
    frame.id.Some? ==> exists r :: r in sent && r.id == frame.id.value && answers(r, frame)
  }

  ghost predicate Enabled(answers: Answers, s: ClientState, e: Event) {
    match e
    case Call(_) => !s.waiting
    case Emit(frame) => Honest(answers, s.sent, frame)
    case Read => s.waiting && s.wire != []
    case GiveUp => s.waiting
  }

  function Current(s: ClientState): Request
    requires s.sent != []
  {
    s.sent[|s.sent| - 1]
  }

  ghost function Step(answers: Answers, s: ClientState, e: Event): ClientState
    requires Enabled(answers, s, e) && (s.waiting ==> s.sent != [])
  {
    match e
    case Call(command) => s.(sent := s.sent + [Request(Decimal.Str(|s.sent| + 1), command)], waiting := true)
    case Emit(frame) => s.(wire := s.wire + [frame])
    case Read =>
      if s.wire[0].id == Some(Current(s).id) then
        s.(wire := s.wire[1..], waiting := false, returned := s.returned + [(Current(s), s.wire[0])])
      else
        s.(wire := s.wire[1..], dropped := s.dropped + [s.wire[0]])
    case GiveUp => s.(waiting := false)
  }

  const START := ClientState([], false, [], [], [])

  /** `s` is reached from the start by `events`, each enabled when it happens. */
  ghost predicate Reaches(answers: Answers, events: seq<Event>, s: ClientState)
    decreases |events|
  {
    if events == [] then s == START
    else exists before ::
      && Reaches(answers, events[..|events| - 1], before)
      && Enabled(answers, before, events[|events| - 1])
      && (before.waiting ==> before.sent != [])
      && s == Step(answers, before, events[|events| - 1])
  }

  ghost predicate Invariant(answers: Answers, s: ClientState) {
    && (s.waiting ==> s.sent != [])
    && (forall i :: 0 <= i < |s.sent| ==> s.sent[i].id == Decimal.Str(i + 1))
    && (forall f :: f in s.wire || f in s.dropped ==> Honest(answers, s.sent, f))
    && (forall f :: f in s.dropped && s.waiting ==> f.id != Some(Current(s).id))
    && (forall p :: p in s.returned ==> p.1.id == Some(p.0.id) && answers(p.0, p.1) && p.0 in s.sent)
  }

  /** Ids are never reused, so a tag identifies one request. */
  lemma IdsIdentify(answers: Answers, s: ClientState, r: Request, q: Request)
    requires Invariant(answers, s) && r in s.sent && q in s.sent && r.id == q.id
    ensures r == q
  {
    var i :| 0 <= i < |s.sent| && s.sent[i] == r;
    var j :| 0 <= j < |s.sent| && s.sent[j] == q;
    Decimal.StrInjective(i + 1, j + 1);
  }

  lemma TaggedAnswers(answers: Answers, s: ClientState, f: Frame, r: Request)
    requires Invariant(answers, s) && Honest(answers, s.sent, f)
    requires r in s.sent && f.id == Some(r.id)
    ensures answers(r, f)
  {
    var q :| q in s.sent && q.id == f.id.value && answers(q, f);
    IdsIdentify(answers, s, q, r);
  }

  /** A new request's id appears on no frame seen so far. */
  lemma FreshId(answers: Answers, s: ClientState, f: Frame)
    requires Invariant(answers, s) && Honest(answers, s.sent, f)
    ensures f.id != Some(Decimal.Str(|s.sent| + 1))
  {
    if f.id.Some? {
      var q :| q in s.sent && q.id == f.id.value && answers(q, f);
      var i :| 0 <= i < |s.sent| && s.sent[i] == q;
      if q.id == Decimal.Str(|s.sent| + 1) {
        Decimal.StrInjective(i + 1, |s.sent| + 1);
      }
    }
  }

  lemma HonestGrows(answers: Answers, sent: seq<Request>, r: Request, f: Frame)
    requires Honest(answers, sent, f)
    ensures Honest(answers, sent + [r], f)
  {
    if f.id.Some? {
      var q :| q in sent && q.id == f.id.value && answers(q, f);
      assert q in sent + [r];
    }
  }

  lemma StepKeepsInvariant(answers: Answers, s: ClientState, e: Event)
    requires Invariant(answers, s) && Enabled(answers, s, e)
    ensures Invariant(answers, Step(answers, s, e))
  {
    match e
    case Call(command) =>
      var r := Request(Decimal.Str(|s.sent| + 1), command);
      forall f | f in s.wire || f in s.dropped
        ensures Honest(answers, s.sent + [r], f) && f.id != Some(r.id)
      {
        HonestGrows(answers, s.sent, r, f);
        FreshId(answers, s, f);
      }
    case Emit(frame) =>
    case Read =>
      if s.wire[0].id == Some(Current(s).id) {
        TaggedAnswers(answers, s, s.wire[0], Current(s));
      }
    case GiveUp =>
  }

  /** In every run against an honest server, each frame returned to a caller answers that
      caller's own request, however late, repeated or interleaved the frames are; and
      while a call waits, no frame meant for it has been thrown away. */
  lemma {:induction false} CallerSeesOwnReply(answers: Answers, events: seq<Event>, s: ClientState)
    requires Reaches(answers, events, s)
    ensures Invariant(answers, s)
    ensures forall p :: p in s.returned ==> answers(p.0, p.1)
    ensures s.waiting ==> forall f :: f in s.dropped ==> f.id != Some(Current(s).id)
    decreases |events|
  {
    if events != [] {
      var prefix := events[..|events| - 1];
      var before :|
        && Reaches(answers, prefix, before)
        && Enabled(answers, before, events[|events| - 1])
        && (before.waiting ==> before.sent != [])
        && s == Step(answers, before, events[|events| - 1]);
      CallerSeesOwnReply(answers, prefix, before);
      StepKeepsInvariant(answers, before, events[|events| - 1]);
    }
  }

  // ----- the client class -----

  /** One turn of the receive loop: has the process exited, and what the 0.1 s read saw. */
  datatype Poll = Poll(exited: bool, turns: seq<Turn>)

  predicate Tagged(frame: Option<Frame>, id: string) { frame.Some? && frame.value.id == Some(id) }

  /** A relation between a state, the turns of a read, the state after it and its result. */
  type Reader = (State<Frame>, seq<Turn>, State<Frame>, Option<Frame>) -> bool

  /** It holds of every read of the stream. */
  ghost predicate Covers(reader: Reader, parse: Parser<Frame>) {
    forall s, turns, n: nat, now, frame :: ReadDone(parse, s, turns, n, now, frame) ==> reader(s, turns, now, frame)
  }

  /** One read per poll, each starting where the one before ended, and no poll so far has
      found the process gone. */
  ghost predicate PolledTo(reader: Reader, polls: seq<Poll>, states: seq<State<Frame>>, read: seq<Option<Frame>>) {
    && |read| <= |polls| && |states| == |read| + 1
    && var last := |read| - 1;
    && (read != [] ==>
          && PolledTo(reader, polls, states[..last + 1], read[..last])
          && !polls[last].exited && reader(states[last], polls[last].turns, states[last + 1], read[last]))
  }

  lemma PolledNext(reader: Reader, polls: seq<Poll>, states: seq<State<Frame>>, read: seq<Option<Frame>>,
                   now: State<Frame>, frame: Option<Frame>)
    requires PolledTo(reader, polls, states, read) && |read| < |polls| && !polls[|read|].exited
    requires reader(states[|read|], polls[|read|].turns, now, frame)
    ensures PolledTo(reader, polls, states + [now], read + [frame])
  {
    assert (states + [now])[..|read| + 1] == states && (read + [frame])[..|read|] == read;
  }

  /** The frame a poll reads is the first to complete in time, if any does. */
  ghost predicate Sees(parse: Parser<Frame>, s: State<Frame>, turns: seq<Turn>, frame: Option<Frame>) {
    && (frame.Some? <==> exists m: nat :: InTime(parse, s, turns, m))
    && (frame.Some? ==> var all := Frames(parse, s.buffer + Queued(Feed(s, turns))); all != [] && frame == Some(all[0]))
  }

  ghost function Seeing(parse: Parser<Frame>): Reader { (s, turns, now, frame) => Sees(parse, s, turns, frame) }

  lemma SeeingCovers(parse: Parser<Frame>)
    ensures Covers(Seeing(parse), parse)
  {
    forall s, turns, n: nat, now, frame | ReadDone(parse, s, turns, n, now, frame)
      ensures Seeing(parse)(s, turns, now, frame)
    {
      ReadSees(parse, s, turns, n, now, frame);
    }
  }

  lemma ReadSees(parse: Parser<Frame>, s: State<Frame>, turns: seq<Turn>, n: nat, now: State<Frame>, frame: Option<Frame>)
    requires ReadDone(parse, s, turns, n, now, frame)
    ensures Sees(parse, s, turns, frame)
  {
    ReadIffInTime(parse, s, turns, n, frame);
  }

  /** How the polls end: with the first reply that carries the id, at the first poll that
      finds the process gone, or when they are over. */
  ghost predicate Answered(polls: seq<Poll>, id: string, read: seq<Option<Frame>>, r: Result<Frame>) {
    && |read| <= |polls|
    && match r
       case Ok(frame) =>
         && read != [] && read[|read| - 1] == Some(frame) && frame.id == Some(id)
         && Untagged(read[..|read| - 1], id)
       case Err(Timeout) => |read| == |polls| && Untagged(read, id)
       case Err(Exited) => |read| < |polls| && polls[|read|].exited && Untagged(read, id)
  }

  ghost predicate Untagged(read: seq<Option<Frame>>, id: string) {
    forall i :: 0 <= i < |read| ==> !Tagged(read[i], id)
  }

  /** So far no poll has brought the reply. */
  ghost predicate Polling(reader: Reader, polls: seq<Poll>, id: string, start: State<Frame>, states: seq<State<Frame>>,
                          read: seq<Option<Frame>>, skipped: seq<Frame>, now: State<Frame>)
  {
    && PolledTo(reader, polls, states, read) && Untagged(read, id) && NoneTagged(skipped, id)
    && states[0] == start && states[|read|] == now && now.delivered == start.delivered + skipped
  }

  lemma PollingNext(reader: Reader, polls: seq<Poll>, id: string, start: State<Frame>, states: seq<State<Frame>>,
                    read: seq<Option<Frame>>, skipped: seq<Frame>, now: State<Frame>, frame: Option<Frame>)
    requires PolledTo(reader, polls, states, read) && Untagged(read, id) && NoneTagged(skipped, id)
    requires states[0] == start && states[|read|].delivered == start.delivered + skipped
    requires PolledTo(reader, polls, states + [now], read + [frame])
    requires now.delivered == states[|read|].delivered + Single(frame) && !Tagged(frame, id)
    ensures Polling(reader, polls, id, start, states + [now], read + [frame], skipped + Single(frame), now)
  {
    Associate(start.delivered, skipped, Single(frame));
  }

  ghost predicate NoneTagged(frames: seq<Frame>, id: string) {
    forall i :: 0 <= i < |frames| ==> frames[i].id != Some(id)
  }

  class AftClient {
    const stream: NdjsonStream<Frame>
    var nextId: nat
    var sent: seq<Request>

    ghost predicate Valid()
      reads this, stream
    {
      stream.Valid() && |sent| == nextId && forall i :: 0 <= i < nextId ==> sent[i].id == Decimal.Str(i + 1)
    }

    constructor (stream: NdjsonStream<Frame>)
      requires stream.Valid()
      ensures this.stream == stream && Valid() && sent == []
    {
      this.stream := stream;
      nextId := 0;
      sent := [];
    }

    method ReadOnce(turns: seq<Turn>, ghost reader: Reader) returns (frame: Option<Frame>)
      requires stream.Valid() && Covers(reader, stream.parse)
      modifies stream
      ensures stream.Valid() && stream.delivered == old(stream.delivered) + Single(frame)
      ensures reader(old(stream.Model()), turns, stream.Model(), frame)
    {
      ghost var n;
      frame, n := stream.ReadFrame(turns);
    }

    /** Read until a frame carries `id`. What was read is exactly the untagged-for-us
        frames followed, on success, by the reply. It gives up only after a read at every
        poll, and reports an exit only at a poll that finds one. */
    method RecvResponse(id: string, polls: seq<Poll>, ghost reader: Reader)
      returns (r: Result<Frame>, ghost skipped: seq<Frame>, ghost states: seq<State<Frame>>, ghost read: seq<Option<Frame>>)
      requires stream.Valid() && Covers(reader, stream.parse)
      modifies stream
      ensures stream.Valid() && NoneTagged(skipped, id)
      ensures r.Ok? ==> r.value.id == Some(id) && stream.delivered == old(stream.delivered) + skipped + [r.value]
      ensures r.Err? ==> stream.delivered == old(stream.delivered) + skipped
      ensures PolledTo(reader, polls, states, read) && states[0] == old(stream.Model())
      ensures Answered(polls, id, read, r)
    {
      skipped, states, read := [], [stream.Model()], [];
      ghost var start := stream.Model();
      for i := 0 to |polls|
        invariant stream.Valid() && |read| == i
        invariant Polling(reader, polls, id, start, states, read, skipped, stream.Model())
      {
        if polls[i].exited {
          r := Err(Exited);
          return;
        }
        var frame := ReadOnce(polls[i].turns, reader);
        PolledNext(reader, polls, states, read, stream.Model(), frame);
        if Tagged(frame, id) {
          r, states, read := Ok(frame.value), states + [stream.Model()], read + [frame];
          return;
        }
        PollingNext(reader, polls, id, start, states, read, skipped, stream.Model(), frame);
        states, read, skipped := states + [stream.Model()], read + [frame], skipped + Single(frame);
      }
      r := Err(Timeout);
    }

    /** Send one request under a fresh id and wait for its reply. */
    method Call(command: string, polls: seq<Poll>, ghost answers: Answers, ghost reader: Reader)
      returns (r: Result<Frame>, ghost skipped: seq<Frame>, ghost states: seq<State<Frame>>, ghost read: seq<Option<Frame>>)
      requires Valid() && Covers(reader, stream.parse)
      modifies this, stream
      ensures Valid()
      ensures sent == old(sent) + [Request(Decimal.Str(nextId), command)]
      ensures forall q :: q in old(sent) ==> q.id != Decimal.Str(nextId)
      ensures NoneTagged(skipped, Decimal.Str(nextId))
      ensures r.Ok? ==> r.value.id == Some(Decimal.Str(nextId))
                        && stream.delivered == old(stream.delivered) + skipped + [r.value]
      ensures r.Err? ==> stream.delivered == old(stream.delivered) + skipped
      ensures PolledTo(reader, polls, states, read) && states[0] == old(stream.Model())
      ensures Answered(polls, Decimal.Str(nextId), read, r)
      ensures r.Ok? && Honest(answers, sent, r.value) ==> answers(sent[nextId - 1], r.value)
    {
      nextId := nextId + 1;
      var id := Decimal.Str(nextId);
      forall i | 0 <= i < |sent| ensures sent[i].id != id {
        if sent[i].id == id {
          Decimal.StrInjective(i + 1, nextId);
        }
      }
      sent := sent + [Request(id, command)];
      r, skipped, states, read := RecvResponse(id, polls, reader);
    }
  }
}
