/** The measurement broker's transport: lines on two pipes, without ids, so a reply is
    matched to a request only by counting. A failed call leaves one reply outstanding; the
    poison flag keeps a late reply from being taken for the answer to another request. */
module Broker {
  import opened Basics
  import opened NdjsonStream

  datatype Failure = AlreadyFailed | Timeout | Exited | PipeError | BadJson

  datatype Result<T> = Ok(value: T) | Err(error: Failure)

  /** One turn of the read loop that found no full line: what `select` and `os.read` gave. */
  datatype Wait = Chunk(bytes: seq<byte>) | Quiet | Broken

  function Unlines(lines: seq<seq<byte>>): seq<byte> {
    if lines == [] then [] else lines[0] + [NEWLINE] + Unlines(lines[1..])
  }

  lemma {:induction false} UnlinesSnoc(lines: seq<seq<byte>>, line: seq<byte>)
    ensures Unlines(lines + [line]) == Unlines(lines) + line + [NEWLINE]
  {
    if lines == [] {
      assert (lines + [line])[1..] == [];
    } else {
      assert (lines + [line])[1..] == lines[1..] + [line];
      UnlinesSnoc(lines[1..], line);
    }
  }

  ghost predicate Clean(lines: seq<seq<byte>>) {
    forall i :: 0 <= i < |lines| ==> NEWLINE !in lines[i]
  }

  /** The bytes some waits brought. */
  function Brought(waits: seq<Wait>): seq<byte> {
    if waits == [] then []
    else
      var last := waits[|waits| - 1];
      Brought(waits[..|waits| - 1]) + if last.Chunk? then last.bytes else []
  }

  /** The first `n` waits begin without a full line and bring no end of the pipe. */
  ghost predicate Idle(buffer: seq<byte>, waits: seq<Wait>, n: nat)
    requires n <= |waits|
  {
    n > 0 ==>
      && Idle(buffer, waits, n - 1) && NEWLINE !in buffer + Brought(waits[..n - 1])
      && (waits[n - 1] == Quiet || (waits[n - 1].Chunk? && waits[n - 1].bytes != []))
  }

  /** How a read ends: at the first wait that begins with a full line, with that line; at the
      first that finds the pipe broken or at its end; and with a timeout exactly when the
      waits are over before that. */
  ghost predicate WaitEnds<V>(parse: seq<byte> -> Option<V>, buffer: seq<byte>, waits: seq<Wait>, at: nat, r: Result<V>) {
    && at <= |waits| && Idle(buffer, waits, at)
    && var bytes := buffer + Brought(waits[..at]);
    && (if at < |waits| && NEWLINE in bytes then
          r == match parse(bytes[..Cut(bytes)]) case None => Err(BadJson) case Some(v) => Ok(v)
        else r.Err? && Silence(buffer, waits, at, r.error))
  }

  /** Wait `at` ends a read without a line. */
  ghost predicate Silence(buffer: seq<byte>, waits: seq<Wait>, at: nat, failure: Failure)
    requires at <= |waits|
  {
    if at == |waits| then failure == Timeout
    else
      && NEWLINE !in buffer + Brought(waits[..at])
      && ((waits[at] == Broken && failure == PipeError) || (waits[at] == Chunk([]) && failure == Exited))
  }

  lemma BroughtNext(buffer: seq<byte>, waits: seq<Wait>, i: nat)
    requires i < |waits|
    ensures buffer + Brought(waits[..i + 1])
         == buffer + Brought(waits[..i]) + if waits[i].Chunk? then waits[i].bytes else []
  {
    assert waits[..i + 1][..i] == waits[..i];
  }

  // ----- the class -----

  class Broker<V> {
    const parse: seq<byte> -> Option<V>
    var failed: bool
    var greeted: bool
    var buffer: seq<byte>
    /** Histories: requests written, bytes read, lines cut off. */
    ghost var requests: seq<string>
    ghost var received: seq<byte>
    ghost var taken: seq<seq<byte>>

    /** Bytes are conserved, and an unpoisoned broker owes and is owed nothing: it has
        taken the greeting and exactly one line per request. */
    ghost predicate Valid()
      reads this
    {
      && received == Unlines(taken) + buffer
      && Clean(taken)
      && (!failed && greeted ==> |taken| == 1 + |requests|)
      && (!failed && !greeted ==> taken == [] && requests == [])
      && (failed ==> |taken| <= 1 + |requests| <= |taken| + 1)
    }

    constructor (parse: seq<byte> -> Option<V>)
      ensures Valid() && this.parse == parse && !failed && !greeted && requests == [] && received == []
    {
      this.parse := parse;
      failed, greeted, buffer, requests, received, taken := false, false, [], [], [], [];
    }

    /** Wait for one line. A line that is not JSON is still taken off the buffer. `at` counts
        the waits that brought neither a line nor an end. */
    method Read(waits: seq<Wait>) returns (r: Result<V>, ghost at: nat)
      requires received == Unlines(taken) + buffer && Clean(taken)
      modifies this`buffer, this`received, this`taken
      ensures received == Unlines(taken) + buffer && Clean(taken)
      ensures r.Ok? || r == Err(BadJson) ==>
                && |taken| == |old(taken)| + 1 && old(taken) <= taken
                && parse(taken[|taken| - 1]) == (if r.Ok? then Some(r.value) else None)
      ensures r.Err? && r.error != BadJson ==> taken == old(taken) && r.error != AlreadyFailed
      ensures WaitEnds(parse, old(buffer), waits, at, r)
    {
      var ready, failure;
      ready, failure, at := Await(waits);
      if !ready {
        r := Err(failure);
        return;
      }
      var line := TakeLine();
      match parse(line)
      case None => r := Err(BadJson);
      case Some(v) => r := Ok(v);
    }

    /** Wait until a line is complete. */
    method Await(waits: seq<Wait>) returns (ready: bool, failure: Failure, ghost at: nat)
      requires received == Unlines(taken) + buffer
      modifies this`buffer, this`received
      ensures received == Unlines(taken) + buffer
      ensures at <= |waits| && Idle(old(buffer), waits, at)
      ensures ready ==> at < |waits| && NEWLINE in buffer && buffer == old(buffer) + Brought(waits[..at])
      ensures !ready ==> Silence(old(buffer), waits, at, failure)
    {
      ready, failure, at := false, Timeout, 0;
      ghost var start := buffer;
      assert waits[..0] == [] && start + Brought([]) == start;
      for i := 0 to |waits|
        invariant received == Unlines(taken) + buffer
        invariant at == i && buffer == start + Brought(waits[..i]) && Idle(start, waits, i)
      {
        if NEWLINE in buffer {
          ready := true;
          return;
        }
        BroughtNext(start, waits, i);
        var end := Absorb(waits[i]);
        if end.Some? {
          failure := end.value;
          return;
        }
        at := at + 1;
      }
    }

    /** One wait for the pipe. */
    method Absorb(wait: Wait) returns (end: Option<Failure>)
      requires received == Unlines(taken) + buffer
      modifies this`buffer, this`received
      ensures received == Unlines(taken) + buffer
      ensures end == if wait == Broken then Some(PipeError) else if wait == Chunk([]) then Some(Exited) else None
      ensures buffer == old(buffer) + if wait.Chunk? then wait.bytes else []
    {
      match wait
      case Quiet =>
        return None;
      case Broken =>
        return Some(PipeError);
      case Chunk(bytes) =>
        if bytes == [] {
          return Some(Exited);
        }
        Associate(Unlines(taken), buffer, bytes);
        received, buffer := received + bytes, buffer + bytes;
        return None;
    }

    /** Cut the first line off the buffer. */
    method TakeLine() returns (line: seq<byte>)
      requires received == Unlines(taken) + buffer && Clean(taken) && NEWLINE in buffer
      modifies this`buffer, this`taken
      ensures received == Unlines(taken) + buffer && Clean(taken)
      ensures taken == old(taken) + [line] && line == old(buffer)[..Cut(old(buffer))]
    {
      CutStable(buffer, []);
      var at := Cut(buffer);
      line := buffer[..at];
      UnlinesSnoc(taken, line);
      DropLine(Unlines(taken), buffer, at);
      taken, buffer := taken + [line], buffer[at + 1..];
    }

    /** The identity line the broker sends first. Its failure makes the object unusable. */
    method Greet(waits: seq<Wait>) returns (r: Result<V>, ghost at: nat)
      requires Valid() && !failed && !greeted
      modifies this
      ensures Valid() && requests == [] && (failed <==> r.Err?) && (r.Ok? ==> greeted)
      ensures r.Ok? ==> parse(taken[0]) == Some(r.value)
      ensures WaitEnds(parse, old(buffer), waits, at, r)
    {
      r, at := Read(waits);
      failed, greeted := r.Err?, r.Ok?;
    }

    /** One request, one reply. */
    method Call(op: string, written: bool, waits: seq<Wait>) returns (r: Result<V>, ghost at: nat)
      requires Valid() && (greeted || failed)
      modifies this
      ensures Valid() && greeted == old(greeted)
      ensures old(failed) ==> r == Err(AlreadyFailed) && failed && requests == old(requests)
                              && taken == old(taken) && received == old(received)
      ensures !old(failed) ==> requests == old(requests) + [op]
      ensures !old(failed) ==> (failed <==> r.Err? && r.error != BadJson)
      ensures !failed ==> |taken| == |old(taken)| + 1 && old(taken) <= taken
      ensures !failed ==> parse(taken[|requests|]) == (if r.Ok? then Some(r.value) else None)
      ensures failed ==> taken == old(taken)
      ensures !old(failed) && !written ==> r == Err(PipeError) && received == old(received)
      ensures !old(failed) && written ==> WaitEnds(parse, old(buffer), waits, at, r)
      ensures r.Ok? ==> forall greeting, replies :: FifoServer(greeting, replies, |requests|, received) ==>
                          OwnReply(replies, |requests| - 1, parse, r.value)
    {
      at := 0;
      if failed {
        r := Err(AlreadyFailed);
        return;
      }
      r, at := Exchange(op, written, waits);
      if r.Ok? {
        forall greeting, replies | FifoServer(greeting, replies, |requests|, received)
          ensures OwnReply(replies, |requests| - 1, parse, r.value)
        {
          EveryReplyIsOurs(this, greeting, replies);
        }
      }
    }

    /** Write the request, read the reply, and remember a failure of the transport. */
    method Exchange(op: string, written: bool, waits: seq<Wait>) returns (r: Result<V>, ghost at: nat)
      requires Valid() && greeted && !failed
      modifies this
      ensures Valid() && greeted && requests == old(requests) + [op]
      ensures failed <==> r.Err? && r.error != BadJson
      ensures !failed ==> |taken| == |old(taken)| + 1 && old(taken) <= taken
      ensures !failed ==> parse(taken[|requests|]) == (if r.Ok? then Some(r.value) else None)
      ensures failed ==> taken == old(taken)
      ensures !written ==> r == Err(PipeError) && received == old(received)
      ensures written ==> WaitEnds(parse, old(buffer), waits, at, r)
    {
      at := 0;
      requests := requests + [op];
      if !written {
        failed := true;
        r := Err(PipeError);
        return;
      }
      r, at := Read(waits);
      if r.Err? && r.error != BadJson {
        failed := true;
      }
    }
  }

  lemma DropLine(head: seq<byte>, buffer: seq<byte>, at: nat)
    requires at < |buffer| && buffer[at] == NEWLINE
    ensures head + buffer == (head + buffer[..at] + [NEWLINE]) + buffer[at + 1..]
  {
  }

  // ----- matching by counting -----

  /** A reply line and the request it answers. */
  datatype Reply = Reply(to: nat, payload: seq<byte>)

  /** A server that greets, then answers requests in order, at most one line each, some
      perhaps never; `received` is what has come out of the pipe so far. */
  ghost predicate FifoServer(greeting: seq<byte>, replies: seq<Reply>, requests: nat, received: seq<byte>) {
    && received <= Unlines([greeting] + Payloads(replies))
    && Clean([greeting] + Payloads(replies))
    && (forall i :: 0 <= i < |replies| ==> replies[i].to < requests)
    && (forall i, j :: 0 <= i < j < |replies| ==> replies[i].to < replies[j].to)
  }

  /** `value` is what the reply to request `i` parses to. */
  ghost predicate OwnReply<V>(replies: seq<Reply>, i: int, parse: seq<byte> -> Option<V>, value: V) {
    0 <= i < |replies| && replies[i].to == i && parse(replies[i].payload) == Some(value)
  }

  function Payloads(replies: seq<Reply>): (r: seq<seq<byte>>)
    ensures |r| == |replies| && forall i :: 0 <= i < |r| ==> r[i] == replies[i].payload
  {
    seq(|replies|, i requires 0 <= i < |replies| => replies[i].payload)
  }

  /** Lines read off a prefix of a stream are the first lines of the stream. */
  lemma {:induction false} TakenArePrefix(taken: seq<seq<byte>>, buffer: seq<byte>, lines: seq<seq<byte>>)
    requires Clean(taken) && Clean(lines)
    requires Unlines(taken) + buffer <= Unlines(lines)
    ensures taken <= lines
  {
    if taken != [] {
      var rest := Unlines(taken[1..]) + buffer;
      Associate(taken[0] + [NEWLINE], Unlines(taken[1..]), buffer);
      assert Unlines(taken) + buffer == taken[0] + [NEWLINE] + rest;
      assert |Unlines(lines)| > 0;
      SameFirstLine(taken[0], rest, lines[0], Unlines(lines[1..]));
      TakenArePrefix(taken[1..], buffer, lines[1..]);
    }
  }

  lemma SameFirstLine(a: seq<byte>, x: seq<byte>, b: seq<byte>, y: seq<byte>)
    requires NEWLINE !in a && NEWLINE !in b
    requires a + [NEWLINE] + x <= b + [NEWLINE] + y
    ensures a == b && x <= y
  {
    var whole := b + [NEWLINE] + y;
    assert whole[|a|] == NEWLINE && whole[|b|] == NEWLINE;
    assert forall i :: 0 <= i < |a| ==> whole[i] == a[i] != NEWLINE;
    assert forall i :: 0 <= i < |b| ==> whole[i] == b[i] != NEWLINE;
    assert whole[|a| + 1..] == y;
  }

  /** n strictly increasing numbers below n are 0, 1, ..., n - 1. */
  lemma {:induction false} CountingDown(to: seq<nat>, n: nat, i: nat)
    requires i < n <= |to|
    requires forall i, j :: 0 <= i < j < n ==> to[i] < to[j]
    requires to[n - 1] < n
    ensures to[i] <= i
    decreases n - i
  {
    if i < n - 1 {
      CountingDown(to, n, i + 1);
    }
  }

  lemma {:induction false} CountingUp(to: seq<nat>, i: nat)
    requires i < |to| && forall i, j :: 0 <= i < j < |to| ==> to[i] < to[j]
    ensures to[i] >= i
  {
    if i > 0 {
      CountingUp(to, i - 1);
    }
  }

  /** The i-th line an unpoisoned broker has taken after the greeting, which is what its
      i-th call returned, is the reply to its i-th request. */
  lemma EveryReplyIsOurs<V>(b: Broker<V>, greeting: seq<byte>, replies: seq<Reply>)
    requires b.Valid() && b.greeted && !b.failed
    requires FifoServer(greeting, replies, |b.requests|, b.received)
    ensures |replies| == |b.requests| && |b.taken| == 1 + |b.requests| && b.taken[0] == greeting
    ensures forall i :: 0 <= i < |b.requests| ==> replies[i].to == i && b.taken[i + 1] == replies[i].payload
  {
    var lines := [greeting] + Payloads(replies);
    var n := |b.requests|;
    TakenArePrefix(b.taken, b.buffer, lines);
    var to := seq(|replies|, i requires 0 <= i < |replies| => replies[i].to);
    if n < |replies| {
      CountingUp(to, n);
      assert false;
    }
    forall i | 0 <= i < n ensures replies[i].to == i && b.taken[i + 1] == replies[i].payload {
      CountingUp(to, i);
      CountingDown(to, n, i);
      assert lines[i + 1] == replies[i].payload;
    }
  }
}
