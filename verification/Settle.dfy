/** Waiting for the semantic index to settle: poll its status until it has shown one
    ready, idle state at its highest entry count for five seconds. */
module Settle {
  import opened Basics

  /** What a status reply says of the semantic index; a reply without it is all None. */
  datatype Status = Status(status: Option<string>, entries: Option<int>, refreshing: Option<int>)

  datatype Poll = Poll(now: real, state: Status)

  datatype Outcome = Settled(seconds: real, entries: Option<int>) | TimedOut | StillPolling

  const QUIET_SECONDS := 5.0
  const GIVE_UP_SECONDS := 900.0

  function Max(a: real, b: real): real { if a >= b then a else b }

  predicate Idle(s: Status) {
    s.status == Some("ready") && (s.refreshing == None || s.refreshing == Some(0))
  }

  /** The largest entry count among the first `n` polls, 0 if there is none. */
  function Peak(polls: seq<Poll>, n: nat): int
    requires n <= |polls|
  {
    if n == 0 then 0
    else
      var before := Peak(polls, n - 1);
      match polls[n - 1].state.entries
      case None => before
      case Some(e) => if e > before then e else before
  }

  lemma {:induction false} PeakGrows(polls: seq<Poll>, m: nat, n: nat)
    requires m <= n <= |polls|
    ensures Peak(polls, m) <= Peak(polls, n)
    ensures forall i, e :: m <= i < n && polls[i].state.entries == Some(e) ==> e <= Peak(polls, n)
  {
    if m < n {
      PeakGrows(polls, m, n - 1);
    }
  }

  // ----- specification -----

  /** Poll `i` is ready and idle, at the highest entry count seen up to then. */
  predicate QuietAt(polls: seq<Poll>, i: nat)
    requires i < |polls|
  {
    && polls[i].state.status == Some("ready") && polls[i].state.refreshing in {None, Some(0)}
    && polls[i].state.entries == Some(Peak(polls, i + 1))
  }

  /** Polls `j` to `i` all showed the state of poll `i`, which is quiet. */
  ghost predicate Calm(polls: seq<Poll>, j: nat, i: nat)
    requires i < |polls|
  {
    j <= i && QuietAt(polls, i) && forall m :: j <= m <= i ==> polls[m].state == polls[i].state
  }

  /** At poll `i` the index has been calm for five seconds and the minimum wait is over. */
  ghost predicate SettledAt(polls: seq<Poll>, started: real, minimum: real, i: nat)
    requires i < |polls|
  {
    && polls[i].now - started >= minimum
    && exists j: nat :: j <= i && Calm(polls, j, i) && polls[i].now - polls[j].now >= QUIET_SECONDS
  }

  predicate LateAt(polls: seq<Poll>, started: real, minimum: real, i: nat)
    requires i < |polls|
  {
    polls[i].now - started > GIVE_UP_SECONDS && polls[i].now - started > minimum + GIVE_UP_SECONDS
  }

  ghost predicate Monotone(polls: seq<Poll>) {
    forall i, j :: 0 <= i < j < |polls| ==> polls[i].now <= polls[j].now
  }

  /** Every poll comes at least half a second, the sleep, after the previous one. */
  ghost predicate Advances(polls: seq<Poll>, started: real) {
    && (polls != [] ==> polls[0].now >= started)
    && forall i :: 0 < i < |polls| ==> polls[i].now >= polls[i - 1].now + 0.5
  }

  /** `n` sleeps are longer than the wait may last. */
  predicate Exceeds(n: nat, minimum: real) {
    n as real * 0.5 > GIVE_UP_SECONDS && n as real * 0.5 > minimum + GIVE_UP_SECONDS
  }

  // ----- what the loop variables mean -----

  /** `since` is where the calm run that ends at poll `i` began, if poll `i` is quiet. */
  ghost predicate Tracks(polls: seq<Poll>, i: nat, stableSince: Option<real>, since: nat)
    requires i < |polls|
  {
    && (stableSince.Some? <==> QuietAt(polls, i))
    && (stableSince.Some? ==>
          && since <= i && Calm(polls, since, i) && stableSince.value == polls[since].now
          && (since > 0 ==> polls[since - 1].state != polls[i].state))
  }

  /** A state that was not quiet does not become quiet by being seen again. */
  lemma SameStateSameQuiet(polls: seq<Poll>, i: nat)
    requires i + 1 < |polls| && polls[i + 1].state == polls[i].state
    ensures QuietAt(polls, i + 1) <==> QuietAt(polls, i)
  {
    PeakGrows(polls, i, i + 1);
  }

  /** The tracked run is the longest, so five calm seconds exist iff it is that long. */
  lemma TrackedIffSettled(polls: seq<Poll>, started: real, minimum: real, i: nat, stableSince: Option<real>, since: nat)
    requires i < |polls| && Monotone(polls) && Tracks(polls, i, stableSince, since)
    ensures SettledAt(polls, started, minimum, i)
            <==> stableSince.Some? && polls[i].now - stableSince.value >= QUIET_SECONDS && polls[i].now - started >= minimum
  {
    if SettledAt(polls, started, minimum, i) {
      var j: nat :| j <= i && Calm(polls, j, i) && polls[i].now - polls[j].now >= QUIET_SECONDS;
      assert since > 0 ==> polls[since - 1].state != polls[i].state;
      assert since == j || polls[since].now <= polls[j].now;
    }
  }

  /** Returns at the first settled poll, raises at the first late one before that, and
      otherwise keeps polling. `at` counts the polls before the deciding one. */
  method Settle(polls: seq<Poll>, started: real, minimum: real) returns (r: Outcome, at: nat)
    requires Monotone(polls)
    ensures at <= |polls|
    ensures forall i :: 0 <= i < at ==> !SettledAt(polls, started, minimum, i) && !LateAt(polls, started, minimum, i)
    ensures r.Settled? ==> at < |polls| && SettledAt(polls, started, minimum, at)
                           && r == Settled(polls[at].now - started, Some(Peak(polls, at + 1)))
    ensures r.TimedOut? ==> at < |polls| && !SettledAt(polls, started, minimum, at) && LateAt(polls, started, minimum, at)
    ensures r.StillPolling? ==> at == |polls|
    ensures Advances(polls, started) ==>
              forall n: nat :: n < |polls| && Exceeds(n, minimum) ==> at <= n && !r.StillPolling?
  {
    if Advances(polls, started) {
      forall n: nat | n < |polls| && Exceeds(n, minimum)
        ensures LateAt(polls, started, minimum, n)
      {
        LateByThen(polls, started, minimum, n);
      }
    }
    var stableSince: Option<real> := None;
    var last := Status(None, None, None);
    var peak := 0;
    ghost var since := 0;
    at := 0;
    while at < |polls|
      invariant 0 <= at <= |polls| && peak == Peak(polls, at)
      invariant at == 0 ==> stableSince == None && last == Status(None, None, None)
      invariant at > 0 ==> last == polls[at - 1].state && Tracks(polls, at - 1, stableSince, since)
      invariant forall i :: 0 <= i < at ==> !SettledAt(polls, started, minimum, i) && !LateAt(polls, started, minimum, i)
    {
      var current, now := polls[at].state, polls[at].now;
      if current.entries.Some? && current.entries.value > peak {
        peak := current.entries.value;
      }
      var quiet := Idle(current) && current.entries == Some(peak);
      if at > 0 && current == last {
        SameStateSameQuiet(polls, at - 1);
      }
      if current != last || !quiet {
        stableSince := if quiet then Some(now) else None;
        last := current;
        since := at;
      }
      TrackedIffSettled(polls, started, minimum, at, stableSince, since);
      if stableSince.Some? && now - stableSince.value >= QUIET_SECONDS && now - started >= minimum {
        return Settled(now - started, current.entries), at;
      }
      if now - started > Max(minimum, 0.0) + GIVE_UP_SECONDS {
        return TimedOut, at;
      }
      at := at + 1;
    }
    return StillPolling, at;
  }

  /** The wait is over exactly when the minimum has passed and every poll of a window of at
      least five seconds saw one and the same ready, idle state, whose entry count is the
      largest of the whole run. */
  lemma SettledMeans(polls: seq<Poll>, started: real, minimum: real, at: nat)
    requires at < |polls|
    ensures SettledAt(polls, started, minimum, at) <==>
            && polls[at].now - started >= minimum
            && exists j: nat, e: nat :: j <= at && OneState(polls, j, at, e) && polls[at].now - polls[j].now >= 5.0
  {
    if SettledAt(polls, started, minimum, at) {
      var j: nat :| j <= at && Calm(polls, j, at) && polls[at].now - polls[j].now >= QUIET_SECONDS;
      PeakGrows(polls, 0, at + 1);
      assert OneState(polls, j, at, Peak(polls, at + 1));
    }
    if j: nat, e: nat :| j <= at && OneState(polls, j, at, e) && polls[at].now - polls[j].now >= 5.0 {
      PeakIs(polls, at + 1, at, e);
      assert Calm(polls, j, at);
    }
  }

  /** The peak is attained: an entry count no poll exceeds is it. */
  lemma PeakIs(polls: seq<Poll>, n: nat, at: nat, e: nat)
    requires at < n <= |polls| && polls[at].state.entries == Some(e)
    requires forall m, f :: 0 <= m < n && polls[m].state.entries == Some(f) ==> f <= e
    ensures Peak(polls, n) == e
  {
    PeakGrows(polls, 0, n);
    PeakAtMost(polls, n, e);
  }

  lemma {:induction false} PeakAtMost(polls: seq<Poll>, n: nat, e: nat)
    requires n <= |polls| && forall m, f :: 0 <= m < n && polls[m].state.entries == Some(f) ==> f <= e
    ensures Peak(polls, n) <= e
  {
    if n > 0 {
      PeakAtMost(polls, n - 1, e);
    }
  }

  ghost predicate OneState(polls: seq<Poll>, j: nat, at: nat, entries: int)
    requires at < |polls|
  {
    && polls[at].state.status == Some("ready") && polls[at].state.refreshing in {None, Some(0)}
    && polls[at].state.entries == Some(entries)
    && (forall m :: j <= m <= at ==> polls[m].state == polls[at].state)
    && (forall m, f :: 0 <= m <= at && polls[m].state.entries == Some(f) ==> f <= entries)
  }

  /** If every poll is at least half a second after the previous one, a poll past that many
      sleeps is late. */
  lemma LateByThen(polls: seq<Poll>, started: real, minimum: real, n: nat)
    requires n < |polls| && Exceeds(n, minimum) && Advances(polls, started)
    ensures LateAt(polls, started, minimum, n)
  {
    ClockAdvances(polls, started, n);
  }

  lemma {:induction false} ClockAdvances(polls: seq<Poll>, started: real, n: nat)
    requires n < |polls| && Advances(polls, started)
    ensures polls[n].now >= started + n as real * 0.5
  {
    if n > 0 {
      ClockAdvances(polls, started, n - 1);
    }
  }
}
