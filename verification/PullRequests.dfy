/** Finding the pull request of a merge: a retry schedule for single API calls, inside a
    retry schedule for answers that do not name the pull request yet. */
module PullRequests {
  import opened Basics

  datatype Fault =
    | NotFullShas | CheckoutMismatch | BaseNotAncestor | UnknownRef | BaseNotOnChain
    | UnsupportedTopology(commit: string)
    | LookupFailed | RetriesExhausted(attempts: nat) | ReplyNotAList | PageFull(count: nat)
    | AmbiguousMember(matches: nat, attempts: nat)
    | DuplicateMember(number: nat) | RefMemberMismatch
    | BadBranch | DescriptorMatches(count: nat) | MalformedDescriptor | DescriptorOverwritten
    | GitFailed | Unresolved | MissingDescriptor(number: nat) | MultipleRanking

  datatype Result<+T> = Ok(value: T) | Err(fault: Fault)

  // ----- one API call -----

  /** What one attempt at an API call may yield. */
  datatype Reply<+T> = TimedOut | Failed(transient: bool) | BadJson | Json(value: T)

  predicate Retryable<T>(reply: Reply<T>) { reply.TimedOut? || reply.BadJson? || (reply.Failed? && reply.transient) }

  const API_BACKOFF: seq<nat> := [2, 5, 10, 20, 30]
  const LOOKUP_BACKOFF: seq<nat> := [5, 10, 15, 30]
  const PAGE_SIZE := 100

  function Sum(s: seq<nat>): nat { if s == [] then 0 else Sum(s[..|s| - 1]) + s[|s| - 1] }

  /** A call costs attempts and seconds slept between them. */
  datatype Cost = Cost(calls: nat, seconds: nat)

  function Plus(a: Cost, b: Cost): Cost { Cost(a.calls + b.calls, a.seconds + b.seconds) }

  predicate AtMost(a: Cost, b: Cost) { a.calls <= b.calls && a.seconds <= b.seconds }

  /** The replies the attempts of one call would get, in order. */
  type Attempts<T> = seq<Reply<T>>

  /** The first reply that is not retried decides; when all are retried the call fails. */
  function Outcome<T>(replies: Attempts<T>, total: nat): Result<T> {
    if replies == [] then Err(RetriesExhausted(total))
    else if Retryable(replies[0]) then Outcome(replies[1..], total)
    else if replies[0].Json? then Ok(replies[0].value)
    else Err(LookupFailed)
  }

  lemma {:induction false} SumPrefix(s: seq<nat>, k: nat)
    requires k <= |s|
    ensures Sum(s[..k]) <= Sum(s)
  {
    if k == |s| {
      assert s[..k] == s;
    } else {
      SumPrefix(s[..|s| - 1], k);
      assert s[..|s| - 1][..k] == s[..k];
    }
  }

  lemma SumNext(s: seq<nat>, k: nat)
    requires k < |s|
    ensures Sum(s[..k + 1]) == Sum(s[..k]) + s[k]
  {
    assert s[..k + 1][..k] == s[..k];
  }

  lemma Backoffs()
    ensures Sum(API_BACKOFF) == 67 && Sum(LOOKUP_BACKOFF) == 60
  {
    var a, b := API_BACKOFF, LOOKUP_BACKOFF;
    assert a[..5] == a && b[..4] == b;
    SumNext(a, 0);
    SumNext(a, 1);
    SumNext(a, 2);
    SumNext(a, 3);
    SumNext(a, 4);
    SumNext(b, 0);
    SumNext(b, 1);
    SumNext(b, 2);
    SumNext(b, 3);
  }

  const API_LIMIT := Cost(6, 67)

  /** One call: it tries until a reply is not worth retrying or six were, and sleeps the
      listed seconds before every attempt but the first. */
  method GhApiJson<T>(replies: Attempts<T>) returns (r: Result<T>, cost: Cost)
    requires |replies| == |API_BACKOFF| + 1
    ensures r == Outcome(replies, |replies|) && AtMost(cost, API_LIMIT)
    ensures 1 <= cost.calls <= 6 && cost.seconds == Sum(API_BACKOFF[..cost.calls - 1])
    ensures forall i :: 0 <= i < cost.calls - 1 ==> Retryable(replies[i])
    ensures cost.calls < 6 ==> !Retryable(replies[cost.calls - 1])
  {
    var attempts := |API_BACKOFF| + 1;
    var attempt := 1;
    cost := Cost(0, 0);
    Backoffs();
    assert replies[0..] == replies;
    while true
      invariant 1 <= attempt <= attempts
      invariant Outcome(replies[attempt - 1..], attempts) == Outcome(replies, attempts)
      invariant cost == Cost(attempt - 1, Sum(API_BACKOFF[..attempt - 1]))
      invariant forall i :: 0 <= i < attempt - 1 ==> Retryable(replies[i])
      decreases attempts - attempt
    {
      var reply := replies[attempt - 1];
      assert replies[attempt - 1..][1..] == replies[attempt..];
      cost := cost.(calls := cost.calls + 1);
      SumPrefix(API_BACKOFF, attempt - 1);
      if reply.Json? {
        return Ok(reply.value), cost;
      }
      if reply.Failed? && !reply.transient {
        return Err(LookupFailed), cost;
      }
      if attempt == attempts {
        return Err(RetriesExhausted(attempts)), cost;
      }
      SumNext(API_BACKOFF, attempt - 1);
      cost := cost.(seconds := cost.seconds + API_BACKOFF[attempt - 1]);
      attempt := attempt + 1;
    }
  }

  // ----- the pull request of a merged head -----

  datatype PullRequest = PullRequest(number: nat, headSha: string, headRef: string, baseRef: string, baseRepo: string)

  /** The answer to a search by commit: a list, or something else. */
  datatype Page = NotAList | Page(prs: seq<PullRequest>)

  function PageOutcome(page: Page): Result<seq<PullRequest>> {
    match page
    case NotAList => Err(ReplyNotAList)
    case Page(prs) => if |prs| >= PAGE_SIZE then Err(PageFull(|prs|)) else Ok(prs)
  }

  function LookupOutcome(replies: Attempts<Page>): Result<seq<PullRequest>> {
    match Outcome(replies, |replies|)
    case Err(fault) => Err(fault)
    case Ok(page) => PageOutcome(page)
  }

  /** The attempt that decides a call: the first one not retried. */
  ghost predicate DecidesAt<T>(replies: Attempts<T>, k: nat, reply: Reply<T>) {
    k < |replies| && replies[k] == reply && !Retryable(reply) && forall i :: 0 <= i < k ==> Retryable(replies[i])
  }

  ghost predicate Decided<T>(replies: Attempts<T>, reply: Reply<T>) { exists k: nat :: DecidesAt(replies, k, reply) }

  lemma DecidedLater<T>(replies: Attempts<T>, reply: Reply<T>)
    requires replies != [] && Retryable(replies[0])
    ensures Decided(replies, reply) <==> Decided(replies[1..], reply)
  {
    var more := replies[1..];
    if k: nat :| DecidesAt(replies, k, reply) {
      assert k > 0;
      assert forall i :: 0 <= i < k - 1 ==> more[i] == replies[i + 1];
      assert DecidesAt(more, k - 1, reply);
    }
    if k: nat :| DecidesAt(more, k, reply) {
      assert forall i :: 1 <= i < k + 1 ==> replies[i] == more[i - 1];
      assert DecidesAt(replies, k + 1, reply);
    }
  }

  /** The outcome of a call is what the deciding reply says, or exhaustion without one. */
  lemma {:induction false} OutcomeIff<T>(replies: Attempts<T>, total: nat, reply: Reply<T>)
    requires !Retryable(reply)
    ensures Decided(replies, reply) <==>
            Outcome(replies, total) == if reply.Json? then Ok(reply.value) else Err(LookupFailed)
  {
    if replies != [] {
      if Retryable(replies[0]) {
        OutcomeIff(replies[1..], total, reply);
        DecidedLater(replies, reply);
      } else {
        assert DecidesAt(replies, 0, replies[0]);
        assert Decided(replies, reply) ==> reply == replies[0];
      }
    }
  }

  lemma {:induction false} ExhaustedIff<T>(replies: Attempts<T>, total: nat)
    ensures Outcome(replies, total) == Err(RetriesExhausted(total)) <==>
            forall i :: 0 <= i < |replies| ==> Retryable(replies[i])
  {
    if replies != [] {
      ExhaustedIff(replies[1..], total);
      assert forall i :: 1 <= i < |replies| ==> replies[i] == replies[1..][i - 1];
    }
  }

  /** A search answers `prs` exactly when the attempt that decides it brings that list and
      the list is shorter than a page. It refuses exactly a full page, a reply that is no
      list, a definite failure, and attempts that all fail for the moment. */
  lemma LookupIff(replies: Attempts<Page>, prs: seq<PullRequest>)
    ensures LookupOutcome(replies) == Ok(prs) <==> |prs| < PAGE_SIZE && Decided(replies, Json(Page(prs)))
    ensures |prs| >= PAGE_SIZE && Decided(replies, Json(Page(prs))) ==>
              LookupOutcome(replies) == Err(PageFull(|prs|))
    ensures LookupOutcome(replies) == Err(ReplyNotAList) <==> Decided(replies, Json(NotAList))
    ensures LookupOutcome(replies) == Err(LookupFailed) <==> Decided(replies, Failed(false))
    ensures LookupOutcome(replies) == Err(RetriesExhausted(|replies|)) <==>
              forall i :: 0 <= i < |replies| ==> Retryable(replies[i])
  {
    OutcomeIff(replies, |replies|, Json(Page(prs)));
    OutcomeIff(replies, |replies|, Json(NotAList));
    OutcomeIff(replies, |replies|, Failed(false));
    ExhaustedIff(replies, |replies|);
    OutcomeFaults(replies, |replies|);
  }

  lemma {:induction false} OutcomeFaults<T>(replies: Attempts<T>, total: nat)
    ensures Outcome(replies, total).Err? ==> Outcome(replies, total).fault in {LookupFailed, RetriesExhausted(total)}
  {
    if replies != [] {
      OutcomeFaults(replies[1..], total);
    }
  }

  method LookupMemberPrs(replies: Attempts<Page>) returns (r: Result<seq<PullRequest>>, cost: Cost)
    requires |replies| == |API_BACKOFF| + 1
    ensures r == LookupOutcome(replies) && AtMost(cost, API_LIMIT)
    ensures r.Ok? ==> |r.value| < PAGE_SIZE && Decided(replies, Json(Page(r.value)))
    ensures r.Err? ==> forall prs :: Decided(replies, Json(Page(prs))) ==> |prs| >= PAGE_SIZE
  {
    forall prs
      ensures LookupOutcome(replies) == Ok(prs) <==> |prs| < PAGE_SIZE && Decided(replies, Json(Page(prs)))
    {
      LookupIff(replies, prs);
    }
    var reply;
    reply, cost := GhApiJson(replies);
    match reply
    case Err(fault) => r := Err(fault);
    case Ok(page) => r := PageOutcome(page);
  }

  predicate IsMember(pr: PullRequest, repository: string, head: string) {
    pr.headSha == head && pr.baseRef == "main" && pr.baseRepo == repository
  }

  function Matching(prs: seq<PullRequest>, repository: string, head: string): (matches: seq<PullRequest>)
    ensures forall pr :: pr in matches <==> pr in prs && IsMember(pr, repository, head)
  {
    if prs == [] then []
    else if IsMember(prs[0], repository, head) then [prs[0]] + Matching(prs[1..], repository, head)
    else Matching(prs[1..], repository, head)
  }

  /** All answers one member's search may get: five searches by commit, and one by number. */
  datatype Answers = Answers(searches: seq<Attempts<Page>>, byNumber: Attempts<Option<PullRequest>>)

  predicate Enough(answers: Answers) {
    && |answers.searches| == |LOOKUP_BACKOFF| + 1
    && (forall search <- answers.searches :: |search| == |API_BACKOFF| + 1)
    && |answers.byNumber| == |API_BACKOFF| + 1
  }

  /** The queue's own reference, when no search names the pull request. */
  function FallbackOutcome(repository: string, head: string, number: Option<nat>, answers: Answers): Result<PullRequest> {
    var none := Err(AmbiguousMember(0, |LOOKUP_BACKOFF| + 1));
    if number == None then none
    else
      match Outcome(answers.byNumber, |answers.byNumber|)
      case Err(fault) => Err(fault)
      case Ok(found) =>
        if found.Some? && found.value.number == number.value && IsMember(found.value, repository, head)
        then Ok(found.value) else none
  }

  function MemberOutcome(repository: string, head: string, number: Option<nat>, answers: Answers, a: nat)
    : Result<PullRequest>
    decreases |answers.searches| - a
  {
    if a >= |answers.searches| then FallbackOutcome(repository, head, number, answers)
    else
      match LookupOutcome(answers.searches[a])
      case Err(fault) => Err(fault)
      case Ok(prs) =>
        var matches := Matching(prs, repository, head);
        if |matches| == 1 then Ok(matches[0])
        else if |matches| > 1 then Err(AmbiguousMember(|matches|, a + 1))
        else MemberOutcome(repository, head, number, answers, a + 1)
  }

  /** The most a member's search can cost: six calls of the API, each with its retries, and
      the waits between the searches. */
  const MEMBER_LIMIT := Cost(36, 6 * 67 + 60)

  method Fallback(repository: string, head: string, number: Option<nat>, answers: Answers)
    returns (r: Result<PullRequest>, cost: Cost)
    requires Enough(answers)
    ensures r == FallbackOutcome(repository, head, number, answers) && AtMost(cost, API_LIMIT)
  {
    cost := Cost(0, 0);
    r := Err(AmbiguousMember(0, |LOOKUP_BACKOFF| + 1));
    if number.Some? {
      var found;
      found, cost := GhApiJson(answers.byNumber);
      match found
      case Err(fault) => r := Err(fault);
      case Ok(pr) =>
        if pr.Some? && pr.value.number == number.value && IsMember(pr.value, repository, head) {
          r := Ok(pr.value);
        }
    }
  }

  /** The seconds waited before search `a`; behind the last search there is no wait. */
  function Waited(a: nat): nat {
    if a == 0 then 0 else if a == 1 then 5 else if a == 2 then 15 else if a == 3 then 30 else 60
  }

  /** The lookup of one member. `made` is what its `n` searches and the call by number cost. */
  method MemberPr(repository: string, head: string, number: Option<nat>, answers: Answers)
    returns (r: Result<PullRequest>, cost: Cost, ghost n: nat, ghost made: Cost)
    requires Enough(answers)
    ensures r == MemberOutcome(repository, head, number, answers, 0) && AtMost(cost, MEMBER_LIMIT)
    ensures 1 <= n <= 5 && cost.calls == made.calls && cost.seconds == made.seconds + Waited(n - 1)
  {
    cost, n, made := Cost(0, 0), 0, Cost(0, 0);
    for a := 0 to |LOOKUP_BACKOFF| + 1
      invariant MemberOutcome(repository, head, number, answers, a) == MemberOutcome(repository, head, number, answers, 0)
      invariant n == a && made.calls <= 6 * a && made.seconds <= 67 * a
      invariant cost.calls == made.calls && cost.seconds == made.seconds + Waited(a)
    {
      assert answers.searches[a] in answers.searches;
      WaitedNext(a);
      var found, spent := LookupMemberPrs(answers.searches[a]);
      n, made := a + 1, Plus(made, spent);
      cost := Plus(cost, spent);
      if found.Err? {
        r := Err(found.fault);
        return;
      }
      var matches := Matching(found.value, repository, head);
      if |matches| == 1 {
        r := Ok(matches[0]);
        return;
      }
      if |matches| > 1 {
        r := Err(AmbiguousMember(|matches|, a + 1));
        return;
      }
      if a < |LOOKUP_BACKOFF| {
        cost := cost.(seconds := cost.seconds + LOOKUP_BACKOFF[a]);
      }
    }
    var spent;
    r, spent := Fallback(repository, head, number, answers);
    WaitedNext(4);
    made := Plus(made, spent);
    cost := Plus(cost, spent);
  }

  lemma WaitedNext(a: nat)
    ensures a < |LOOKUP_BACKOFF| ==> Waited(a + 1) == Waited(a) + LOOKUP_BACKOFF[a]
    ensures a == |LOOKUP_BACKOFF| ==> Waited(a + 1) == Waited(a)
    ensures Waited(a) <= 60
  {
  }

  /** Search `a` answers, and names nobody. */
  ghost predicate Unnamed(repository: string, head: string, answers: Answers, a: nat)
    requires a < |answers.searches|
  {
    LookupOutcome(answers.searches[a]).Ok? && Matching(LookupOutcome(answers.searches[a]).value, repository, head) == []
  }

  /** The pull request comes from the first search that names any, and is the only one it
      names; or no search names one and it is the queue reference's own. Either way it is
      bound to this head. */
  lemma {:induction false} MemberIff(repository: string, head: string, number: Option<nat>, answers: Answers, a: nat,
                                     pr: PullRequest)
    requires a <= |answers.searches|
    ensures MemberOutcome(repository, head, number, answers, a) == Ok(pr) <==>
            || (exists k :: a <= k < |answers.searches| &&
                  (forall i :: a <= i < k ==> Unnamed(repository, head, answers, i)) &&
                  LookupOutcome(answers.searches[k]).Ok? &&
                  Matching(LookupOutcome(answers.searches[k]).value, repository, head) == [pr])
            || ((forall i :: a <= i < |answers.searches| ==> Unnamed(repository, head, answers, i)) &&
                number == Some(pr.number) && IsMember(pr, repository, head) &&
                Outcome(answers.byNumber, |answers.byNumber|) == Ok(Some(pr)))
    decreases |answers.searches| - a
  {
    if a < |answers.searches| && Unnamed(repository, head, answers, a) {
      MemberIff(repository, head, number, answers, a + 1, pr);
    }
  }

  lemma {:induction false} MemberIsBound(repository: string, head: string, number: Option<nat>, answers: Answers, a: nat)
    ensures var r := MemberOutcome(repository, head, number, answers, a);
            r.Ok? ==> r.value.headSha == head && r.value.baseRef == "main" && r.value.baseRepo == repository
    decreases |answers.searches| - a
  {
    if a < |answers.searches| {
      MemberIsBound(repository, head, number, answers, a + 1);
      var found := LookupOutcome(answers.searches[a]);
      if found.Ok? && |Matching(found.value, repository, head)| == 1 {
        assert Matching(found.value, repository, head)[0] in Matching(found.value, repository, head);
      }
    }
  }
}
