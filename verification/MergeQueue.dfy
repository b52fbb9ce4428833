/** The merge-queue planner: which pull requests a queue head merges, and which search
    descriptors the combined tree is evaluated under. */
module MergeQueue {
  import opened Basics
  import opened Picking
  import opened PullRequests

  type Sha = string

  /** A parsed descriptor: an object, or some other JSON value. */
  datatype Json = Object(text: string) | NotObject(text: string)

  datatype SliceClass = Ranking | EngineUnwired | OtherClass(name: string)

  datatype Resolved = Resolved(cls: SliceClass, missing: bool)

  /** What git and the descriptor resolver answer. `history` is the first-parent list from a
      commit on, newest first. */
  datatype Repo = Repo(
    checkout: Sha,
    parents: Sha -> seq<Sha>,
    history: Sha -> seq<Sha>,
    mergeBase: (Sha, Sha) -> Sha,
    validBranch: string -> bool,
    labels: string -> seq<string>,
    blob: (Sha, string) -> Option<Json>,
    resolve: (Json, Sha, Sha) -> Result<Resolved>)

  // ----- the first-parent chain -----

  function Chain(history: seq<Sha>, base: Sha): Result<seq<Sha>> {
    if history == [] then Err(BaseNotOnChain)
    else if history[0] == base then Ok([])
    else
      match Chain(history[1..], base)
      case Err(fault) => Err(fault)
      case Ok(older) => Ok(older + [history[0]])
  }

  function Reverse<T>(s: seq<T>): seq<T> { if s == [] then [] else [s[|s| - 1]] + Reverse(s[..|s| - 1]) }

  /** The walk has passed `seen`. */
  ghost predicate Walked(history: seq<Sha>, base: Sha, i: nat, seen: seq<Sha>)
    requires i <= |history|
  {
    Chain(history, base) ==
    match Chain(history[i..], base)
    case Err(fault) => Err(fault)
    case Ok(older) => Ok(older + Reverse(seen))
  }

  lemma WalkedNext(history: seq<Sha>, base: Sha, i: nat, seen: seq<Sha>)
    requires i < |history| && history[i] != base && Walked(history, base, i, seen)
    ensures Walked(history, base, i + 1, seen + [history[i]])
  {
    assert history[i..][1..] == history[i + 1..];
    assert (seen + [history[i]])[..|seen|] == seen;
    var older := Chain(history[i + 1..], base);
    if older.Ok? {
      assert older.value + [history[i]] + Reverse(seen) == older.value + ([history[i]] + Reverse(seen));
    }
  }

  method FirstParentBetween(history: seq<Sha>, base: Sha) returns (r: Result<seq<Sha>>)
    ensures r == Chain(history, base)
  {
    var chain: seq<Sha> := [];
    assert history[0..] == history;
    assert Chain(history, base).Ok? ==> Chain(history, base).value + [] == Chain(history, base).value;
    for i := 0 to |history|
      invariant Walked(history, base, i, chain)
    {
      if history[i] == base {
        assert [] + Reverse(chain) == Reverse(chain);
        return Ok(Reverse(chain));
      }
      WalkedNext(history, base, i, chain);
      chain := chain + [history[i]];
    }
    return Err(BaseNotOnChain);
  }

  /** The chain exists exactly when the base is on the history; it is the part of the
      history before the base, oldest first. */
  lemma {:induction false} ChainIff(history: seq<Sha>, base: Sha)
    ensures Chain(history, base).Ok? <==> base in history
    ensures var r := Chain(history, base);
            r.Ok? ==>
              && |r.value| < |history| && history[|r.value|] == base && base !in r.value
              && forall i :: 0 <= i < |r.value| ==> r.value[i] == history[|r.value| - 1 - i]
  {
    if history != [] && history[0] != base {
      ChainIff(history[1..], base);
    }
  }

  // ----- members -----

  datatype HeadRef = NoRef | UnknownHeadRef | QueueRef(number: nat)

  datatype Member = Member(number: nat, branch: string, head: Sha)

  predicate IsFullSha(s: Sha) { |s| == 40 && forall c <- s :: '0' <= c <= '9' || 'a' <= c <= 'f' }

  /** A merge group: the repository, its commits oldest first, and what the lookups answer. */
  datatype Group = Group(repo: Repo, repository: string, base: Sha, commits: seq<Sha>, ref: HeadRef,
                         answers: nat -> Answers)

  function Previous(g: Group, i: nat): Sha
    requires i <= |g.commits|
  {
    if i == 0 then g.base else g.commits[i - 1]
  }

  predicate IsMerge(g: Group, i: nat)
    requires i < |g.commits|
  {
    |g.repo.parents(g.commits[i])| == 2 && g.repo.parents(g.commits[i])[0] == Previous(g, i)
  }

  /** Only the last merge may be looked up by the queue reference's number. */
  function NumberFor(g: Group, i: nat): Option<nat> {
    if g.ref.QueueRef? && i + 1 == |g.commits| then Some(g.ref.number) else None
  }

  ghost function Lookup(g: Group, i: nat): Result<PullRequest>
    requires i < |g.commits| && IsMerge(g, i)
  {
    MemberOutcome(g.repository, g.repo.parents(g.commits[i])[1], NumberFor(g, i), g.answers(i), 0)
  }

  /** Merge `i` is a two-parent merge onto the previous commit whose pull request is found. */
  ghost predicate Found(g: Group, i: nat)
    requires i < |g.commits|
  {
    IsMerge(g, i) && Lookup(g, i).Ok?
  }

  ghost function MemberAt(g: Group, i: nat): Member
    requires i < |g.commits| && Found(g, i)
  {
    var pr := Lookup(g, i).value;
    Member(pr.number, pr.headRef, g.repo.parents(g.commits[i])[1])
  }

  ghost predicate AreMembers(g: Group, members: seq<Member>) {
    && |members| <= |g.commits|
    && (forall i :: 0 <= i < |members| ==> Found(g, i) && members[i] == MemberAt(g, i))
    && (forall i, j :: 0 <= i < j < |members| ==> members[i].number != members[j].number)
  }

  /** Why merge `i` stops the walk. */
  ghost predicate Stops(g: Group, i: nat, members: seq<Member>, fault: Fault)
    requires i < |g.commits|
  {
    if !IsMerge(g, i) then fault == UnsupportedTopology(g.commits[i])
    else if Lookup(g, i).Err? then fault == Lookup(g, i).fault
    else
      && fault == DuplicateMember(Lookup(g, i).value.number)
      && exists m <- members :: m.number == Lookup(g, i).value.number
  }

  lemma MembersNext(g: Group, members: seq<Member>)
    requires |members| < |g.commits| && AreMembers(g, members) && Found(g, |members|)
    requires forall m <- members :: m.number != MemberAt(g, |members|).number
    ensures AreMembers(g, members + [MemberAt(g, |members|)])
  {
  }

  method AddMember(g: Group, i: nat, members: seq<Member>) returns (r: Result<Member>)
    requires i < |g.commits| && |members| == i && AreMembers(g, members) && Enough(g.answers(i))
    ensures r.Ok? ==> AreMembers(g, members + [r.value])
    ensures r.Err? ==> Stops(g, i, members, r.fault)
  {
    var parents := g.repo.parents(g.commits[i]);
    if |parents| != 2 || parents[0] != Previous(g, i) {
      return Err(UnsupportedTopology(g.commits[i]));
    }
    var found, _, _, _ := MemberPr(g.repository, parents[1], NumberFor(g, i), g.answers(i));
    if found.Err? {
      return Err(found.fault);
    }
    var pr := found.value;
    if exists m <- members :: m.number == pr.number {
      return Err(DuplicateMember(pr.number));
    }
    MembersNext(g, members);
    return Ok(Member(pr.number, pr.headRef, parents[1]));
  }

  /** The walk over the merges: all members, or the first merge that stops it. */
  ghost predicate WalkResult(g: Group, r: Result<seq<Member>>) {
    match r
    case Ok(members) => |members| == |g.commits| && AreMembers(g, members)
    case Err(fault) =>
      exists members :: |members| < |g.commits| && AreMembers(g, members) && Stops(g, |members|, members, fault)
  }

  method WalkMerges(g: Group) returns (r: Result<seq<Member>>)
    requires forall i: nat :: Enough(g.answers(i))
    ensures WalkResult(g, r)
  {
    var members: seq<Member> := [];
    for i := 0 to |g.commits|
      invariant |members| == i && AreMembers(g, members)
    {
      var added := AddMember(g, i, members);
      if added.Err? {
        return Err(added.fault);
      }
      members := members + [added.value];
    }
    return Ok(members);
  }

  ghost predicate AllFound(g: Group) {
    && (forall i :: 0 <= i < |g.commits| ==> Found(g, i))
    && (forall i, j :: 0 <= i < j < |g.commits| ==> MemberAt(g, i).number != MemberAt(g, j).number)
  }

  /** The searches of merge `i` name `pr`: the first one that names any names it alone; or none
      names any, this is the last merge, and `pr` is the queue reference's own, bound to it. */
  ghost predicate Names(g: Group, i: nat, pr: PullRequest)
    requires i < |g.commits| && IsMerge(g, i)
  {
    var head, searches := g.repo.parents(g.commits[i])[1], g.answers(i).searches;
    || (exists k :: 0 <= k < |searches| &&
          (forall j :: 0 <= j < k ==> Unnamed(g.repository, head, g.answers(i), j)) &&
          LookupOutcome(searches[k]).Ok? && Matching(LookupOutcome(searches[k]).value, g.repository, head) == [pr])
    || (&& (forall j :: 0 <= j < |searches| ==> Unnamed(g.repository, head, g.answers(i), j))
        && i == |g.commits| - 1 && g.ref == QueueRef(pr.number) && IsMember(pr, g.repository, head)
        && Outcome(g.answers(i).byNumber, |g.answers(i).byNumber|) == Ok(Some(pr)))
  }

  lemma FoundIff(g: Group, i: nat, pr: PullRequest)
    requires i < |g.commits| && IsMerge(g, i)
    ensures Lookup(g, i) == Ok(pr) <==> Names(g, i, pr)
  {
    MemberIff(g.repository, g.repo.parents(g.commits[i])[1], NumberFor(g, i), g.answers(i), 0, pr);
  }

  /** The walk succeeds exactly when every merge has its own pull request. */
  lemma WalkOkIff(g: Group, r: Result<seq<Member>>)
    requires WalkResult(g, r)
    ensures r.Ok? <==> AllFound(g)
  {
    if r.Err? {
      var members: seq<Member> :|
        |members| < |g.commits| && AreMembers(g, members) && Stops(g, |members|, members, r.fault);
      StopsShort(g, members, r.fault);
    }
  }

  lemma StopsShort(g: Group, members: seq<Member>, fault: Fault)
    requires |members| < |g.commits| && AreMembers(g, members) && Stops(g, |members|, members, fault)
    ensures !AllFound(g)
  {
    var k := |members|;
    if Found(g, k) {
      var m: Member :| m in members && m.number == Lookup(g, k).value.number;
      var i :| 0 <= i < k && members[i] == m;
      assert MemberAt(g, i).number == MemberAt(g, k).number;
    }
  }

  /** The request to plan, and what stands in its way before any merge is looked at. */
  datatype Request = Request(repo: Repo, base: Sha, head: Sha, ref: HeadRef, repository: string, answers: nat -> Answers)

  function EarlyFault(q: Request): Option<Fault> {
    if !(IsFullSha(q.base) && IsFullSha(q.head)) then Some(NotFullShas)
    else if q.repo.checkout != q.head then Some(CheckoutMismatch)
    else if q.repo.mergeBase(q.base, q.head) != q.base then Some(BaseNotAncestor)
    else if q.ref.UnknownHeadRef? then Some(UnknownRef)
    else if Chain(q.repo.history(q.head), q.base).Err? then Some(BaseNotOnChain)
    else None
  }

  ghost predicate FullSha(s: Sha) {
    |s| == 40 && forall i :: 0 <= i < 40 ==> '0' <= s[i] <= '9' || 'a' <= s[i] <= 'f'
  }

  /** Nothing stands in the way: two full hashes, the head checked out, the base its ancestor
      and on its first-parent line, and no reference of an unknown form. */
  lemma NoEarlyFaultIff(q: Request)
    ensures EarlyFault(q).None? <==>
            && FullSha(q.base) && FullSha(q.head) && q.repo.checkout == q.head
            && q.repo.mergeBase(q.base, q.head) == q.base && !q.ref.UnknownHeadRef?
            && q.base in q.repo.history(q.head)
  {
    FullShaIff(q.base);
    FullShaIff(q.head);
    ChainIff(q.repo.history(q.head), q.base);
  }

  lemma FullShaIff(s: Sha)
    ensures IsFullSha(s) <==> FullSha(s)
  {
    if IsFullSha(s) {
      assert forall i :: 0 <= i < |s| ==> s[i] in s;
    }
  }

  function GroupOf(q: Request): Group
    requires Chain(q.repo.history(q.head), q.base).Ok?
  {
    Group(q.repo, q.repository, q.base, Chain(q.repo.history(q.head), q.base).value, q.ref, q.answers)
  }

  /** The members must be there, and the queue reference must name the last of them. */
  predicate EndsRight(q: Request, members: seq<Member>) {
    members != [] && (q.ref.QueueRef? ==> members[|members| - 1].number == q.ref.number)
  }

  /** A walk to the end is good only if it ends at the queue reference's pull request. */
  function Concluded(q: Request, walk: Result<seq<Member>>): Result<seq<Member>> {
    match walk
    case Err(fault) => Err(fault)
    case Ok(members) => if EndsRight(q, members) then Ok(members) else Err(RefMemberMismatch)
  }

  /** The result of looking up the members of a request. */
  ghost predicate MembersResult(q: Request, r: Result<seq<Member>>) {
    if EarlyFault(q).Some? then r == Err(EarlyFault(q).value)
    else exists walk: Result<seq<Member>> :: WalkResult(GroupOf(q), walk) && r == Concluded(q, walk)
  }

  lemma {:induction false} ChainFault(history: seq<Sha>, base: Sha)
    ensures Chain(history, base).Err? ==> Chain(history, base).fault == BaseNotOnChain
  {
    if history != [] {
      ChainFault(history[1..], base);
    }
  }

  method QueueMembers(q: Request) returns (r: Result<seq<Member>>)
    requires forall i: nat :: Enough(q.answers(i))
    ensures MembersResult(q, r)
  {
    if !(IsFullSha(q.base) && IsFullSha(q.head)) {
      return Err(NotFullShas);
    }
    if q.repo.checkout != q.head {
      return Err(CheckoutMismatch);
    }
    if q.repo.mergeBase(q.base, q.head) != q.base {
      return Err(BaseNotAncestor);
    }
    if q.ref.UnknownHeadRef? {
      return Err(UnknownRef);
    }
    var commits := FirstParentBetween(q.repo.history(q.head), q.base);
    ChainFault(q.repo.history(q.head), q.base);
    if commits.Err? {
      return Err(commits.fault);
    }
    var walk := WalkMerges(Group(q.repo, q.repository, q.base, commits.value, q.ref, q.answers));
    assert WalkResult(GroupOf(q), walk);
    if walk.Err? {
      return Err(walk.fault);
    }
    if !EndsRight(q, walk.value) {
      return Err(RefMemberMismatch);
    }
    return Ok(walk.value);
  }

  /** `history` lists the first parents from `head` on. */
  ghost predicate IsHistory(repo: Repo, head: Sha) {
    var h := repo.history(head);
    && h != [] && h[0] == head
    && forall i :: 0 <= i < |h| - 1 ==> repo.parents(h[i]) != [] && repo.parents(h[i])[0] == h[i + 1]
  }

  /** Members found cover the way from base to head: each commit after the base, in order,
      is a merge of its predecessor with a member's head; every member is a pull request
      into main bound to that head; and no pull request covers two commits. */
  lemma MembersCover(q: Request, members: seq<Member>)
    requires MembersResult(q, Ok(members)) && IsHistory(q.repo, q.head)
    ensures var g := GroupOf(q);
            && |members| == |g.commits| > 0 && g.commits[|g.commits| - 1] == q.head && q.base !in g.commits
            && (forall i :: 0 <= i < |members| ==>
                  g.repo.parents(g.commits[i]) == [Previous(g, i), members[i].head])
            && (forall i :: 0 <= i < |members| ==>
                  && Found(g, i)
                  && var pr := Lookup(g, i).value;
                  && pr.number == members[i].number && pr.headSha == members[i].head
                  && pr.baseRef == "main" && pr.baseRepo == q.repository)
            && (forall i, j :: 0 <= i < j < |members| ==> members[i].number != members[j].number)
  {
    var g := GroupOf(q);
    ChainIff(q.repo.history(q.head), q.base);
    forall i | 0 <= i < |members|
      ensures g.repo.parents(g.commits[i]) == [Previous(g, i), members[i].head]
      ensures Found(g, i) && Lookup(g, i).value.number == members[i].number
      ensures var pr := Lookup(g, i).value;
              pr.headSha == members[i].head && pr.baseRef == "main" && pr.baseRepo == q.repository
    {
      assert members[i] == MemberAt(g, i);
      MemberIsBound(g.repository, g.repo.parents(g.commits[i])[1], NumberFor(g, i), g.answers(i), 0);
    }
  }

  lemma EndsRightIff(q: Request, members: seq<Member>)
    requires EarlyFault(q).None? && WalkResult(GroupOf(q), Ok(members))
    ensures var g := GroupOf(q);
            EndsRight(q, members) <==>
              g.commits != [] && (q.ref.QueueRef? ==> MemberAt(g, |g.commits| - 1).number == q.ref.number)
  {
    if members != [] {
      assert members[|members| - 1] == MemberAt(GroupOf(q), |members| - 1);
    }
  }

  /** Members are found exactly when nothing stands in the way, every merge has its own pull
      request, and the last one is the queue reference's. */
  lemma MembersOkIff(q: Request, r: Result<seq<Member>>)
    requires MembersResult(q, r)
    ensures r.Ok? <==>
            && EarlyFault(q).None?
            && var g := GroupOf(q);
            && g.commits != [] && AllFound(g)
            && (q.ref.QueueRef? ==> MemberAt(g, |g.commits| - 1).number == q.ref.number)
  {
    if EarlyFault(q).None? {
      var walk: Result<seq<Member>> :| WalkResult(GroupOf(q), walk) && r == Concluded(q, walk);
      WalkOkIff(GroupOf(q), walk);
      if walk.Ok? {
        EndsRightIff(q, walk.value);
      }
    }
  }

  // ----- descriptors -----

  function DescriptorPath(name: string): string { "benchmarks/aft-search/slice-descriptors/" + name + ".json" }

  function Existing(repo: Repo, head: Sha, labels: seq<string>): seq<string> {
    if labels == [] then []
    else
      var last := |labels| - 1;
      Existing(repo, head, labels[..last]) +
      if repo.blob(head, DescriptorPath(labels[last])).Some? then [DescriptorPath(labels[last])] else []
  }

  lemma {:induction false} ExistingExists(repo: Repo, head: Sha, labels: seq<string>)
    ensures forall path <- Existing(repo, head, labels) :: repo.blob(head, path).Some?
  {
    if labels != [] {
      ExistingExists(repo, head, labels[..|labels| - 1]);
    }
  }

  /** A member's own descriptor, which must be the group head's too. */
  ghost predicate HasDescriptor(repo: Repo, head: Sha, branch: string, groupHead: Sha, path: string, descriptor: Json) {
    && repo.validBranch(branch) && Existing(repo, head, repo.labels(branch)) == [path]
    && descriptor.Object? && repo.blob(head, path) == Some(descriptor) && repo.blob(groupHead, path) == Some(descriptor)
  }

  method MemberDescriptor(repo: Repo, head: Sha, branch: string, groupHead: Sha) returns (r: Result<(string, Json)>)
    ensures r.Ok? ==> HasDescriptor(repo, head, branch, groupHead, r.value.0, r.value.1)
    ensures r.Err? ==> forall path, descriptor :: !HasDescriptor(repo, head, branch, groupHead, path, descriptor)
  {
    if !repo.validBranch(branch) {
      return Err(BadBranch);
    }
    var candidates: seq<string> := [];
    var labels := repo.labels(branch);
    for i := 0 to |labels|
      invariant candidates == Existing(repo, head, labels[..i])
    {
      assert labels[..i + 1][..i] == labels[..i];
      var path := DescriptorPath(labels[i]);
      if repo.blob(head, path).Some? {
        candidates := candidates + [path];
      }
    }
    assert labels[..|labels|] == labels;
    if |candidates| != 1 {
      return Err(DescriptorMatches(|candidates|));
    }
    var path := candidates[0];
    ExistingExists(repo, head, labels);
    assert path in candidates;
    var descriptor := repo.blob(head, path).value;
    if !descriptor.Object? {
      return Err(MalformedDescriptor);
    }
    var combined := repo.blob(groupHead, path);
    if combined.None? {
      return Err(GitFailed);
    }
    if descriptor != combined.value {
      return Err(DescriptorOverwritten);
    }
    return Ok((path, descriptor));
  }

  datatype Planned = Planned(member: Member, path: string, cls: SliceClass)

  /** `p` is what the plan says of its member: its descriptor, resolved on its own diff. */
  ghost predicate Describes(q: Request, p: Planned, descriptor: Json) {
    && HasDescriptor(q.repo, p.member.head, p.member.branch, q.head, p.path, descriptor)
    && q.repo.resolve(descriptor, q.repo.mergeBase(q.base, p.member.head), p.member.head) == Ok(Resolved(p.cls, false))
  }

  method PlanMember(q: Request, m: Member) returns (r: Result<(Planned, Json)>)
    ensures r.Ok? ==> r.value.0.member == m && Describes(q, r.value.0, r.value.1)
    ensures r.Err? ==> forall p: Planned, descriptor :: p.member == m ==> !Describes(q, p, descriptor)
  {
    var found := MemberDescriptor(q.repo, m.head, m.branch, q.head);
    if found.Err? {
      return Err(found.fault);
    }
    var (path, descriptor) := found.value;
    var resolved := q.repo.resolve(descriptor, q.repo.mergeBase(q.base, m.head), m.head);
    if resolved.Err? {
      return Err(resolved.fault);
    }
    if resolved.value.missing {
      return Err(MissingDescriptor(m.number));
    }
    return Ok((Planned(m, path, resolved.value.cls), descriptor));
  }

  /** Every planned member's descriptor is the one filed under its path. */
  ghost predicate Filed(q: Request, members: seq<Member>, planned: seq<Planned>, descriptors: map<string, Json>) {
    && |planned| <= |members|
    && (forall i :: 0 <= i < |planned| ==>
          && planned[i].member == members[i] && planned[i].path in descriptors
          && Describes(q, planned[i], descriptors[planned[i].path]))
    && (forall path <- descriptors.Keys :: q.repo.blob(q.head, path) == Some(descriptors[path]))
  }

  /** Filing a member's descriptor over another one under the same path changes nothing for
      the members filed before. */
  lemma FiledNext(q: Request, members: seq<Member>, planned: seq<Planned>, descriptors: map<string, Json>,
                  p: Planned, descriptor: Json)
    requires Filed(q, members, planned, descriptors)
    requires |planned| < |members| && p.member == members[|planned|] && Describes(q, p, descriptor)
    ensures p.path in descriptors ==> descriptors[p.path := descriptor] == descriptors
    ensures Filed(q, members, planned + [p], descriptors[p.path := descriptor])
  {
  }

  // ----- the plan -----

  function OfClass(planned: seq<Planned>, cls: SliceClass): seq<Planned> {
    if planned == [] then []
    else
      var last := |planned| - 1;
      OfClass(planned[..last], cls) + if planned[last].cls == cls then [planned[last]] else []
  }

  /** The ranking member if there is one, else the unwired ones, else all. */
  function Selected(planned: seq<Planned>): seq<Planned> {
    if OfClass(planned, Ranking) != [] then OfClass(planned, Ranking)
    else if OfClass(planned, EngineUnwired) != [] then OfClass(planned, EngineUnwired)
    else planned
  }

  /** The paths in the order in which they first occur. */
  function DistinctPaths(planned: seq<Planned>): seq<string> {
    if planned == [] then []
    else
      var last := |planned| - 1;
      var before := DistinctPaths(planned[..last]);
      if planned[last].path in before then before else before + [planned[last].path]
  }

  lemma {:induction false} DistinctFacts(planned: seq<Planned>)
    ensures forall i, j :: 0 <= i < j < |DistinctPaths(planned)| ==> DistinctPaths(planned)[i] != DistinctPaths(planned)[j]
    ensures forall path :: path in DistinctPaths(planned) <==> exists p <- planned :: p.path == path
  {
    if planned != [] {
      var last := |planned| - 1;
      DistinctFacts(planned[..last]);
      assert planned == planned[..last] + [planned[last]];
      assert forall p <- planned :: p in planned[..last] || p == planned[last];
    }
  }

  /** Member `a` decides what is evaluated: it is the ranking one; or there is none and it is
      unwired; or there is neither. */
  ghost predicate Chosen(planned: seq<Planned>, a: nat) {
    && a < |planned|
    && (|| planned[a].cls == Ranking
        || (NoneOf(planned, Ranking) && (planned[a].cls == EngineUnwired || NoneOf(planned, EngineUnwired))))
  }

  ghost predicate NoneOf(planned: seq<Planned>, cls: SliceClass) {
    forall i :: 0 <= i < |planned| ==> planned[i].cls != cls
  }

  ghost predicate ChosenPath(planned: seq<Planned>, a: nat, path: string) {
    Chosen(planned, a) && planned[a].path == path
  }

  /** `path` occurs before `later` among the chosen members. */
  ghost predicate Precedes(planned: seq<Planned>, path: string, later: string) {
    exists a: nat :: ChosenPath(planned, a, path) && forall b: nat :: ChosenPath(planned, b, later) ==> a < b
  }

  /** The evaluations are the chosen members' paths, each once, in order of first occurrence. */
  ghost predicate Evaluates(planned: seq<Planned>, evaluations: seq<string>) {
    && (forall i, j :: 0 <= i < j < |evaluations| ==> evaluations[i] != evaluations[j])
    && (forall path :: path in evaluations <==> exists a: nat :: ChosenPath(planned, a, path))
    && (forall i, j :: 0 <= i < j < |evaluations| ==> Precedes(planned, evaluations[i], evaluations[j]))
  }

  /** The members of a class stand at increasing positions, and none is passed over. */
  lemma {:induction false} ClassAt(planned: seq<Planned>, cls: SliceClass) returns (at: seq<nat>)
    ensures Within(at, |planned|) && OfClass(planned, cls) == Pull(planned, at)
    ensures forall i, j :: 0 <= i < j < |at| ==> at[i] < at[j]
    ensures forall i: nat :: i in at <==> i < |planned| && planned[i].cls == cls
  {
    at := [];
    if planned != [] {
      var last := |planned| - 1;
      at := ClassAt(planned[..last], cls);
      assert Pull(planned[..last], at) == Pull(planned, at);
      if planned[last].cls == cls {
        at := LastAt(planned, cls, at);
      }
    }
  }

  lemma LastAt(planned: seq<Planned>, cls: SliceClass, at: seq<nat>) returns (at': seq<nat>)
    requires planned != [] && planned[|planned| - 1].cls == cls && Within(at, |planned| - 1)
    requires forall i, j :: 0 <= i < j < |at| ==> at[i] < at[j]
    requires forall i: nat :: i in at <==> i < |planned| - 1 && planned[i].cls == cls
    ensures Within(at', |planned|) && Pull(planned, at') == Pull(planned, at) + [planned[|planned| - 1]]
    ensures forall i, j :: 0 <= i < j < |at'| ==> at'[i] < at'[j]
    ensures forall i: nat :: i in at' <==> i < |planned| && planned[i].cls == cls
  {
    at' := at + [|planned| - 1];
  }

  lemma NoneOfIff(planned: seq<Planned>, cls: SliceClass)
    ensures NoneOf(planned, cls) <==> OfClass(planned, cls) == []
  {
    var at := ClassAt(planned, cls);
    if at != [] {
      assert at[0] in at;
    }
  }

  /** The selected members stand at the chosen positions, in order. */
  lemma SelectedAt(planned: seq<Planned>) returns (at: seq<nat>)
    ensures Within(at, |planned|) && Selected(planned) == Pull(planned, at)
    ensures forall i, j :: 0 <= i < j < |at| ==> at[i] < at[j]
    ensures forall i: nat :: i in at <==> Chosen(planned, i)
  {
    NoneOfIff(planned, Ranking);
    NoneOfIff(planned, EngineUnwired);
    if OfClass(planned, Ranking) != [] {
      at := ClassAt(planned, Ranking);
    } else if OfClass(planned, EngineUnwired) != [] {
      at := ClassAt(planned, EngineUnwired);
    } else {
      at := Range(|planned|);
      assert forall i: nat :: i < |planned| ==> at[i] == i;
    }
  }

  /** Where a path first occurs in a list. */
  lemma {:induction false} FirstOccurrence(list: seq<Planned>, i: nat, j: nat) returns (a: nat)
    requires i < j < |DistinctPaths(list)|
    ensures a < |list| && list[a].path == DistinctPaths(list)[i]
    ensures forall b :: 0 <= b < |list| && list[b].path == DistinctPaths(list)[j] ==> a < b
  {
    var last := |list| - 1;
    var before := DistinctPaths(list[..last]);
    DistinctFacts(list[..last]);
    DistinctFacts(list);
    if j < |before| {
      a := FirstOccurrence(list[..last], i, j);
    } else {
      assert before[i] in before;
      var p :| p in list[..last] && p.path == before[i];
      a :| 0 <= a < last && list[a] == p;
      assert list[last].path !in before;
      forall b | 0 <= b < last
        ensures list[b].path in before
      {
        assert list[b] in list[..last];
      }
    }
  }

  lemma DistinctEvaluates(planned: seq<Planned>)
    ensures Evaluates(planned, DistinctPaths(Selected(planned)))
  {
    var at := SelectedAt(planned);
    var list := Selected(planned);
    var paths := DistinctPaths(list);
    DistinctFacts(list);
    forall path
      ensures path in paths <==> exists a: nat :: ChosenPath(planned, a, path)
    {
      if path in paths {
        var p :| p in list && p.path == path;
        var i :| 0 <= i < |list| && list[i] == p;
        assert at[i] in at && ChosenPath(planned, at[i], path);
      }
      if a: nat :| ChosenPath(planned, a, path) {
        assert a in at;
        var i :| 0 <= i < |at| && at[i] == a;
        assert list[i] in list && list[i].path == path;
      }
    }
    forall i, j | 0 <= i < j < |paths|
      ensures Precedes(planned, paths[i], paths[j])
    {
      var a := FirstOccurrence(list, i, j);
      assert at[a] in at && ChosenPath(planned, at[a], paths[i]);
      forall b: nat | ChosenPath(planned, b, paths[j])
        ensures at[a] < b
      {
        assert b in at;
        var k :| 0 <= k < |at| && at[k] == b;
        assert list[k].path == paths[j];
      }
    }
  }

  datatype Plan = Plan(base: Sha, head: Sha, members: seq<Planned>, evaluations: seq<string>)

  function MembersOf(planned: seq<Planned>): seq<Member> {
    seq(|planned|, i requires 0 <= i < |planned| => planned[i].member)
  }

  /** The group head's descriptor at `path` resolves on the diff of the whole group. */
  predicate Evaluable(q: Request, path: string) {
    q.repo.blob(q.head, path).Some? && q.repo.resolve(q.repo.blob(q.head, path).value, q.base, q.head).Ok?
  }

  ghost predicate IsDescribed(q: Request, p: Planned) { exists descriptor :: Describes(q, p, descriptor) }

  ghost predicate OneRanking(planned: seq<Planned>) {
    forall i, j :: 0 <= i < j < |planned| ==> !(planned[i].cls == Ranking && planned[j].cls == Ranking)
  }

  lemma OneRankingIff(planned: seq<Planned>)
    ensures OneRanking(planned) <==> |OfClass(planned, Ranking)| <= 1
  {
    var at := ClassAt(planned, Ranking);
    if |at| > 1 {
      assert at[0] in at && at[1] in at && at[0] < at[1];
    }
    if !OneRanking(planned) {
      var i, j :| 0 <= i < j < |planned| && planned[i].cls == Ranking && planned[j].cls == Ranking;
      assert i in at && j in at;
      var k :| 0 <= k < |at| && at[k] == i;
      var l :| 0 <= l < |at| && at[l] == j;
      assert k != l;
    }
  }

  ghost predicate IsPlan(q: Request, plan: Plan) {
    && plan.base == q.base && plan.head == q.head
    && MembersResult(q, Ok(MembersOf(plan.members)))
    && (forall p <- plan.members :: IsDescribed(q, p))
    && OneRanking(plan.members)
    && Evaluates(plan.members, plan.evaluations)
    && forall path <- plan.evaluations :: Evaluable(q, path)
  }

  method DescribeMembers(q: Request, members: seq<Member>) returns (r: Result<(seq<Planned>, map<string, Json>)>)
    ensures r.Ok? ==> |r.value.0| == |members| && Filed(q, members, r.value.0, r.value.1)
    ensures r.Err? ==> exists m <- members :: forall p: Planned :: p.member == m ==> !IsDescribed(q, p)
  {
    var planned: seq<Planned> := [];
    var descriptors: map<string, Json> := map[];
    for i := 0 to |members|
      invariant |planned| == i && Filed(q, members, planned, descriptors)
    {
      var one := PlanMember(q, members[i]);
      if one.Err? {
        assert members[i] in members;
        return Err(one.fault);
      }
      var (p, descriptor) := one.value;
      FiledNext(q, members, planned, descriptors, p, descriptor);
      planned, descriptors := planned + [p], descriptors[p.path := descriptor];
    }
    return Ok((planned, descriptors));
  }

  method Deduplicate(selected: seq<Planned>) returns (paths: seq<string>)
    ensures paths == DistinctPaths(selected)
  {
    paths := [];
    for i := 0 to |selected|
      invariant paths == DistinctPaths(selected[..i])
    {
      assert selected[..i + 1][..i] == selected[..i];
      if selected[i].path !in paths {
        paths := paths + [selected[i].path];
      }
    }
    assert selected[..|selected|] == selected;
  }

  lemma {:induction false} ClassWithin(planned: seq<Planned>, cls: SliceClass)
    ensures forall p <- OfClass(planned, cls) :: p in planned && p.cls == cls
  {
    if planned != [] {
      ClassWithin(planned[..|planned| - 1], cls);
    }
  }

  lemma SelectedWithin(planned: seq<Planned>)
    ensures forall p <- Selected(planned) :: p in planned
    ensures planned != [] ==> Selected(planned) != []
  {
    ClassWithin(planned, Ranking);
    ClassWithin(planned, EngineUnwired);
  }

  /** Every path to evaluate has its descriptor on file. */
  lemma EvaluationsFiled(q: Request, members: seq<Member>, planned: seq<Planned>, descriptors: map<string, Json>)
    requires Filed(q, members, planned, descriptors)
    ensures forall path <- DistinctPaths(Selected(planned)) ::
              path in descriptors && q.repo.blob(q.head, path) == Some(descriptors[path])
  {
    SelectedWithin(planned);
    DistinctFacts(Selected(planned));
    forall path | path in DistinctPaths(Selected(planned))
      ensures path in descriptors
    {
      var p :| p in Selected(planned) && p.path == path;
      var i :| 0 <= i < |planned| && planned[i] == p;
    }
  }

  method CheckEvaluations(q: Request, evaluations: seq<string>, descriptors: map<string, Json>) returns (r: Option<Fault>)
    requires forall path <- evaluations :: path in descriptors && q.repo.blob(q.head, path) == Some(descriptors[path])
    ensures r.None? <==> forall path <- evaluations :: Evaluable(q, path)
  {
    for i := 0 to |evaluations|
      invariant forall j :: 0 <= j < i ==> Evaluable(q, evaluations[j])
    {
      var path := evaluations[i];
      assert path in evaluations;
      var resolved := q.repo.resolve(descriptors[path], q.base, q.head);
      if resolved.Err? {
        return Some(resolved.fault);
      }
    }
    return None;
  }

  /** A plan is returned exactly when there is one, and it is the plan. */
  method MakePlan(q: Request) returns (r: Result<Plan>)
    requires forall i: nat :: Enough(q.answers(i))
    ensures r.Ok? ==> IsPlan(q, r.value)
    ensures r.Err? ==> forall plan :: !IsPlan(q, plan)
  {
    var found := QueueMembers(q);
    if found.Err? {
      NoMembersNoPlan(q, found);
      return Err(found.fault);
    }
    var members := found.value;
    var described := DescribeMembers(q, members);
    if described.Err? {
      UndescribedNoPlan(q, members);
      return Err(described.fault);
    }
    var (planned, descriptors) := described.value;
    assert MembersOf(planned) == members;
    FiledDescribed(q, members, planned, descriptors);
    OnlyPlanned(q, planned);
    OneRankingIff(planned);
    if |OfClass(planned, Ranking)| > 1 {
      return Err(MultipleRanking);
    }
    var evaluations := Deduplicate(Selected(planned));
    DistinctEvaluates(planned);
    EvaluationsFiled(q, members, planned, descriptors);
    var fault := CheckEvaluations(q, evaluations, descriptors);
    if fault.Some? {
      UnresolvedNoPlan(q, planned, evaluations);
      return Err(fault.value);
    }
    return Ok(Plan(q.base, q.head, planned, evaluations));
  }

  lemma UnresolvedNoPlan(q: Request, planned: seq<Planned>, evaluations: seq<string>)
    requires forall plan :: IsPlan(q, plan) ==> plan.members == planned
    requires Evaluates(planned, evaluations) && exists path <- evaluations :: !Evaluable(q, path)
    ensures forall plan :: !IsPlan(q, plan)
  {
    var path :| path in evaluations && !Evaluable(q, path);
    var a: nat :| ChosenPath(planned, a, path);
    forall plan
      ensures !IsPlan(q, plan)
    {
      if plan.members == planned && Evaluates(planned, plan.evaluations) {
        assert path in plan.evaluations;
      }
    }
  }

  lemma NoMembersNoPlan(q: Request, r: Result<seq<Member>>)
    requires MembersResult(q, r) && r.Err?
    ensures forall plan :: !IsPlan(q, plan)
  {
    MembersOkIff(q, r);
    forall plan | IsPlan(q, plan)
      ensures false
    {
      MembersOkIff(q, Ok(MembersOf(plan.members)));
    }
  }

  lemma MembersUnique(q: Request, a: seq<Member>, b: seq<Member>)
    requires MembersResult(q, Ok(a)) && MembersResult(q, Ok(b))
    ensures a == b
  {
    var g := GroupOf(q);
    assert |a| == |b| == |g.commits|;
    assert forall i :: 0 <= i < |a| ==> a[i] == MemberAt(g, i) == b[i];
  }

  lemma UndescribedNoPlan(q: Request, members: seq<Member>)
    requires MembersResult(q, Ok(members))
    requires exists m <- members :: forall p: Planned :: p.member == m ==> !IsDescribed(q, p)
    ensures forall plan :: !IsPlan(q, plan)
  {
    var m :| m in members && forall p: Planned :: p.member == m ==> !IsDescribed(q, p);
    var i :| 0 <= i < |members| && members[i] == m;
    forall plan
      ensures !IsPlan(q, plan)
    {
      if MembersResult(q, Ok(MembersOf(plan.members))) {
        MembersUnique(q, members, MembersOf(plan.members));
        assert plan.members[i].member == m && plan.members[i] in plan.members;
      }
    }
  }

  lemma FiledDescribed(q: Request, members: seq<Member>, planned: seq<Planned>, descriptors: map<string, Json>)
    requires Filed(q, members, planned, descriptors)
    ensures forall p <- planned :: IsDescribed(q, p)
  {
    forall p | p in planned
      ensures IsDescribed(q, p)
    {
      var i :| 0 <= i < |planned| && planned[i] == p;
      assert Describes(q, p, descriptors[p.path]);
    }
  }

  lemma DescribedOnce(q: Request, p: Planned, p': Planned)
    requires p.member == p'.member && IsDescribed(q, p) && IsDescribed(q, p')
    ensures p == p'
  {
    var d :| Describes(q, p, d);
    var d' :| Describes(q, p', d');
    var existing := Existing(q.repo, p.member.head, q.repo.labels(p.member.branch));
    assert existing[0] == p.path && existing[0] == p'.path;
  }

  lemma OnlyPlanned(q: Request, planned: seq<Planned>)
    requires MembersResult(q, Ok(MembersOf(planned))) && forall p <- planned :: IsDescribed(q, p)
    ensures forall plan :: IsPlan(q, plan) ==> plan.members == planned
  {
    forall plan | IsPlan(q, plan)
      ensures plan.members == planned
    {
      MembersUnique(q, MembersOf(planned), MembersOf(plan.members));
      forall i | 0 <= i < |planned|
        ensures planned[i] == plan.members[i]
      {
        assert MembersOf(planned)[i] == MembersOf(plan.members)[i];
        assert planned[i] in planned && plan.members[i] in plan.members;
        DescribedOnce(q, planned[i], plan.members[i]);
      }
      assert |planned| == |MembersOf(planned)| == |plan.members|;
    }
  }

  /** A plan evaluates something and nothing twice. Without a ranking member, a path is
      evaluated exactly when an unwired member has it, or, without those, any member. */
  lemma PlanEvaluates(q: Request, plan: Plan)
    requires IsPlan(q, plan)
    ensures plan.evaluations != []
    ensures forall i, j :: 0 <= i < j < |plan.evaluations| ==> plan.evaluations[i] != plan.evaluations[j]
    ensures NoneOf(plan.members, Ranking) && !NoneOf(plan.members, EngineUnwired) ==>
              forall path :: path in plan.evaluations <==>
                exists p <- plan.members :: p.cls == EngineUnwired && p.path == path
    ensures NoneOf(plan.members, Ranking) && NoneOf(plan.members, EngineUnwired) ==>
              forall path :: path in plan.evaluations <==> exists p <- plan.members :: p.path == path
  {
    MembersOkIff(q, Ok(MembersOf(plan.members)));
    assert |MembersOf(plan.members)| == |plan.members|;
    SomeChosen(plan.members);
    var a: nat :| Chosen(plan.members, a);
    assert ChosenPath(plan.members, a, plan.members[a].path);
    assert plan.members[a].path in plan.evaluations;
    if NoneOf(plan.members, Ranking) {
      forall path
        ensures path in plan.evaluations <==>
                exists p <- plan.members :: (p.cls == EngineUnwired || NoneOf(plan.members, EngineUnwired)) && p.path == path
      {
        ChosenWithout(plan.members, path);
      }
    }
  }

  lemma SomeChosen(planned: seq<Planned>)
    requires planned != []
    ensures exists a: nat :: Chosen(planned, a)
  {
    if i: nat :| i < |planned| && planned[i].cls == Ranking {
      assert Chosen(planned, i);
    } else if i: nat :| i < |planned| && planned[i].cls == EngineUnwired {
      assert Chosen(planned, i);
    } else {
      assert Chosen(planned, 0);
    }
  }

  lemma ChosenWithout(planned: seq<Planned>, path: string)
    requires NoneOf(planned, Ranking)
    ensures (exists a: nat :: ChosenPath(planned, a, path)) <==>
            exists p <- planned :: (p.cls == EngineUnwired || NoneOf(planned, EngineUnwired)) && p.path == path
  {
    if p :| p in planned && (p.cls == EngineUnwired || NoneOf(planned, EngineUnwired)) && p.path == path {
      var a: nat :| a < |planned| && planned[a] == p;
      assert ChosenPath(planned, a, path);
    }
    if a: nat :| ChosenPath(planned, a, path) {
      assert planned[a] in planned;
    }
  }

  /** A ranking member is evaluated alone. */
  lemma RankingAlone(q: Request, plan: Plan, p: Planned)
    requires IsPlan(q, plan) && p in plan.members && p.cls == Ranking
    ensures plan.evaluations == [p.path]
  {
    var a: nat :| a < |plan.members| && plan.members[a] == p;
    assert !NoneOf(plan.members, Ranking) && ChosenPath(plan.members, a, p.path);
    var e := plan.evaluations;
    forall path | path in e
      ensures path == p.path
    {
      var b: nat :| ChosenPath(plan.members, b, path);
      assert a < b || b < a || a == b;
    }
    OnlyOne(e, p.path);
  }

  lemma OnlyOne(e: seq<string>, path: string)
    requires path in e && forall x <- e :: x == path
    requires forall i, j :: 0 <= i < j < |e| ==> e[i] != e[j]
    ensures e == [path]
  {
    assert e[0] in e;
    if |e| > 1 {
      FirstTwo(e, path);
      assert false;
    }
  }

  lemma FirstTwo(e: seq<string>, path: string)
    requires |e| > 1 && forall x <- e :: x == path
    ensures e[0] == e[1]
  {
    assert e[0] in e && e[1] in e;
  }
}
