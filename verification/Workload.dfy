/** The witnessed workload of the views performance gate: every edit of every root in every
    round must be observed correctly before the next one, and the log of observations is
    then checked against expected state names that grew as the rounds were run. */
module Workload {
  import opened Basics
  import opened Decimal

  // ----- state names -----

  const EDIT_STATES := ["atomic_edit", "revert", "tool_write", "tool_revert", "branch_switch", "branch_return"]

  const TAIL := ["worktree_create", "worktree_remove"]

  function RootTail(root: nat, edit: string): string {
    "root" + Str(root) + ":" + edit
  }

  function StateName(round: nat, root: nat, edit: string): string {
    "round" + Str(round) + ":" + RootTail(root, edit)
  }

  function RootStates(round: nat, root: nat): (r: seq<string>)
    ensures |r| == 6
  {
    seq(6, e requires 0 <= e < 6 => StateName(round, root, EDIT_STATES[e]))
  }

  lemma NextState(before: seq<string>, round: nat, root: nat, e: nat)
    requires e < 6
    ensures before + RootStates(round, root)[..e] + [StateName(round, root, EDIT_STATES[e])]
         == before + RootStates(round, root)[..e + 1]
  {
  }

  lemma StatesPrefix(before: seq<string>, round: nat, root: nat, e: nat)
    requires e <= 6
    ensures before <= before + RootStates(round, root)[..e] <= before + RootStates(round, root)
    ensures e == 6 ==> RootStates(round, root)[..e] == RootStates(round, root)
  {
  }

  function RoundStates(roots: nat, round: nat): seq<string> {
    if roots == 0 then [] else RoundStates(roots - 1, round) + RootStates(round, roots - 1)
  }

  function BindName(root: nat): string { "bind:root" + Str(root) }

  function BindStates(roots: nat): (r: seq<string>)
    ensures |r| == roots
  {
    if roots == 0 then [] else BindStates(roots - 1) + [BindName(roots - 1)]
  }

  function AllRounds(roots: nat, rounds: nat): seq<string> {
    if rounds == 0 then [] else AllRounds(roots, rounds - 1) + RoundStates(roots, rounds - 1)
  }

  /** The complete list for a run: binds, rounds, then the transient worktree. */
  function Schedule(roots: nat, rounds: nat): seq<string> {
    BindStates(roots) + AllRounds(roots, rounds) + TAIL
  }

  /** The list is built of the binds, then for each round, for each root its six edits, and
      the transient worktree's two states; and these are their names. */
  lemma ScheduleNames(roots: nat, rounds: nat, round: nat, root: nat, e: nat)
    requires root < roots && e < 6
    ensures Schedule(roots, rounds) == BindStates(roots) + AllRounds(roots, rounds) + TAIL
    ensures BindStates(roots)[root] == "bind:root" + Str(root)
    ensures AllRounds(roots, 0) == [] && AllRounds(roots, round + 1) == AllRounds(roots, round) + RoundStates(roots, round)
    ensures RoundStates(0, round) == [] && RoundStates(root + 1, round) == RoundStates(root, round) + RootStates(round, root)
    ensures RootStates(round, root)[e] == "round" + Str(round) + ":root" + Str(root) + ":" + EDIT_STATES[e]
  {
    BindAt(roots, root);
    NameText(round, root, EDIT_STATES[e]);
  }

  lemma NameText(round: nat, root: nat, edit: string)
    ensures StateName(round, root, edit) == "round" + Str(round) + ":root" + Str(root) + ":" + edit
  {
    assert ":" + RootTail(root, edit) == ":root" + Str(root) + ":" + edit;
  }

  lemma {:induction false} BindAt(roots: nat, root: nat)
    requires root < roots
    ensures BindStates(roots)[root] == "bind:root" + Str(root)
  {
    if root < roots - 1 {
      BindAt(roots - 1, root);
    }
  }

  // ----- the names are pairwise different -----

  ghost predicate Distinct<T>(s: seq<T>) {
    forall i, j :: 0 <= i < j < |s| ==> s[i] != s[j]
  }

  lemma DistinctConcat<T>(a: seq<T>, b: seq<T>)
    requires Distinct(a) && Distinct(b) && forall x :: x in a ==> x !in b
    ensures Distinct(a + b)
  {
    forall i, j | 0 <= i < j < |a + b| ensures (a + b)[i] != (a + b)[j] {
      if i < |a| <= j {
        assert a[i] in a;
      }
    }
  }

  lemma NoColon(n: nat)
    ensures ':' !in Str(n)
  {
  }

  lemma RootTailInjective(i: nat, e: string, i': nat, e': string)
    requires RootTail(i, e) == RootTail(i', e')
    ensures i == i' && e == e'
  {
    NoColon(i);
    NoColon(i');
    assert RootTail(i, e)[4..] == Str(i) + [':'] + e;
    assert RootTail(i', e')[4..] == Str(i') + [':'] + e';
    SplitUnique(Str(i), e, Str(i'), e', ':');
    StrInjective(i, i');
  }

  lemma StateNameInjective(r: nat, i: nat, e: string, r': nat, i': nat, e': string)
    requires StateName(r, i, e) == StateName(r', i', e')
    ensures r == r' && i == i' && e == e'
  {
    NoColon(r);
    NoColon(r');
    assert StateName(r, i, e)[5..] == Str(r) + [':'] + RootTail(i, e);
    assert StateName(r', i', e')[5..] == Str(r') + [':'] + RootTail(i', e');
    SplitUnique(Str(r), RootTail(i, e), Str(r'), RootTail(i', e'), ':');
    StrInjective(r, r');
    RootTailInjective(i, e, i', e');
  }

  lemma EditStatesDistinct()
    ensures Distinct(EDIT_STATES)
  {
    var names := EDIT_STATES;
    forall i, j | 0 <= i < j < 6 ensures names[i] != names[j] {
      assert |names[i]| != |names[j]| || names[i][0] != names[j][0] || names[i][7] != names[j][7];
    }
  }

  lemma RootStatesDistinct(round: nat, root: nat)
    ensures Distinct(RootStates(round, root))
  {
    EditStatesDistinct();
    var s := RootStates(round, root);
    forall i, j | 0 <= i < j < 6 ensures s[i] != s[j] {
      if s[i] == s[j] {
        StateNameInjective(round, root, EDIT_STATES[i], round, root, EDIT_STATES[j]);
      }
    }
  }

  /** Every name of a round is a state name of that round and one of its roots. */
  lemma {:induction false} RoundMember(roots: nat, round: nat, x: string)
    requires x in RoundStates(roots, round)
    ensures exists i: nat, e :: i < roots && x == StateName(round, i, e)
  {
    if x in RoundStates(roots - 1, round) {
      RoundMember(roots - 1, round, x);
    } else {
      assert x in RootStates(round, roots - 1);
    }
  }

  lemma {:induction false} RoundStatesDistinct(roots: nat, round: nat)
    ensures Distinct(RoundStates(roots, round))
  {
    if roots > 0 {
      RoundStatesDistinct(roots - 1, round);
      RootStatesDistinct(round, roots - 1);
      var earlier, last := RoundStates(roots - 1, round), RootStates(round, roots - 1);
      forall x | x in earlier ensures x !in last {
        RoundMember(roots - 1, round, x);
        var i: nat, e :| i < roots - 1 && x == StateName(round, i, e);
        forall k | 0 <= k < 6 ensures x != StateName(round, roots - 1, EDIT_STATES[k]) {
          if x == StateName(round, roots - 1, EDIT_STATES[k]) {
            StateNameInjective(round, i, e, round, roots - 1, EDIT_STATES[k]);
          }
        }
      }
      DistinctConcat(earlier, last);
    }
  }

  lemma {:induction false} AllRoundsMember(roots: nat, rounds: nat, x: string)
    requires x in AllRounds(roots, rounds)
    ensures exists r: nat, i: nat, e :: r < rounds && x == StateName(r, i, e)
  {
    if x in AllRounds(roots, rounds - 1) {
      AllRoundsMember(roots, rounds - 1, x);
      var r: nat, i: nat, e :| r < rounds - 1 && x == StateName(r, i, e);
      assert r < rounds && x == StateName(r, i, e);
    } else {
      assert x in RoundStates(roots, rounds - 1);
      RoundMember(roots, rounds - 1, x);
    }
  }

  lemma {:induction false} AllRoundsDistinct(roots: nat, rounds: nat)
    ensures Distinct(AllRounds(roots, rounds))
  {
    if rounds > 0 {
      AllRoundsDistinct(roots, rounds - 1);
      RoundStatesDistinct(roots, rounds - 1);
      var earlier, last := AllRounds(roots, rounds - 1), RoundStates(roots, rounds - 1);
      forall x | x in earlier ensures x !in last {
        NotLater(roots, rounds - 1, x);
      }
      DistinctConcat(earlier, last);
    }
  }

  /** A name of an earlier round is none of this round. */
  lemma NotLater(roots: nat, rounds: nat, x: string)
    requires x in AllRounds(roots, rounds)
    ensures x !in RoundStates(roots, rounds)
  {
    AllRoundsMember(roots, rounds, x);
    var r: nat, i: nat, e :| r < rounds && x == StateName(r, i, e);
    if x in RoundStates(roots, rounds) {
      RoundMember(roots, rounds, x);
      var i': nat, e' :| i' < roots && x == StateName(rounds, i', e');
      StateNameInjective(r, i, e, rounds, i', e');
    }
  }

  lemma {:induction false} BindMember(roots: nat, x: string)
    requires x in BindStates(roots)
    ensures exists i: nat :: i < roots && x == BindName(i)
  {
    if x in BindStates(roots - 1) {
      BindMember(roots - 1, x);
    }
  }

  lemma {:induction false} BindStatesDistinct(roots: nat)
    ensures Distinct(BindStates(roots))
  {
    if roots > 0 {
      BindStatesDistinct(roots - 1);
      var earlier, last := BindStates(roots - 1), BindName(roots - 1);
      forall x | x in earlier ensures x !in [last] {
        BindMember(roots - 1, x);
        var i: nat :| i < roots - 1 && x == BindName(i);
        if x == last {
          assert BindName(i)[9..] == Str(i) && BindName(roots - 1)[9..] == Str(roots - 1);
          StrInjective(i, roots - 1);
        }
      }
      DistinctConcat(earlier, [last]);
    }
  }

  predicate Starts(s: string, c: char) {
    s != [] && s[0] == c
  }

  /** All names of a run differ, for every number of roots and rounds. */
  lemma ScheduleDistinct(roots: nat, rounds: nat)
    ensures Distinct(Schedule(roots, rounds))
  {
    BindStatesDistinct(roots);
    AllRoundsDistinct(roots, rounds);
    forall x | x in BindStates(roots) ensures Starts(x, 'b') {
      BindMember(roots, x);
    }
    forall x | x in AllRounds(roots, rounds) ensures Starts(x, 'r') {
      AllRoundsMember(roots, rounds, x);
    }
    DistinctConcat(BindStates(roots), AllRounds(roots, rounds));
    assert Starts(TAIL[0], 'w') && Starts(TAIL[1], 'w') && TAIL[0][9] != TAIL[1][9];
    DistinctConcat(BindStates(roots) + AllRounds(roots, rounds), TAIL);
  }

  // ----- the validator -----

  datatype Witness = Witness(id: string, correct: bool)

  datatype Verdict = Accepted | NoCases | Duplicate | Skipped | OutOfOrder | Incorrect

  function Ids(rows: seq<Witness>): (r: seq<string>)
    ensures |r| == |rows| && forall i :: 0 <= i < |r| ==> r[i] == rows[i].id
  {
    seq(|rows|, i requires 0 <= i < |rows| => rows[i].id)
  }

  /** `[state for state in expected if state in ids]` */
  function Present(expected: seq<string>, ids: seq<string>): seq<string> {
    if expected == [] then []
    else (if expected[0] in ids then [expected[0]] else []) + Present(expected[1..], ids)
  }

  /** The distinct ids of a log. */
  function Kinds(ids: seq<string>): set<string> { set x | x in ids }

  predicate HasDuplicate(ids: seq<string>) {
    |Kinds(ids)| != |ids|
  }

  predicate HasGap(expected: seq<string>, ids: seq<string>) {
    exists x :: x in expected && x !in ids
  }

  predicate HasIncorrect(observed: seq<Witness>) {
    exists row :: row in observed && !row.correct
  }

  function ValidateWitnesses(expected: seq<string>, observed: seq<Witness>): Verdict {
    var ids := Ids(observed);
    if expected == [] || observed == [] then NoCases
    else if HasDuplicate(ids) then Duplicate
    else if HasGap(expected, ids) then Skipped
    else if ids != Present(expected, ids) then OutOfOrder
    else if HasIncorrect(observed) then Incorrect
    else Accepted
  }

  lemma {:induction false} PresentAll(expected: seq<string>, ids: seq<string>)
    requires !HasGap(expected, ids)
    ensures Present(expected, ids) == expected
  {
    if expected != [] {
      assert expected[0] in expected;
      PresentAll(expected[1..], ids);
    }
  }

  lemma KindsSnoc(ids: seq<string>, last: string)
    ensures Kinds(ids + [last]) == Kinds(ids) + {last}
    ensures last in Kinds(ids) <==> exists i :: 0 <= i < |ids| && ids[i] == last
  {
  }

  lemma DistinctSnoc(ids: seq<string>, last: string)
    ensures Distinct(ids + [last]) <==> Distinct(ids) && last !in Kinds(ids)
  {
    var all := ids + [last];
    if Distinct(all) {
      assert forall i :: 0 <= i < |ids| ==> all[i] == ids[i] && all[i] != all[|ids|];
    }
  }

  lemma {:induction false} DuplicateIff(ids: seq<string>)
    ensures |Kinds(ids)| <= |ids|
    ensures HasDuplicate(ids) <==> !Distinct(ids)
  {
    if ids != [] {
      var n := |ids| - 1;
      DuplicateIff(ids[..n]);
      KindsSnoc(ids[..n], ids[n]);
      DistinctSnoc(ids[..n], ids[n]);
      assert ids == ids[..n] + [ids[n]];
    }
  }

  lemma IncorrectIff(observed: seq<Witness>)
    ensures HasIncorrect(observed) <==> !forall i :: 0 <= i < |observed| ==> observed[i].correct
  {
    if i :| 0 <= i < |observed| && !observed[i].correct {
      assert observed[i] in observed;
    }
  }

  /** Exactly the complete, ordered, duplicate-free and correct logs are accepted. */
  lemma AcceptedIff(expected: seq<string>, observed: seq<Witness>)
    ensures ValidateWitnesses(expected, observed) == Accepted
            <==> expected != [] && Ids(observed) == expected && Distinct(expected)
                 && forall i :: 0 <= i < |observed| ==> observed[i].correct
  {
    var ids := Ids(observed);
    DuplicateIff(ids);
    IncorrectIff(observed);
    assert ids == expected ==> !HasGap(expected, ids);
    if !HasGap(expected, ids) {
      PresentAll(expected, ids);
    }
  }

  /** What each rejection says of a log, the first that applies. */
  lemma RejectedIff(expected: seq<string>, observed: seq<Witness>)
    ensures var ids, verdict := Ids(observed), ValidateWitnesses(expected, observed);
            && (verdict == NoCases <==> expected == [] || observed == [])
            && (verdict == Duplicate <==> expected != [] && observed != [] && !Distinct(ids))
            && (verdict == Skipped <==>
                  expected != [] && observed != [] && Distinct(ids) && exists x <- expected :: x !in ids)
            && (verdict in {OutOfOrder, Incorrect, Accepted} <==>
                  expected != [] && observed != [] && Distinct(ids) && forall x <- expected :: x in ids)
            && (verdict == OutOfOrder ==> ids != expected)
            && (verdict == Incorrect ==> ids == expected && exists i :: 0 <= i < |observed| && !observed[i].correct)
  {
    var ids := Ids(observed);
    DuplicateIff(ids);
    IncorrectIff(observed);
    if !HasGap(expected, ids) {
      PresentAll(expected, ids);
    }
  }

  // ----- one acquisition -----

  datatype Content = Base | Changed | Other

  /** How one witness ends: every plane answered correctly (and the sample after it was
      taken, or not), the deadline passed, a request failed, or a reply was not JSON, which
      nothing catches. */
  datatype Outcome = Correct | SampleFailed | NeverCorrect | RequestFailed | Undecodable

  function Intended(changed: bool): Content { if changed then Changed else Base }

  /** What the environment does in one step: the probe's content after the edit, whether
      the edit itself reported success, and how the witness ends. */
  datatype Turn = Turn(content: Content, edited: bool, outcome: Outcome)

  /** A turn that lets the run go on: the edit reported success, left the intended content,
      and every plane answered correctly in time. */
  predicate Good(turn: Turn, changed: bool) {
    turn.edited && turn.content == Intended(changed) && turn.outcome == Correct
  }

  /** The rows a turn that ends the run leaves: none for a failed edit, none for an
      undecodable reply met while the probe is as intended, else one. */
  function RowsLeft(turn: Turn, changed: bool): nat {
    if !turn.edited || (turn.content == Intended(changed) && turn.outcome == Undecodable) then 0 else 1
  }

  type Script = (nat, nat, nat) -> Turn

  /** Edits change the probe and revert it by turns. */
  predicate GoodEdit(script: Script, round: nat, root: nat, e: nat) { Good(script(round, root, e), e % 2 == 0) }

  ghost predicate GoodEdits(script: Script, round: nat, root: nat, n: nat) {
    forall e: nat :: e < n ==> GoodEdit(script, round, root, e)
  }

  ghost predicate GoodRoots(script: Script, round: nat, n: nat) {
    forall root: nat :: root < n ==> GoodEdits(script, round, root, 6)
  }

  ghost predicate GoodRounds(script: Script, all: nat, n: nat) {
    forall round: nat :: round < n ==> GoodRoots(script, round, all)
  }

  /** Edit `e` of a root is the first that is not good, and `log` ends with it. */
  ghost predicate StopsAt(script: Script, round: nat, root: nat, e: nat, before: seq<string>, log: seq<string>) {
    && e < 6 && GoodEdits(script, round, root, e) && !GoodEdit(script, round, root, e)
    && log == before + RootStates(round, root)[..e + RowsLeft(script(round, root, e), e % 2 == 0)]
  }

  /** A round stops at its first edit that is not good. */
  ghost predicate RoundStops(script: Script, all: nat, round: nat, log: seq<string>) {
    exists root: nat, e: nat ::
      root < all && GoodRoots(script, round, root) && StopsAt(script, round, root, e, Done(all, round, root), log)
  }

  /** So does a run. */
  ghost predicate RunStops(script: Script, all: nat, rounds: nat, log: seq<string>) {
    exists round: nat :: round < rounds && GoodRounds(script, all, round) && RoundStops(script, all, round, log)
  }

  /** Root `i` is seen ready. */
  predicate Ready(probes: seq<Content>, turns: seq<Turn>, i: nat)
    requires i < |turns| == |probes|
  {
    probes[i] == Base && turns[i].outcome == Correct
  }

  /** Root `n` is the first not seen ready, and `log` ends with it. */
  ghost predicate ReadyStops(probes: seq<Content>, turns: seq<Turn>, n: nat, log: seq<string>)
    requires |turns| == |probes|
  {
    && n < |turns| && !Ready(probes, turns, n) && (forall i :: 0 <= i < n ==> Ready(probes, turns, i))
    && log == BindStates(if probes[n] == Base && turns[n].outcome == Undecodable then n else n + 1)
  }

  class Acquisition {
    var expected: seq<string>
    var witnesses: seq<Witness>
    /** The probe file of each root; the transient worktree is not among them. */
    var probes: seq<Content>

    constructor (probes: seq<Content>)
      ensures expected == [] && witnesses == [] && this.probes == probes
    {
      expected, witnesses, this.probes := [], [], probes;
    }

    /** Observe one state. Every ending logs exactly one row for it, but for a reply that is
        not JSON, which ends the run without one. The run goes on only if the probe holds the
        intended content and every plane answered correctly and the sample was taken; the row
        is correct also if only the sample failed. */
    method Observe(content: Content, state: string, changed: bool, outcome: Outcome) returns (ok: bool)
      modifies this`witnesses
      ensures ok <==> content == Intended(changed) && outcome == Correct
      ensures content == Intended(changed) && outcome == Undecodable ==> witnesses == old(witnesses)
      ensures content != Intended(changed) || outcome != Undecodable ==>
                var correct := content == Intended(changed) && (outcome == Correct || outcome == SampleFailed);
                witnesses == old(witnesses) + [Witness(state, correct)] && Ids(witnesses) == Ids(old(witnesses)) + [state]
    {
      if content != Intended(changed) {
        witnesses := witnesses + [Witness(state, false)];
        return false;
      }
      match outcome
      case Correct =>
        witnesses := witnesses + [Witness(state, true)];
        return true;
      case SampleFailed =>
        witnesses := witnesses + [Witness(state, true)];
        return false;
      case NeverCorrect =>
        witnesses := witnesses + [Witness(state, false)];
        return false;
      case RequestFailed =>
        witnesses := witnesses + [Witness(state, false)];
        return false;
      case Undecodable =>
        return false;
    }

    ghost predicate AllCorrect()
      reads this
    {
      forall i :: 0 <= i < |witnesses| ==> witnesses[i].correct
    }

    ghost function Log(): seq<string>
      reads this
    {
      Ids(witnesses)
    }

    /** See one root ready, after those before it. */
    method SeeReady(i: nat, outcome: Outcome) returns (ok: bool)
      requires i < |probes| && Log() == BindStates(i) && AllCorrect()
      modifies this`witnesses
      ensures ok <==> probes[i] == Base && outcome == Correct
      ensures Log() == BindStates(if probes[i] == Base && outcome == Undecodable then i else i + 1)
      ensures ok ==> AllCorrect()
    {
      ok := Observe(probes[i], BindName(i), false, outcome);
    }

    /** The bind phase of an arm: announce all roots, bind the first and see it ready, bind
        the others, then see them ready in order. A bind that fails, or the first root not
        seen ready, ends it. */
    method BindPhase(turns: seq<Turn>) returns (ok: bool, ghost at: nat)
      requires expected == [] && witnesses == [] && |turns| == |probes| >= 1
      modifies this`expected, this`witnesses
      ensures expected == BindStates(|probes|) && Log() <= expected
      ensures ok <==>
              forall i :: 0 <= i < |turns| ==> turns[i].edited && turns[i].outcome == Correct && probes[i] == Base
      ensures ok ==> Log() == expected && AllCorrect()
      ensures !ok ==>
                || (!turns[0].edited && Log() == [])
                || (turns[0].edited && at == 0 && ReadyStops(probes, turns, at, Log()))
                || (turns[0].edited && (exists i :: 0 <= i < |turns| && !turns[i].edited) && Log() == BindStates(1))
                || (at > 0 && (forall i :: 0 <= i < |turns| ==> turns[i].edited) && ReadyStops(probes, turns, at, Log()))
    {
      expected := BindStates(|probes|);
      ok, at := false, 0;
      if !turns[0].edited {
        return;
      }
      ok := SeeReady(0, turns[0].outcome);
      BindPrefix(0, |probes|);
      BindPrefix(1, |probes|);
      if !ok {
        return;
      }
      if exists i :: 1 <= i < |turns| && !turns[i].edited {
        ok := false;
        return;
      }
      assert forall i :: 0 <= i < |turns| ==> turns[i].edited;
      ok, at := SeeOthers(turns);
      assert !ok ==> !(turns[at].edited && turns[at].outcome == Correct && probes[at] == Base);
      forall i | ok && 0 <= i < |turns|
        ensures turns[i].edited && turns[i].outcome == Correct && probes[i] == Base
      {
        assert Ready(probes, turns, i);
      }
    }

    method SeeOthers(turns: seq<Turn>) returns (ok: bool, ghost at: nat)
      requires |turns| == |probes| >= 1 && Ready(probes, turns, 0) && Log() == BindStates(1) && AllCorrect()
      modifies this`witnesses
      ensures Log() <= BindStates(|probes|)
      ensures ok ==> Log() == BindStates(|probes|) && AllCorrect()
      ensures ok ==> forall i :: 0 <= i < |turns| ==> Ready(probes, turns, i)
      ensures !ok ==> at > 0 && ReadyStops(probes, turns, at, Log())
    {
      at := 0;
      for i := 1 to |turns|
        invariant Log() == BindStates(i) && AllCorrect()
        invariant forall j :: 0 <= j < i ==> Ready(probes, turns, j)
      {
        at := i;
        ok := SeeReady(i, turns[i].outcome);
        BindPrefix(i, |probes|);
        BindPrefix(i + 1, |probes|);
        if !ok {
          return;
        }
      }
      ok := true;
    }

    /** One edit of a root, after `before` and the root's first `e` states are logged. */
    method Edit(round: nat, root: nat, e: nat, turn: Turn, ghost before: seq<string>) returns (ok: bool)
      requires root < |probes| && e < 6 && AllCorrect() && Log() == before + RootStates(round, root)[..e]
      modifies this`witnesses, this`probes
      ensures |probes| == |old(probes)| && forall j :: 0 <= j < |probes| && j != root ==> probes[j] == old(probes)[j]
      ensures probes[root] == turn.content
      ensures ok <==> Good(turn, e % 2 == 0)
      ensures Log() == before + RootStates(round, root)[..e + if ok then 1 else RowsLeft(turn, e % 2 == 0)]
      ensures ok ==> AllCorrect()
    {
      probes := probes[root := turn.content];
      if !turn.edited {
        return false;
      }
      ok := Observe(probes[root], StateName(round, root, EDIT_STATES[e]), e % 2 == 0, turn.outcome);
      NextState(before, round, root, e);
    }

    /** The six edits of one root in one round: all of them if all are good, and else the
        first that is not good ends the run. */
    method EditRoot(round: nat, root: nat, script: Script) returns (ok: bool, ghost at: nat)
      requires root < |probes| && AllCorrect()
      modifies this`witnesses, this`probes
      ensures |probes| == |old(probes)| && forall j :: 0 <= j < |probes| && j != root ==> probes[j] == old(probes)[j]
      ensures old(Log()) <= Log() <= old(Log()) + RootStates(round, root)
      ensures ok <==> GoodEdits(script, round, root, 6)
      ensures !ok ==> StopsAt(script, round, root, at, old(Log()), Log())
      ensures ok ==> Log() == old(Log()) + RootStates(round, root) && AllCorrect() && probes[root] == Base
    {
      ghost var before := Log();
      at := 0;
      assert before == before + RootStates(round, root)[..0];
      for e := 0 to 6
        invariant |probes| == |old(probes)| && AllCorrect()
        invariant forall j :: 0 <= j < |probes| && j != root ==> probes[j] == old(probes)[j]
        invariant Log() == before + RootStates(round, root)[..e] && GoodEdits(script, round, root, e)
        invariant e > 0 ==> probes[root] == if e % 2 == 1 then Changed else Base
      {
        at := e;
        StatesPrefix(before, round, root, e);
        StatesPrefix(before, round, root, e + 1);
        ok := Edit(round, root, e, script(round, root, e), before);
        if !ok {
          assert !GoodEdit(script, round, root, e);
          return;
        }
      }
      StatesPrefix(before, round, root, 6);
      ok := true;
    }

    method Splice(round: nat)
      requires expected == Schedule(|probes|, round)
      modifies this`expected
      ensures expected == Schedule(|probes|, round + 1)
    {
      var cut := |expected| - 2;
      expected := expected[..cut] + RoundStates(|probes|, round) + expected[cut..];
      SpliceExtends(|probes|, round);
    }

    /** Splice the round's names before the last two, then run it over all roots. */
    method Round(round: nat, script: Script) returns (ok: bool)
      requires AllCorrect() && Log() == Done(|probes|, round, 0)
      requires expected == Schedule(|probes|, round)
      requires forall i :: 0 <= i < |probes| ==> probes[i] == Base
      modifies this
      ensures |probes| == |old(probes)| && expected == Schedule(|probes|, round + 1)
      ensures Log() <= Done(|probes|, round + 1, 0)
      ensures ok <==> GoodRoots(script, round, |probes|)
      ensures !ok ==> RoundStops(script, |probes|, round, Log())
      ensures ok ==> AllCorrect() && Log() == Done(|probes|, round + 1, 0)
      ensures ok ==> forall i :: 0 <= i < |probes| ==> probes[i] == Base
    {
      Splice(round);
      for root := 0 to |probes|
        invariant |probes| == |old(probes)| && expected == Schedule(|probes|, round + 1)
        invariant AllCorrect() && Log() == Done(|probes|, round, root) && GoodRoots(script, round, root)
        invariant forall i :: 0 <= i < |probes| ==> probes[i] == Base
      {
        ghost var at;
        ok, at := EditRoot(round, root, script);
        DoneNext(|probes|, round, root);
        if !ok {
          StoppedRound(script, |probes|, round, root, at, Log());
          return;
        }
      }
      DoneRound(|probes|, round);
      return true;
    }

    /** The whole workload for a deadline that lets `rounds` rounds start. It ends accepted
        if and only if every turn of it is good, and then every probe is restored. Otherwise
        it stops at the first turn that is not, having logged the schedule up to there. */
    method Workload(rounds: nat, script: Script, create: Turn, remove: Turn) returns (verdict: Verdict, ok: bool)
      requires rounds >= 1 && |probes| >= 1
      requires AllCorrect() && Log() == expected == BindStates(|probes|)
      requires forall i :: 0 <= i < |probes| ==> probes[i] == Base
      modifies this
      ensures Log() <= Schedule(|probes|, rounds)
      ensures ok <==> verdict == Accepted
      ensures ok <==>
              && GoodRounds(script, |probes|, rounds) && Good(create, false)
              && remove.edited && remove.outcome == Correct
      ensures !GoodRounds(script, |probes|, rounds) ==> RunStops(script, |probes|, rounds, Log())
      ensures GoodRounds(script, |probes|, rounds) ==>
                Log() == Done(|probes|, rounds, 0) + TAIL[..TailRows(create, remove)]
      ensures ok ==> expected == Log() == Schedule(|probes|, rounds) && AllCorrect()
      ensures ok ==> forall i :: 0 <= i < |probes| ==> probes[i] == Base
    {
      verdict := Incorrect;
      expected := expected + TAIL;
      DoneAtStart(|probes|);
      ok := Rounds(rounds, script);
      if ok {
        verdict, ok := Finish(rounds, create, remove);
      }
    }

    method Rounds(rounds: nat, script: Script) returns (ok: bool)
      requires AllCorrect() && Log() == Done(|probes|, 0, 0) && expected == Schedule(|probes|, 0)
      requires forall i :: 0 <= i < |probes| ==> probes[i] == Base
      modifies this
      ensures |probes| == |old(probes)| && Log() <= Schedule(|probes|, rounds)
      ensures ok <==> GoodRounds(script, |probes|, rounds)
      ensures !ok ==> RunStops(script, |probes|, rounds, Log())
      ensures ok ==> AllCorrect() && Log() == Done(|probes|, rounds, 0) && expected == Schedule(|probes|, rounds)
      ensures ok ==> forall i :: 0 <= i < |probes| ==> probes[i] == Base
    {
      var round := 0;
      while round < rounds
        invariant 0 <= round <= rounds && |probes| == |old(probes)| && GoodRounds(script, |probes|, round)
        invariant expected == Schedule(|probes|, round) && Log() == Done(|probes|, round, 0) && AllCorrect()
        invariant forall i :: 0 <= i < |probes| ==> probes[i] == Base
      {
        ok := Round(round, script);
        if !ok {
          StoppedRun(script, |probes|, round, rounds, Log());
          return;
        }
        round := round + 1;
      }
      DoneInSchedule(|probes|, rounds, rounds);
      ok := true;
    }

    /** Create and remove a transient worktree, then validate the log. */
    method Finish(rounds: nat, create: Turn, remove: Turn) returns (verdict: Verdict, ok: bool)
      requires |probes| >= 1 && probes[0] == Base
      requires AllCorrect() && Log() == Done(|probes|, rounds, 0) && expected == Schedule(|probes|, rounds)
      modifies this`witnesses
      ensures Log() <= Schedule(|probes|, rounds)
      ensures ok <==> verdict == Accepted
      ensures ok <==> Good(create, false) && remove.edited && remove.outcome == Correct
      ensures Log() == old(Log()) + TAIL[..TailRows(create, remove)]
      ensures ok ==> Log() == Schedule(|probes|, rounds) && AllCorrect()
    {
      verdict, ok := Incorrect, false;
      TailStates(|probes|, rounds);
      if !create.edited {
        return;
      }
      var seen := Observe(create.content, TAIL[0], false, create.outcome);
      if !seen || !remove.edited {
        return;
      }
      seen := Observe(probes[0], TAIL[1], false, remove.outcome);
      if !seen {
        return;
      }
      verdict := ValidateWitnesses(expected, witnesses);
      CompleteAccepted(|probes|, rounds, witnesses);
      ok := true;
    }
  }

  lemma StoppedRound(script: Script, all: nat, round: nat, root: nat, e: nat, log: seq<string>)
    requires root < all && GoodRoots(script, round, root) && !GoodEdits(script, round, root, 6)
    requires StopsAt(script, round, root, e, Done(all, round, root), log)
    requires log <= Done(all, round, root) + RootStates(round, root)
    ensures RoundStops(script, all, round, log) && !GoodRoots(script, round, all)
    ensures log <= Done(all, round + 1, 0)
  {
    RootDone(all, round, root, log);
  }

  lemma StoppedRun(script: Script, all: nat, round: nat, rounds: nat, log: seq<string>)
    requires round < rounds && GoodRounds(script, all, round) && !GoodRoots(script, round, all)
    requires RoundStops(script, all, round, log) && log <= Done(all, round + 1, 0)
    ensures RunStops(script, all, rounds, log) && !GoodRounds(script, all, rounds)
    ensures log <= Schedule(all, rounds)
  {
    LogInSchedule(all, round + 1, rounds, log);
  }

  lemma LogInSchedule(all: nat, done: nat, rounds: nat, log: seq<string>)
    requires done <= rounds && log <= Done(all, done, 0)
    ensures log <= Schedule(all, rounds)
  {
    DoneInSchedule(all, done, rounds);
    PrefixOfPrefix(log, Done(all, done, 0), Schedule(all, rounds));
  }

  lemma PrefixOfPrefix<T>(a: seq<T>, b: seq<T>, c: seq<T>)
    requires a <= b <= c
    ensures a <= c
  {
  }

  /** How many of the last two states are logged. */
  function TailRows(create: Turn, remove: Turn): (n: nat)
    ensures n <= 2
  {
    if !Good(create, false) then RowsLeft(create, false)
    else if remove.edited && remove.outcome != Undecodable then 2
    else 1
  }

  /** The names logged when `rounds` rounds and `roots` roots of the next one are done. */
  function Done(all: nat, rounds: nat, roots: nat): seq<string> {
    BindStates(all) + AllRounds(all, rounds) + RoundStates(roots, rounds)
  }

  /** The log within one root's edits stays within the round. */
  lemma RootDone(all: nat, round: nat, root: nat, log: seq<string>)
    requires root < all && log <= Done(all, round, root) + RootStates(round, root)
    ensures Done(all, round, root) + RootStates(round, root) == Done(all, round, root + 1)
    ensures log <= Done(all, round + 1, 0)
  {
    DoneNext(all, round, root);
    DonePrefix(all, round, root + 1);
  }

  lemma TailStates(all: nat, rounds: nat)
    ensures var done := Done(all, rounds, 0);
            && done + TAIL[..0] == done <= Schedule(all, rounds)
            && done + TAIL[..1] == done + [TAIL[0]] <= Schedule(all, rounds)
            && done + TAIL[..2] == done + [TAIL[0]] + [TAIL[1]] == Schedule(all, rounds)
  {
    TailSplits(Done(all, rounds, 0));
    assert Schedule(all, rounds) == Done(all, rounds, 0) + TAIL;
  }

  lemma TailSplits(done: seq<string>)
    ensures done + TAIL[..0] == done && done + TAIL[..1] == done + [TAIL[0]]
    ensures done + TAIL[..2] == done + TAIL == done + [TAIL[0]] + [TAIL[1]]
  {
    assert TAIL[..0] == [] && TAIL[..1] == [TAIL[0]] && TAIL[..2] == TAIL == [TAIL[0]] + [TAIL[1]];
  }

  /** A complete and correct log of the schedule is accepted. */
  lemma CompleteAccepted(all: nat, rounds: nat, observed: seq<Witness>)
    requires all >= 1 && Ids(observed) == Schedule(all, rounds)
    requires forall i :: 0 <= i < |observed| ==> observed[i].correct
    ensures ValidateWitnesses(Schedule(all, rounds), observed) == Accepted
  {
    ScheduleDistinct(all, rounds);
    AcceptedIff(Schedule(all, rounds), observed);
  }

  lemma DoneAtStart(all: nat)
    ensures Schedule(all, 0) == BindStates(all) + TAIL && Done(all, 0, 0) == BindStates(all)
  {
  }

  lemma DoneNext(all: nat, rounds: nat, root: nat)
    ensures Done(all, rounds, root) + RootStates(rounds, root) == Done(all, rounds, root + 1)
  {
  }

  lemma DoneRound(all: nat, rounds: nat)
    ensures Done(all, rounds, all) == Done(all, rounds + 1, 0)
  {
    assert AllRounds(all, rounds + 1) == AllRounds(all, rounds) + RoundStates(all, rounds);
    Associate(BindStates(all), AllRounds(all, rounds), RoundStates(all, rounds));
  }

  /** Splicing a round's names before the last two entries extends the schedule. */
  lemma SpliceExtends(all: nat, rounds: nat)
    ensures var e := Schedule(all, rounds);
            e[..|e| - 2] + RoundStates(all, rounds) + e[|e| - 2..] == Schedule(all, rounds + 1)
  {
    var e := Schedule(all, rounds);
    assert e[..|e| - 2] == BindStates(all) + AllRounds(all, rounds) && e[|e| - 2..] == TAIL;
  }

  lemma DonePrefix(all: nat, rounds: nat, roots: nat)
    requires roots <= all
    ensures Done(all, rounds, roots) <= Done(all, rounds + 1, 0)
  {
    RoundPrefix(roots, all, rounds);
  }

  /** Whatever is logged on the way is an initial part of the final list. */
  lemma DoneInSchedule(all: nat, done: nat, rounds: nat)
    requires done <= rounds
    ensures Done(all, done, 0) <= Schedule(all, rounds)
  {
    AllRoundsPrefix(all, done, rounds);
  }

  lemma {:induction false} AllRoundsPrefix(all: nat, i: nat, n: nat)
    requires i <= n
    ensures AllRounds(all, i) <= AllRounds(all, n)
  {
    if i < n {
      AllRoundsPrefix(all, i, n - 1);
    }
  }

  lemma {:induction false} RoundPrefix(i: nat, n: nat, round: nat)
    requires i <= n
    ensures RoundStates(i, round) <= RoundStates(n, round)
  {
    if i < n {
      RoundPrefix(i, n - 1, round);
    }
  }

  lemma {:induction false} BindPrefix(i: nat, n: nat)
    requires i <= n
    ensures BindStates(i) <= BindStates(n)
  {
    if i < n {
      BindPrefix(i, n - 1);
    }
  }
}
