/** Which processes a sample charges to the measured daemon: the root and, by repeated
    closure over one snapshot of parent links, everything descended from it. */
module ProcessTree {

  datatype Process = Process(ppid: int, ticks: nat, rss: nat)

  type Snapshot = map<int, Process>

  /** A parent chain: each link is a snapshot process whose parent is the next one. */
  ghost predicate Chain(all: Snapshot, path: seq<int>) {
    && path != []
    && forall i :: 0 <= i < |path| - 1 ==> path[i] in all && all[path[i]].ppid == path[i + 1]
  }

  /** `pid` is the root itself or reaches it over parent links. */
  ghost predicate Descends(all: Snapshot, root: int, pid: int) {
    exists path :: Chain(all, path) && path[0] == pid && path[|path| - 1] == root
  }

  lemma DescendsStep(all: Snapshot, root: int, pid: int)
    requires pid in all && Descends(all, root, all[pid].ppid)
    ensures Descends(all, root, pid)
  {
    var path :| Chain(all, path) && path[0] == all[pid].ppid && path[|path| - 1] == root;
    var longer := [pid] + path;
    assert Chain(all, longer) && longer[0] == pid && longer[|longer| - 1] == root;
  }

  /** A set that holds the root and every snapshot child of a member holds every descendant. */
  lemma {:induction false} ClosedHoldsChain(all: Snapshot, root: int, owned: set<int>, path: seq<int>)
    requires root in owned && forall p :: p in all && all[p].ppid in owned ==> p in owned
    requires Chain(all, path) && path[|path| - 1] == root
    ensures path[0] in owned
  {
    if |path| > 1 {
      assert path[1..][0] == path[1];
      assert forall i :: 0 <= i < |path| - 2 ==> path[1..][i] == path[i + 1];
      ClosedHoldsChain(all, root, owned, path[1..]);
    }
  }

  /** The ownership loop. It ends for every parent relation, cyclic ones included, and
      owns exactly the descendants, with the root keeping the row read for it first. */
  method Owned(root: int, rootRow: Process, all: Snapshot) returns (owned: Snapshot)
    ensures forall p :: p in owned <==> Descends(all, root, p)
    ensures root in owned && owned[root] == rootRow
    ensures forall p :: p in owned && p != root ==> p in all && owned[p] == all[p]
  {
    owned := map[root := rootRow];
    assert Chain(all, [root]);
    while true
      invariant root in owned && owned[root] == rootRow
      invariant forall p :: p in owned ==> Descends(all, root, p)
      invariant forall p :: p in owned && p != root ==> p in all && owned[p] == all[p]
      decreases all.Keys - owned.Keys
    {
      var added := map p | p in all && all[p].ppid in owned && p !in owned :: all[p];
      if added == map[] {
        assert forall p :: p in all && all[p].ppid in owned ==> p in added || p in owned;
        break;
      }
      forall p | p in added ensures Descends(all, root, p) {
        DescendsStep(all, root, p);
      }
      var one :| one in added;
      assert one in all.Keys - owned.Keys && one !in all.Keys - (owned + added).Keys;
      owned := owned + added;
    }
    forall p | Descends(all, root, p) ensures p in owned {
      var path :| Chain(all, path) && path[0] == p && path[|path| - 1] == root;
      ClosedHoldsChain(all, root, owned.Keys, path);
    }
  }
}
