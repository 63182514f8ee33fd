/**
 The static storage of kern/proc.c: the process array, the node pool, and the nil-terminated lists
 threaded through them. A pointer into a static array is the index of the element it points to.
 */
module WaitLists {
  import opened Common
  import opened Ipc

  type NodeIx = n: nat | n < MAX_PROC_LISTS

  /** struct proc_list; a node is free while `proc` is nil. */
  datatype Node = Node(proc: Option<Pid>, next: Option<NodeIx>)

  /** struct proc, without the kernel stack and the address space. */
  datatype ProcRec = ProcRec(state: PState, pid: int, next: Option<Pid>, page: Page, waitingOn: Option<Pid>,
                             waiting: Option<NodeIx>, resume: Resume, r0: int)

  const ZERO_REC: ProcRec := ProcRec(Dead, 0, None, ZERO_PROC.page, None, None, Start, 0)

  type Nodes = ns: seq<Node> | |ns| == MAX_PROC_LISTS witness seq(MAX_PROC_LISTS, _ => Node(None, None))
  type ProcRecs = ps: seq<ProcRec> | |ps| == MAX_PROCS witness seq(MAX_PROCS, _ => ZERO_REC)

  /** Which nodes, in order, each process's wait list runs through. */
  type Paths = qs: seq<seq<NodeIx>> | |qs| == MAX_PROCS witness seq(MAX_PROCS, _ => [])
  /** Which process's list a node in use is on. */
  type Owners = o: seq<Pid> | |o| == MAX_PROC_LISTS witness seq(MAX_PROC_LISTS, _ => 0)

  /** `head` starts a nil-terminated chain of nodes running through exactly `q`. */
  ghost predicate Chain(ns: Nodes, head: Option<NodeIx>, q: seq<NodeIx>) {
    && head == LinkAt(q, 0)
    && (forall i {:trigger ns[q[i]]} :: 0 <= i < |q| ==> ns[q[i]].next == LinkAt(q, i + 1))
    && NoDup(q)
  }

  /** The nodes of `q` are in use, hold `ps` and belong to `p`. */
  ghost predicate Holds(ns: Nodes, owner: Owners, q: seq<NodeIx>, ps: seq<Pid>, p: Pid) {
    && |q| == |ps|
    && (forall i {:trigger ns[q[i]]} {:trigger owner[q[i]]} ::
          0 <= i < |q| ==> ns[q[i]].proc == Some(ps[i]) && owner[q[i]] == p)
  }

  /** All queues are disjoint nil-terminated chains, and the nodes in use are exactly the queued ones. */
  ghost predicate Lists(ns: Nodes, recs: ProcRecs, paths: Paths, owner: Owners, t: Table) {
    && (forall p: Pid :: Chain(ns, recs[p].waiting, paths[p]))
    && (forall p: Pid :: Holds(ns, owner, paths[p], t[p].waiting, p))
    && (forall n: NodeIx {:trigger owner[n]} :: ns[n].proc.Some? ==> n in paths[owner[n]])
  }

  ghost function Used(ns: Nodes): set<NodeIx> {
    set n: NodeIx | ns[n].proc.Some?
  }

  /** Nodes on another process's path are none of `q` and none that is free. */
  lemma PathsApart(ns: Nodes, owner: Owners, q: seq<NodeIx>, ps: seq<Pid>, p: Pid,
                   r: seq<NodeIx>, rs: seq<Pid>, l: Pid, n: NodeIx)
    requires Holds(ns, owner, q, ps, p) && Holds(ns, owner, r, rs, l) && p != l
    requires ns[n].proc.None? || n in r
    ensures n !in q && forall i :: 0 <= i < |r| ==> r[i] !in q
  {
    assert forall i :: 0 <= i < |r| ==> owner[r[i]] == l;
    assert forall i :: 0 <= i < |q| ==> owner[q[i]] == p && ns[q[i]].proc.Some?;
  }

  /** Changing nodes outside it leaves a list as it is. */
  lemma ListUntouched(ns: Nodes, ns': Nodes, owner: Owners, owner': Owners,
                      head: Option<NodeIx>, q: seq<NodeIx>, ps: seq<Pid>, p: Pid)
    requires Chain(ns, head, q) && Holds(ns, owner, q, ps, p)
    requires forall i :: 0 <= i < |q| ==> ns'[q[i]] == ns[q[i]] && owner'[q[i]] == owner[q[i]]
    ensures Chain(ns', head, q) && Holds(ns', owner', q, ps, p)
  {
  }

  // ------------------------------------------------------------------ linking a node in

  /** The memory after the store through the list's nil pointer. */
  function LinkedRecs(recs: ProcRecs, l: Pid, q: seq<NodeIx>, n: NodeIx): ProcRecs {
    if q == [] then recs[l := recs[l].(waiting := Some(n))] else recs
  }

  function LinkedNodes(ns: Nodes, q: seq<NodeIx>, n: NodeIx): Nodes {
    if q == [] then ns else ns[q[|q| - 1] := ns[q[|q| - 1]].(next := Some(n))]
  }

  lemma LinkingExtends(ns: Nodes, owner: Owners, head: Option<NodeIx>, q: seq<NodeIx>, ps: seq<Pid>, l: Pid,
                       n: NodeIx, p: Pid)
    requires Chain(ns, head, q) && Holds(ns, owner, q, ps, l) && ns[n].proc.None?
    ensures var ns' := LinkedNodes(ns[n := Node(Some(p), None)], q, n);
            Chain(ns', if q == [] then Some(n) else head, q + [n]) &&
            Holds(ns', owner[n := l], q + [n], ps + [p], l)
  {
  }

  lemma OtherList(ns: Nodes, ns': Nodes, recs: ProcRecs, paths: Paths, owner: Owners, owner': Owners,
                  t: Table, l: Pid, n: NodeIx, x: Pid)
    requires Lists(ns, recs, paths, owner, t) && x != l
    requires ns[n].proc.None? || n in paths[l]
    requires forall m: NodeIx :: m != n && m !in paths[l] ==> ns'[m] == ns[m] && owner'[m] == owner[m]
    ensures Chain(ns', recs[x].waiting, paths[x]) && Holds(ns', owner', paths[x], t[x].waiting, x)
  {
    assert Chain(ns, recs[x].waiting, paths[x]) && Holds(ns, owner, paths[x], t[x].waiting, x);
    assert Holds(ns, owner, paths[l], t[l].waiting, l);
    PathsApart(ns, owner, paths[x], t[x].waiting, x, paths[l], t[l].waiting, l, n);
    forall i | 0 <= i < |paths[x]|
      ensures paths[x][i] != n && paths[x][i] !in paths[l]
    {
      assert paths[x][i] in paths[x];
    }
    ListUntouched(ns, ns', owner, owner', recs[x].waiting, paths[x], t[x].waiting, x);
  }

  lemma LinkingKeepsMembers(ns: Nodes, paths: Paths, owner: Owners, l: Pid, n: NodeIx, p: Pid)
    requires ns[n].proc.None? && forall m: NodeIx {:trigger owner[m]} :: ns[m].proc.Some? ==> m in paths[owner[m]]
    ensures var ns' := LinkedNodes(ns[n := Node(Some(p), None)], paths[l], n);
            forall m: NodeIx :: ns'[m].proc.Some? ==> m in paths[l := paths[l] + [n]][owner[n := l][m]]
  {
    assert (paths[l] + [n])[|paths[l]|] == n;
  }

  lemma LinkingExtendsOne(ns: Nodes, recs: ProcRecs, paths: Paths, owner: Owners, t: Table, l: Pid, n: NodeIx, p: Pid)
    requires Lists(ns, recs, paths, owner, t) && ns[n].proc.None?
    ensures var ns' := LinkedNodes(ns[n := Node(Some(p), None)], paths[l], n);
            Chain(ns', LinkedRecs(recs, l, paths[l], n)[l].waiting, paths[l] + [n]) &&
            Holds(ns', owner[n := l], paths[l] + [n], t[l].waiting + [p], l)
  {
    assert Chain(ns, recs[l].waiting, paths[l]) && Holds(ns, owner, paths[l], t[l].waiting, l);
    LinkingExtends(ns, owner, recs[l].waiting, paths[l], t[l].waiting, l, n, p);
  }

  lemma LinkingKeepsChain(
    ns: Nodes, recs: ProcRecs, paths: Paths, owner: Owners, t: Table, l: Pid, n: NodeIx, p: Pid, x: Pid)
    requires Lists(ns, recs, paths, owner, t) && ns[n].proc.None?
    ensures var ns' := LinkedNodes(ns[n := Node(Some(p), None)], paths[l], n);
            Chain(ns', LinkedRecs(recs, l, paths[l], n)[x].waiting, paths[l := paths[l] + [n]][x]) &&
            Holds(ns', owner[n := l], paths[l := paths[l] + [n]][x],
                  t[l := t[l].(waiting := t[l].waiting + [p])][x].waiting, x)
  {
    if x != l {
      var ns' := LinkedNodes(ns[n := Node(Some(p), None)], paths[l], n);
      OtherList(ns, ns', recs, paths, owner, owner[n := l], t, l, n, x);
    } else {
      LinkingExtendsOne(ns, recs, paths, owner, t, l, n, p);
    }
  }

  lemma LinkingKeepsLists(ns: Nodes, recs: ProcRecs, paths: Paths, owner: Owners, t: Table, l: Pid, n: NodeIx, p: Pid)
    requires Lists(ns, recs, paths, owner, t) && ns[n].proc.None?
    ensures Lists(LinkedNodes(ns[n := Node(Some(p), None)], paths[l], n), LinkedRecs(recs, l, paths[l], n),
                  paths[l := paths[l] + [n]], owner[n := l],
                  t[l := t[l].(waiting := t[l].waiting + [p])])
  {
    LinkingKeepsMembers(ns, paths, owner, l, n, p);
    forall x: Pid
      ensures var ns' := LinkedNodes(ns[n := Node(Some(p), None)], paths[l], n);
              Chain(ns', LinkedRecs(recs, l, paths[l], n)[x].waiting, paths[l := paths[l] + [n]][x]) &&
              Holds(ns', owner[n := l], paths[l := paths[l] + [n]][x],
                    t[l := t[l].(waiting := t[l].waiting + [p])][x].waiting, x)
    {
      LinkingKeepsChain(ns, recs, paths, owner, t, l, n, p, x);
    }
  }

  lemma LinkingTakesOne(ns: Nodes, q: seq<NodeIx>, n: NodeIx, p: Pid)
    requires ns[n].proc.None?
    ensures |Used(LinkedNodes(ns[n := Node(Some(p), None)], q, n))| == |Used(ns)| + 1
  {
    assert Used(LinkedNodes(ns[n := Node(Some(p), None)], q, n)) == Used(ns) + {n};
  }

  // ------------------------------------------------------------------ unlinking a node

  /** The memory after the store of the removed node's `next` through the pointer that led to it. */
  function UnlinkedRecs(recs: ProcRecs, l: Pid, q: seq<NodeIx>, k: nat): ProcRecs
    requires k < |q|
  {
    if k == 0 then recs[l := recs[l].(waiting := LinkAt(q, 1))] else recs
  }

  function UnlinkedNodes(ns: Nodes, q: seq<NodeIx>, k: nat): Nodes
    requires k < |q|
  {
    if k == 0 then ns else ns[q[k - 1] := ns[q[k - 1]].(next := LinkAt(q, k + 1))]
  }

  lemma UnlinkingShortens(ns: Nodes, head: Option<NodeIx>, q: seq<NodeIx>, k: nat)
    requires Chain(ns, head, q) && k < |q|
    ensures var ns1 := UnlinkedNodes(ns, q, k);
            Chain(ns1[q[k] := ns1[q[k]].(proc := None)], if k == 0 then LinkAt(q, 1) else head, Without(q, k))
  {
    var ns1 := UnlinkedNodes(ns, q, k);
    var ns' := ns1[q[k] := ns1[q[k]].(proc := None)];
    var w := Without(q, k);
    WithoutMembers(q, k);
    forall i | 0 <= i < |w|
      ensures ns'[w[i]].next == LinkAt(w, i + 1)
    {
      assert w[i] == q[if i < k then i else i + 1];
    }
  }

  lemma UnlinkingHolds(ns: Nodes, owner: Owners, q: seq<NodeIx>, ps: seq<Pid>, l: Pid, k: nat)
    requires Holds(ns, owner, q, ps, l) && NoDup(q) && k < |q|
    ensures var ns1 := UnlinkedNodes(ns, q, k);
            Holds(ns1[q[k] := ns1[q[k]].(proc := None)], owner, Without(q, k), Without(ps, k), l)
  {
    var w := Without(q, k);
    forall i | 0 <= i < |w|
      ensures w[i] == q[if i < k then i else i + 1]
    {
    }
  }

  lemma UnlinkingShortensOne(ns: Nodes, recs: ProcRecs, paths: Paths, owner: Owners, t: Table, l: Pid, k: nat)
    requires Lists(ns, recs, paths, owner, t) && k < |paths[l]| && |t[l].waiting| == |paths[l]|
    ensures var ns1 := UnlinkedNodes(ns, paths[l], k);
            var ns' := ns1[paths[l][k] := ns1[paths[l][k]].(proc := None)];
            Chain(ns', UnlinkedRecs(recs, l, paths[l], k)[l].waiting, Without(paths[l], k)) &&
            Holds(ns', owner, Without(paths[l], k), Without(t[l].waiting, k), l)
  {
    assert Chain(ns, recs[l].waiting, paths[l]) && Holds(ns, owner, paths[l], t[l].waiting, l);
    UnlinkingShortens(ns, recs[l].waiting, paths[l], k);
    UnlinkingHolds(ns, owner, paths[l], t[l].waiting, l, k);
  }

  lemma UnlinkingKeepsMembers(ns: Nodes, paths: Paths, owner: Owners, l: Pid, k: nat)
    requires k < |paths[l]| && forall m: NodeIx {:trigger owner[m]} :: ns[m].proc.Some? ==> m in paths[owner[m]]
    ensures var ns1 := UnlinkedNodes(ns, paths[l], k);
            var ns' := ns1[paths[l][k] := ns1[paths[l][k]].(proc := None)];
            forall m: NodeIx :: ns'[m].proc.Some? ==> m in paths[l := Without(paths[l], k)][owner[m]]
  {
    WithoutMembers(paths[l], k);
  }

  lemma UnlinkingKeepsChain(ns: Nodes, recs: ProcRecs, paths: Paths, owner: Owners, t: Table, l: Pid, k: nat, x: Pid)
    requires Lists(ns, recs, paths, owner, t) && k < |paths[l]| && |t[l].waiting| == |paths[l]|
    ensures var ns1 := UnlinkedNodes(ns, paths[l], k);
            var ns' := ns1[paths[l][k] := ns1[paths[l][k]].(proc := None)];
            Chain(ns', UnlinkedRecs(recs, l, paths[l], k)[x].waiting, paths[l := Without(paths[l], k)][x]) &&
            Holds(ns', owner, paths[l := Without(paths[l], k)][x],
                  t[l := t[l].(waiting := Without(t[l].waiting, k))][x].waiting, x)
  {
    if x != l {
      var ns1 := UnlinkedNodes(ns, paths[l], k);
      var ns2 := ns1[paths[l][k] := ns1[paths[l][k]].(proc := None)];
      OtherList(ns, ns2, recs, paths, owner, owner, t, l, paths[l][k], x);
    } else {
      UnlinkingShortensOne(ns, recs, paths, owner, t, l, k);
    }
  }

  lemma UnlinkingKeepsLists(ns: Nodes, recs: ProcRecs, paths: Paths, owner: Owners, t: Table, l: Pid, k: nat)
    requires Lists(ns, recs, paths, owner, t) && k < |paths[l]| && |t[l].waiting| == |paths[l]|
    ensures var ns1 := UnlinkedNodes(ns, paths[l], k);
            Lists(ns1[paths[l][k] := ns1[paths[l][k]].(proc := None)], UnlinkedRecs(recs, l, paths[l], k),
                  paths[l := Without(paths[l], k)], owner,
                  t[l := t[l].(waiting := Without(t[l].waiting, k))])
  {
    forall x: Pid
      ensures var ns1 := UnlinkedNodes(ns, paths[l], k);
              var ns' := ns1[paths[l][k] := ns1[paths[l][k]].(proc := None)];
              Chain(ns', UnlinkedRecs(recs, l, paths[l], k)[x].waiting, paths[l := Without(paths[l], k)][x]) &&
              Holds(ns', owner, paths[l := Without(paths[l], k)][x],
                    t[l := t[l].(waiting := Without(t[l].waiting, k))][x].waiting, x)
    {
      UnlinkingKeepsChain(ns, recs, paths, owner, t, l, k, x);
    }
    UnlinkingKeepsMembers(ns, paths, owner, l, k);
  }

  lemma UnlinkingFreesOne(ns: Nodes, q: seq<NodeIx>, k: nat)
    requires k < |q| && ns[q[k]].proc.Some?
    ensures var ns1 := UnlinkedNodes(ns, q, k);
            |Used(ns1[q[k] := ns1[q[k]].(proc := None)])| == |Used(ns)| - 1
  {
    var ns1 := UnlinkedNodes(ns, q, k);
    assert Used(ns1[q[k] := ns1[q[k]].(proc := None)]) == Used(ns) - {q[k]};
  }

  // ------------------------------------------------------------------ the pool

  lemma PoolHasRoom(ns: Nodes, n: NodeIx)
    requires ns[n].proc.None?
    ensures |Used(ns)| < MAX_PROC_LISTS
  {
    BoundedSet(Used(ns) + {n}, MAX_PROC_LISTS);
  }

  lemma PoolFull(ns: Nodes, s: set<NodeIx>, m: nat)
    requires m <= MAX_PROC_LISTS && forall n: NodeIx :: ns[n].proc.Some?
    requires s == set n: NodeIx | ns[n].proc.Some? && m <= n
    ensures |s| == MAX_PROC_LISTS - m
    decreases MAX_PROC_LISTS - m
  {
    if m == MAX_PROC_LISTS {
      assert s == {};
    } else {
      PoolFull(ns, s - {m}, m + 1);
    }
  }
}
