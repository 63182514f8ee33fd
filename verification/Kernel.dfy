/**
 The kernel of kern/sys.c and kern/proc.c on its static storage. Every call is shown to change
 the memory exactly as the machine of module Ipc says; `st` is the state the memory stands for.
 */
module Kernel {
  import opened Common
  import opened Ipc
  import opened IpcInvariant
  import opened WaitLists

  /** What the record of process `p` has in common with its abstract state. */
  ghost predicate SameProc(r: ProcRec, a: Proc, p: Pid) {
    && a.state == r.state && a.waitingOn == r.waitingOn && a.page == r.page && a.resume == r.resume && a.r0 == r.r0
    && (r.state != Dead ==> r.pid == p)
  }

  ghost predicate SameProcs(recs: ProcRecs, t: Table) {
    forall p: Pid :: SameProc(recs[p], t[p], p)
  }

  /** Everyone queued at `l` is a created process. */
  ghost predicate LiveQueue(t: Table, l: Pid) {
    forall i :: 0 <= i < |t[l].waiting| ==> t[t[l].waiting[i]].state != Dead
  }

  /** The nodes of `q` hold the processes `ps`, which carry their own pids. */
  ghost predicate Named(ns: Nodes, recs: ProcRecs, q: seq<NodeIx>, ps: seq<Pid>) {
    && |q| == |ps|
    && forall i {:trigger ns[q[i]]} :: 0 <= i < |q| ==> ns[q[i]].proc == Some(ps[i]) && recs[ps[i]].pid == ps[i]
  }

  lemma QueueInvIsLive(t: Table, l: Pid)
    requires QueueInv(t)
    ensures LiveQueue(t, l)
  {
    forall i | 0 <= i < |t[l].waiting|
      ensures t[t[l].waiting[i]].state != Dead
    {
      assert t[l].waiting[i] in t[l].waiting;
    }
  }

  /** The list at `alive` runs through exactly `order`. */
  ghost predicate AliveChain(recs: ProcRecs, alive: Option<Pid>, order: seq<Pid>) {
    && alive == LinkAt(order, 0)
    && forall i {:trigger recs[order[i]]} :: 0 <= i < |order| ==> recs[order[i]].next == LinkAt(order, i + 1)
  }

  /** The memory and the ghost bookkeeping stand for the abstract state `s`. */
  ghost predicate Stands(ns: Nodes, recs: ProcRecs, paths: Paths, owner: Owners, alive: Option<Pid>, s: State) {
    && Lists(ns, recs, paths, owner, s.procs)
    && SameProcs(recs, s.procs)
    && AliveChain(recs, alive, s.alive)
    && NoDup(s.alive)
    && (s.up.Some? ==> s.up.value in s.alive)
    && s.used == |Used(ns)|
  }

  lemma StoreKeepsLists(ns: Nodes, recs: ProcRecs, paths: Paths, owner: Owners, t: Table, u: Pid, r: ProcRec, a: Proc)
    requires Lists(ns, recs, paths, owner, t) && r.waiting == recs[u].waiting && a.waiting == t[u].waiting
    ensures Lists(ns, recs[u := r], paths, owner, t[u := a])
  {
    forall x: Pid
      ensures Chain(ns, recs[u := r][x].waiting, paths[x]) && Holds(ns, owner, paths[x], t[u := a][x].waiting, x)
    {
      assert Chain(ns, recs[x].waiting, paths[x]) && Holds(ns, owner, paths[x], t[x].waiting, x);
    }
  }

  lemma StoreStands(ns: Nodes, recs: ProcRecs, paths: Paths, owner: Owners, alive: Option<Pid>, s: State,
                    u: Pid, r: ProcRec, a: Proc)
    requires Stands(ns, recs, paths, owner, alive, s)
    requires r.waiting == recs[u].waiting && r.next == recs[u].next && a.waiting == s.procs[u].waiting
    requires SameProc(r, a, u)
    ensures Stands(ns, recs[u := r], paths, owner, alive, Put(s, u, a))
  {
    StoreKeepsLists(ns, recs, paths, owner, s.procs, u, r, a);
  }

  lemma {:induction false} FirstReadyAt(ps: seq<Pid>, t: Table, k: nat)
    requires k < |ps| && t[ps[k]].state == Ready
    requires forall j :: 0 <= j < k ==> t[ps[j]].state != Ready
    ensures FirstReady(ps, t) == Some(ps[k])
  {
    if k > 0 {
      FirstReadyAt(ps[1..], t, k - 1);
    }
  }

  lemma {:induction false} NoneReady(ps: seq<Pid>, t: Table)
    requires forall j :: 0 <= j < |ps| ==> t[ps[j]].state != Ready
    ensures FirstReady(ps, t) == None
  {
    if ps != [] {
      NoneReady(ps[1..], t);
    }
  }

  class Kernel {
    const procs: array<ProcRec>
    const nodes: array<Node>
    var alive: Option<Pid>
    var up: Option<Pid>
    var nextpid: nat
    ghost var paths: Paths
    ghost var owner: Owners
    ghost var st: State

    ghost predicate Valid()
      reads this, procs, nodes
    {
      && procs.Length == MAX_PROCS
      && nodes.Length == MAX_PROC_LISTS
      && Stands(nodes[..], procs[..], paths, owner, alive, st)
      && st.up == up
      && st.nextpid == nextpid
    }

    /** Assignments to fields of process `u` other than its list pointers. */
    method Store(u: Pid, r: ProcRec)
      requires Valid()
      requires r.waiting == procs[u].waiting && r.next == procs[u].next && (r.state != Dead ==> r.pid == u)
      modifies procs, this`st
      ensures Valid()
      ensures procs[..] == old(procs[..])[u := r]
      ensures st == Put(old(st), u, Proc(r.state, r.waitingOn, old(st).procs[u].waiting, r.page, r.resume, r.r0))
    {
      ghost var a := Proc(r.state, r.waitingOn, st.procs[u].waiting, r.page, r.resume, r.r0);
      StoreStands(nodes[..], procs[..], paths, owner, alive, st, u, r, a);
      procs[u] := r;
      assert procs[..] == old(procs[..])[u := r];
      st := Put(st, u, a);
    }

    /** The scan of proc_list_add: the first free node is taken for `p`. */
    method Claim(p: Pid) returns (n: Option<NodeIx>)
      requires nodes.Length == MAX_PROC_LISTS
      modifies nodes
      ensures n.None? ==> nodes[..] == old(nodes[..]) && forall j: NodeIx :: nodes[j].proc.Some?
      ensures n.Some? ==> old(nodes[n.value]).proc.None? &&
                          nodes[..] == old(nodes[..])[n.value := old(nodes[n.value]).(proc := Some(p))]
    {
      n := None;
      var i := 0;
      while i < nodes.Length
        invariant i <= nodes.Length && n.None? && nodes[..] == old(nodes[..])
        invariant forall j :: 0 <= j < i ==> nodes[j].proc.Some?
      {
        if nodes[i].proc.None? {
          nodes[i] := nodes[i].(proc := Some(p));
          return Some(i);
        }
        i := i + 1;
      }
    }

    /**
     The rest of proc_list_add: walk along the list's pointers to the nil one, which is the `next`
     of node `at` or, while there is none, the head pointer, and store `n` there.
     */
    method LinkLast(l: Pid, n: NodeIx, ghost q: seq<NodeIx>)
      requires procs.Length == MAX_PROCS && nodes.Length == MAX_PROC_LISTS
      requires Chain(nodes[..], procs[l].waiting, q)
      modifies procs, nodes
      ensures nodes[..] == LinkedNodes(old(nodes[..]), q, n)
      ensures procs[..] == LinkedRecs(old(procs[..]), l, q, n)
    {
      var at: Option<NodeIx> := None;
      var link := procs[l].waiting;
      ghost var k := 0;
      while link.Some?
        invariant k <= |q| && at == (if k == 0 then None else Some(q[k - 1])) && link == LinkAt(q, k)
        invariant nodes[..] == old(nodes[..]) && procs[..] == old(procs[..])
        decreases |q| - k
      {
        at := link;
        link := nodes[at.value].next;
        k := k + 1;
      }
      if at.None? {
        procs[l] := procs[l].(waiting := Some(n));
      } else {
        nodes[at.value] := nodes[at.value].(next := Some(n));
      }
    }

    /** proc_list_add: `p` goes last on the wait list of `l` unless every pool node is in use. */
    method ProcListAdd(l: Pid, p: Pid) returns (ok: bool)
      requires Valid()
      modifies procs, nodes, this`paths, this`owner, this`st
      ensures Valid()
      ensures ok <==> old(st).used < MAX_PROC_LISTS
      ensures st == if ok then Queue(old(st), l, p) else old(st)
    {
      ghost var ns, recs := nodes[..], procs[..];
      var n := Claim(p);
      if n.None? {
        PoolFull(ns, Used(ns), 0);
        return false;
      }
      nodes[n.value] := nodes[n.value].(next := None);
      assert nodes[..] == ns[n.value := Node(Some(p), None)];
      LinkingStands(ns, recs, paths, owner, alive, st, l, n.value, p);
      LinkLast(l, n.value, paths[l]);
      paths, owner := paths[l := paths[l] + [n.value]], owner[n.value := l];
      st := Queue(st, l, p);
      ok := true;
    }

    /** The walk of proc_list_remove: to the node of the first process named `pid`, else to the last. */
    method FindLink(l: Pid, pid: int, ghost q: seq<NodeIx>, ghost ps: seq<Pid>)
      returns (at: Option<NodeIx>, n: Option<NodeIx>)
      requires procs.Length == MAX_PROCS && nodes.Length == MAX_PROC_LISTS
      requires Chain(nodes[..], procs[l].waiting, q) && Named(nodes[..], procs[..], q, ps)
      ensures q == [] ==> n.None?
      ensures q != [] ==> var k := Pick(ps, pid);
                          n == Some(q[k]) && at == if k == 0 then None else Some(q[k - 1])
    {
      at, n := None, procs[l].waiting;
      ghost var k := 0;
      while n.Some?
        invariant q == [] ==> n.None?
        invariant q != [] ==>
                    && k < |q| && n == Some(q[k]) && at == (if k == 0 then None else Some(q[k - 1]))
                    && Pick(ps, pid) == k + Pick(ps[k..], pid)
        decreases |q| - k
      {
        if procs[nodes[n.value].proc.value].pid == pid {
          break;
        } else if nodes[n.value].next.Some? {
          assert ps[k..][1..] == ps[k + 1..];
          at, n := n, nodes[n.value].next;
          k := k + 1;
        } else {
          break;
        }
      }
    }

    /** The end of proc_list_remove: `n` is unlinked through the pointer that led to it, and freed. */
    method Unlink(l: Pid, pid: int, at: Option<NodeIx>, n: NodeIx) returns (w: Option<Pid>)
      requires Valid() && st.procs[l].waiting != []
      requires var k := Pick(st.procs[l].waiting, pid);
               k < |paths[l]| == |st.procs[l].waiting| && n == paths[l][k] &&
               at == if k == 0 then None else Some(paths[l][k - 1])
      modifies procs, nodes, this`paths, this`st
      ensures Valid()
      ensures w == Some(old(st).procs[l].waiting[Pick(old(st).procs[l].waiting, pid)])
      ensures st == Unqueue(old(st), l, pid)
    {
      ghost var q, k := paths[l], Pick(st.procs[l].waiting, pid);
      UnlinkingStands(nodes[..], procs[..], paths, owner, alive, st, l, pid);
      if at.None? {
        procs[l] := procs[l].(waiting := nodes[n].next);
      } else {
        nodes[at.value] := nodes[at.value].(next := nodes[n].next);
      }
      w := nodes[n].proc;
      nodes[n] := nodes[n].(proc := None);
      paths := paths[l := Without(q, k)];
      st := Unqueue(st, l, pid);
      assert procs[..] == UnlinkedRecs(old(procs[..]), l, q, k);
      assert nodes[..] == var ns1 := UnlinkedNodes(old(nodes[..]), q, k); ns1[n := ns1[n].(proc := None)];
    }

    /** proc_list_remove: takes out the first process named `pid`, else the last one, if there is any. */
    method ProcListRemove(l: Pid, pid: int) returns (w: Option<Pid>)
      requires Valid() && LiveQueue(st.procs, l)
      modifies procs, nodes, this`paths, this`st
      ensures Valid()
      ensures old(st).procs[l].waiting == [] ==> w.None? && st == old(st)
      ensures old(st).procs[l].waiting != [] ==>
                && w == Some(old(st).procs[l].waiting[Pick(old(st).procs[l].waiting, pid)])
                && st == Unqueue(old(st), l, pid)
    {
      QueuedAreLive(nodes[..], procs[..], paths, owner, alive, st, l);
      var at, n := FindLink(l, pid, paths[l], st.procs[l].waiting);
      if n.None? {
        return None;
      }
      w := Unlink(l, pid, at, n.value);
    }

    // ---------------------------------------------------------------- scheduler

    /** next_proc: the first ready process in the rotation after `up`, or none. */
    method NextProc() returns (p: Option<Pid>)
      requires Valid()
      ensures p == Ipc.NextProc(st)
    {
      hide Stands, NoDup, Rotation;
      ghost var ps := Rotation(st.alive, st.up);
      ghost var w := RunQueue(nodes[..], procs[..], paths, owner, alive, st);
      ghost var recs := procs[..];
      if alive.None? {
        NoneReady(ps, st.procs);
        return None;
      }
      ghost var n := |ps|;
      LinksStart(recs, alive, up, ps, w);
      assert up.Some? ==> recs[up.value] == procs[up.value];
      hide LinksRound;
      p := if up.Some? then procs[up.value].next else alive;
      var go := true;
      ghost var k := 0;
      while go
        invariant k <= n
        invariant go ==> k < n && (p == Some(ps[k]) || (p.None? && up.Some? && k == w))
        invariant go && up.Some? && p.Some? ==> k < n - 1
        invariant !go ==> p == up && k == if up.Some? then n - 1 else n
        invariant forall j :: 0 <= j < k ==> st.procs[ps[j]].state != Ready
        decreases go, n - k, p.None?
      {
        if p.None? {
          p := alive;
        } else if procs[p.value].state == Ready {
          assert recs[p.value] == procs[p.value];
          FirstReadyAt(ps, st.procs, k);
          return;
        } else {
          assert recs[p.value] == procs[p.value];
          LinkFrom(recs, alive, up, ps, w, k);
          p := procs[p.value].next;
          k := k + 1;
        }
        go := p != up;
      }
      assert p.Some? ==> recs[p.value] == procs[p.value];
      if p.Some? && procs[p.value].state == Ready {
        FirstReadyAt(ps, st.procs, k);
      } else {
        NoneReady(ps, st.procs);
        p := None;
      }
    }

    /** schedule(n): the process switched to is on the CPU, and goes on from its own resume point. */
    method Schedule(n: Option<Pid>)
      requires Valid() && (n.Some? ==> n.value in st.alive && st.procs[n.value].state != Dead)
      modifies this`up, this`st, procs
      ensures Valid() && st == Ipc.Schedule(old(st), n).s
    {
      if up.Some? {
        assert SameProc(procs[up.value], st.procs[up.value], up.value);
        if procs[up.value].state == OnCpu {
          Store(up.value, procs[up.value].(state := Ready));
        }
      }
      assert st == Preempt(old(st));
      if n.Some? {
        up := n;
      } else {
        up := NextProc();
      }
      st := st.(up := up);
      if up.Some? {
        assert SameProc(procs[up.value], st.procs[up.value], up.value);
        Store(up.value, procs[up.value].(state := OnCpu));
      }
    }

    // ---------------------------------------------------------------- new processes

    /** add_to_list_back on `alive`: walk to the last process and store `p` in its nil `next`. */
    method AddToListBack(p: Pid, ghost order: seq<Pid>)
      requires procs.Length == MAX_PROCS && AliveChain(procs[..], alive, order) && NoDup(order)
      modifies procs, this`alive
      ensures procs[..] == Appended(old(procs[..]), Seen(order, p), p)
      ensures alive == if order == [] then Some(p) else old(alive)
    {
      ghost var seen := Seen(order, p);
      CutShort(procs[..], alive, order, p, procs[p].(next := None));
      procs[p] := procs[p].(next := None);
      ghost var cut := procs[..];
      assert cut == old(procs[..])[p := old(procs[p]).(next := None)];
      var pp := alive;
      ghost var k := 0;
      while pp.Some? && procs[pp.value].next.Some?
        invariant pp.Some? ==> k < |seen| && pp.value == seen[k]
        invariant pp.None? ==> seen == []
        decreases |seen| - k
      {
        assert cut[pp.value] == procs[pp.value];
        pp := procs[pp.value].next;
        k := k + 1;
      }
      assert pp.Some? ==> cut[pp.value] == procs[pp.value] && k == |seen| - 1;
      if pp.None? {
        alive := Some(p);
      } else {
        procs[pp.value] := procs[pp.value].(next := Some(p));
      }
    }

    /** A record set up anew, and appended. */
    method SetUp(p: Pid, r: ProcRec, ghost order: seq<Pid>)
      requires procs.Length == MAX_PROCS && AliveChain(procs[..], alive, order) && NoDup(order) && r.next.None?
      modifies procs, this`alive
      ensures procs[..] == Appended(old(procs[..])[p := r], Seen(order, p), p)
      ensures alive == if order == [] then Some(p) else old(alive)
    {
      hide AliveChain, NoDup, Appended;
      CutShort(procs[..], alive, order, p, r);
      SeenOnce(order, p);
      hide Seen;
      procs[p] := r;
      assert procs[..] == old(procs[..])[p := r];
      AddToListBack(p, Seen(order, p));
    }

    /**
     proc_new: the process that `nextpid` names is set up, ready to start, last on `alive`. With
     MAX_PROCS processes there, it is one of them, and then `alive` is no list any more.
     */
    method ProcNew() returns (pid: Pid)
      requires Valid() && AliveInv(st) && PointsInv(st.procs)
      modifies procs, this`alive, this`nextpid, this`st
      ensures pid == old(nextpid) && nextpid == (pid + 1) % MAX_PROCS
      ensures procs[..] == Appended(old(procs[..])[pid := ZERO_REC.(pid := pid, state := Ready)],
                                    Seen(old(st).alive, pid), pid)
      ensures |old(st).alive| < MAX_PROCS ==> Valid() && st == Ipc.ProcNew(old(st))
      ensures |old(st).alive| == MAX_PROCS ==> st == old(st) && !IsList(procs[..], alive)
    {
      pid := nextpid;
      nextpid := (pid + 1) % MAX_PROCS;
      hide Stands, AliveInv, PointsInv, IsList, Appended, Seen, Ipc.ProcNew;
      var blank := ZERO_REC.(pid := pid, state := Ready);
      Recycled(nodes[..], procs[..], paths, owner, alive, st, blank);
      SetUp(pid, blank, st.alive);
      if |st.alive| < MAX_PROCS {
        st := Ipc.ProcNew(st);
      }
    }

    // ---------------------------------------------------------------- kernel calls

    /** The running process's call returns `v` in r0, to user mode. */
    method Return(v: int)
      requires Valid() && st.up.Some? && st.procs[st.up.value].state != Dead
      modifies procs, this`st
      ensures Valid() && st == Ipc.Return(old(st), v).s
    {
      assert SameProc(procs[up.value], st.procs[up.value], up.value);
      Store(up.value, procs[up.value].(resume := User, r0 := v));
    }

    /** ksend up to its schedule(): the caller is queued at `p` and blocked, if there is a free node. */
    method Block(p: Pid) returns (ok: bool)
      requires Valid() && st.up.Some? && st.procs[st.up.value].state != Dead
      modifies procs, nodes, this`paths, this`owner, this`st
      ensures Valid() && ok == (old(st).used < MAX_PROC_LISTS)
      ensures st == if ok then Enqueued(old(st), p)
                    else Put(old(st), old(st).up.value, old(st).procs[old(st).up.value].(waitingOn := Some(p)))
    {
      var u := up.value;
      assert SameProc(procs[u], st.procs[u], u);
      Store(u, procs[u].(waitingOn := Some(p)));
      ok := ProcListAdd(p, u);
      if ok {
        assert SameProc(procs[u], st.procs[u], u);
        Store(u, procs[u].(state := Send, resume := InKsend));
        st := st.(log := st.log + [Sent(u, p, st.procs[u].page.mOut)]);
      }
    }

    method Ksend(p: Pid)
      requires Valid() && AliveInv(st) && st.up.Some? && st.procs[st.up.value].state == OnCpu
      modifies this, procs, nodes
      ensures Valid() && st == Ipc.Ksend(old(st), p).s
    {
      AliveMember(st, p);
      assert SameProc(procs[p], st.procs[p], p);
      if procs[p].state == Dead {
        Return(ERR);
        return;
      }
      var ok := Block(p);
      if !ok {
        Return(ERR);
        return;
      }
      assert SameProc(procs[p], st.procs[p], p);
      hide Valid, Stands, Ipc.Schedule;
      if procs[p].state == Recv {
        Schedule(Some(p));
      } else {
        Schedule(None);
      }
    }

    /** The message copy and return value of a reply. */
    method Answer(p: Pid, ret: int)
      requires Valid() && st.up.Some? && MayReply(st, p)
      modifies procs, this`st
      ensures Valid() && st == Ipc.Answer(old(st), p, ret)
    {
      var u := up.value;
      assert SameProc(procs[p], st.procs[p], p) && SameProc(procs[u], st.procs[u], u);
      ghost var m := procs[u].page.mOut;
      Store(p, procs[p].(page := procs[p].page.(mIn := procs[u].page.mOut)));
      assert SameProc(procs[p], st.procs[p], p);
      Store(p, procs[p].(page := procs[p].page.(mRet := ret)));
      st := st.(log := st.log + [Replied(u, p, ret, m)]);
    }

    method Kreply(p: Pid, ret: int)
      requires Valid() && AliveInv(st) && st.up.Some? && st.procs[st.up.value].state == OnCpu
      modifies this, procs
      ensures Valid() && st == Ipc.Kreply(old(st), p, ret).s
    {
      var u := up.value;
      AliveMember(st, p);
      assert SameProc(procs[p], st.procs[p], p) && SameProc(procs[u], st.procs[u], u);
      if procs[p].state != Reply || procs[p].waitingOn != up {
        Return(ERR);
        return;
      }
      Answer(p, ret);
      assert SameProc(procs[u], st.procs[u], u);
      Store(u, procs[u].(resume := AfterKreply));
      assert st == Answered(old(st), p, ret, OnCpu, AfterKreply);
      Schedule(Some(p));
    }

    method KreplyRecv(p: Pid, ret: int, pid: int)
      requires Valid() && AliveInv(st) && st.up.Some? && st.procs[st.up.value].state == OnCpu
      modifies this, procs
      ensures Valid() && st == Ipc.KreplyRecv(old(st), p, ret, pid).s
    {
      var u := up.value;
      AliveMember(st, p);
      assert SameProc(procs[p], st.procs[p], p) && SameProc(procs[u], st.procs[u], u);
      if procs[p].state != Reply || procs[p].waitingOn != up {
        Return(ERR);
        return;
      }
      Answer(p, ret);
      assert SameProc(procs[u], st.procs[u], u);
      Store(u, procs[u].(state := Recv, resume := ReplyRecvParked(pid)));
      assert st == Answered(old(st), p, ret, Recv, ReplyRecvParked(pid));
      Schedule(Some(p));
    }

    /** A proc_list_remove that finds a sender, and krecv's copying of its message. */
    method Take(pid: int) returns (w: Option<Pid>)
      requires Valid() && st.up.Some? && st.procs[st.up.value].state != Dead && LiveQueue(st.procs, st.up.value)
      modifies procs, nodes, this`paths, this`st
      ensures Valid()
      ensures old(st).procs[old(st).up.value].waiting == [] ==> w.None? && st == old(st)
      ensures old(st).procs[old(st).up.value].waiting != [] ==>
                var q := old(st).procs[old(st).up.value].waiting;
                w == Some(q[Pick(q, pid)]) && st == Taken(old(st), pid)
    {
      var u := up.value;
      w := ProcListRemove(u, pid);
      if w.Some? {
        assert SameProc(procs[u], st.procs[u], u) && SameProc(procs[w.value], st.procs[w.value], w.value);
        ghost var m := procs[w.value].page.mOut;
        Store(u, procs[u].(page := procs[u].page.(mIn := procs[w.value].page.mOut)));
        assert SameProc(procs[w.value], st.procs[w.value], w.value);
        Store(w.value, procs[w.value].(state := Reply));
        st := st.(log := st.log + [Received(u, w.value, m)]);
      }
    }

    /** One turn of krecv's loop, up to its schedule() or its return. */
    method Krecv(pid: int, starting: bool)
      requires Valid() && Inv(st) && st.up.Some?
      modifies this, procs, nodes
      ensures Valid() && st == Ipc.Krecv(old(st), pid, starting).s
    {
      var u := up.value;
      QueueInvIsLive(st.procs, u);
      var w := Take(pid);
      if w.Some? {
        TakenInv(old(st), pid);
        if starting {
          Kreply(w.value, OK);
        } else {
          Return(w.value);
        }
      } else {
        assert SameProc(procs[u], st.procs[u], u);
        Store(u, procs[u].(state := Recv, resume := RecvLoop(pid, starting)));
        Schedule(None);
      }
    }

    /** The end of ksend: the value the replier left in the caller's page. */
    method KsendReturn()
      requires Valid() && st.up.Some? && st.procs[st.up.value].state == OnCpu && st.procs[st.up.value].resume == InKsend
      modifies procs, this`st
      ensures Valid() && st == Resumed(old(st)).s
    {
      assert SameProc(procs[up.value], st.procs[up.value], up.value);
      st := st.(log := st.log + [Returned(up.value, procs[up.value].page.mRet, procs[up.value].page.mIn)]);
      Return(procs[up.value].page.mRet);
    }

    /** The rest of the call that the process now on the CPU had been switched away from. */
    method Resume()
      requires Valid() && Inv(st) && Enabled(st, Continue)
      modifies this, procs, nodes
      ensures Valid() && st == Resumed(old(st)).s
    {
      var u := up.value;
      assert SameProc(procs[u], st.procs[u], u) && st.procs[u].state == OnCpu && AliveInv(st);
      hide Valid, Stands, Ipc.Krecv, Inv, AliveInv, Ipc.Return;
      match procs[u].resume
      case Start => Krecv(PID_ALL, true);
      case InKsend => KsendReturn();
      case RecvLoop(pid, starting) => Krecv(pid, starting);
      case ReplyRecvParked(pid) => Krecv(pid, false);
      case AfterKreply => Return(OK);
    }

    /** One step of the machine: a system call, the timer, the rest of a call, or user code. */
    method Execute(step: Step)
      requires Valid() && Inv(st) && Enabled(st, step)
      modifies this, procs, nodes
      ensures Valid() && Inv(st) && st == Next(old(st), step).s
    {
      StepKeepsInv(st, step);
      match step
      case Tick => Schedule(None);
      case Continue => Resume();
      case UserWrite(page) =>
        assert SameProc(procs[up.value], st.procs[up.value], up.value);
        Store(up.value, procs[up.value].(page := page));
      case DoSend(p) => Ksend(p);
      case DoRecv(pid) => Krecv(pid, false);
      case DoReply(p, ret) => Kreply(p, ret);
      case DoReplyRecv(p, ret, pid) => KreplyRecv(p, ret, pid);
      case DoCreate =>
        var pid := ProcNew();
        Return(pid);
    }

    /** Any run of the machine, from boot on, is a run of the kernel's memory. */
    method Run(steps: seq<Step>)
      requires Valid() && Inv(st) && Legal(st, steps)
      modifies this, procs, nodes
      ensures Valid() && Inv(st) && st == Final(old(st), steps)
    {
      var i := 0;
      while i < |steps|
        invariant i <= |steps| && Valid() && Inv(st)
        invariant Legal(st, steps[i..]) && Final(st, steps[i..]) == Final(old(st), steps)
      {
        Execute(steps[i]);
        i := i + 1;
      }
    }

    /** kmain: zeroed static storage, process 0 created and switched to in user mode. */
    constructor ()
      ensures Valid() && Inv(st) && st == Booted()
    {
      procs := new ProcRec[MAX_PROCS](_ => ZERO_REC);
      nodes := new Node[MAX_PROC_LISTS](_ => Node(None, None));
      alive, up, nextpid := None, None, 0;
      paths, owner := seq(MAX_PROCS, _ => []), seq(MAX_PROC_LISTS, _ => 0);
      st := State(seq(MAX_PROCS, _ => ZERO_PROC), [], None, 0, 0, []);
      new;
      assert Used(nodes[..]) == {};
      var pid := ProcNew();
      assert SameProc(procs[0], st.procs[0], 0);
      Store(0, procs[0].(resume := User));
      Schedule(Some(0));
      BootInv();
    }
  }

  lemma LinkingStands(ns: Nodes, recs: ProcRecs, paths: Paths, owner: Owners, alive: Option<Pid>, s: State,
                      l: Pid, n: NodeIx, p: Pid)
    requires Stands(ns, recs, paths, owner, alive, s) && ns[n].proc.None?
    ensures Chain(ns[n := Node(Some(p), None)], recs[l].waiting, paths[l])
    ensures Stands(LinkedNodes(ns[n := Node(Some(p), None)], paths[l], n), LinkedRecs(recs, l, paths[l], n),
                   paths[l := paths[l] + [n]], owner[n := l], alive,
                   Queue(s, l, p))
    ensures s.used < MAX_PROC_LISTS
  {
    PoolHasRoom(ns, n);
    LinkingTakesOne(ns, paths[l], n, p);
    FreshNodeKeepsChain(ns, recs, paths, owner, s.procs, l, n, p);
    LinkingKeepsLists(ns, recs, paths, owner, s.procs, l, n, p);
  }

  lemma FreshNodeKeepsChain(ns: Nodes, recs: ProcRecs, paths: Paths, owner: Owners, t: Table, l: Pid, n: NodeIx, p: Pid)
    requires Lists(ns, recs, paths, owner, t) && ns[n].proc.None?
    ensures Chain(ns[n := Node(Some(p), None)], recs[l].waiting, paths[l])
  {
    assert Chain(ns, recs[l].waiting, paths[l]) && Holds(ns, owner, paths[l], t[l].waiting, l);
  }

  lemma QueuedAreLive(ns: Nodes, recs: ProcRecs, paths: Paths, owner: Owners, alive: Option<Pid>, s: State, l: Pid)
    requires Stands(ns, recs, paths, owner, alive, s) && LiveQueue(s.procs, l)
    ensures Chain(ns, recs[l].waiting, paths[l]) && Named(ns, recs, paths[l], s.procs[l].waiting)
  {
    assert Chain(ns, recs[l].waiting, paths[l]) && Holds(ns, owner, paths[l], s.procs[l].waiting, l);
    forall i | 0 <= i < |paths[l]|
      ensures recs[s.procs[l].waiting[i]].pid == s.procs[l].waiting[i]
    {
      var x := s.procs[l].waiting[i];
      assert SameProc(recs[x], s.procs[x], x);
    }
  }

  lemma UnlinkingStands(
    ns: Nodes, recs: ProcRecs, paths: Paths, owner: Owners, alive: Option<Pid>, s: State, l: Pid, pid: int)
    requires Stands(ns, recs, paths, owner, alive, s) && s.procs[l].waiting != [] && |paths[l]| == |s.procs[l].waiting|
    ensures var k := Pick(s.procs[l].waiting, pid);
            var n := paths[l][k];
            var ns1 := UnlinkedNodes(ns, paths[l], k);
            && ns[n].next == LinkAt(paths[l], k + 1) && ns[n].proc == Some(s.procs[l].waiting[k])
            && Stands(ns1[n := ns1[n].(proc := None)], UnlinkedRecs(recs, l, paths[l], k),
                      paths[l := Without(paths[l], k)], owner, alive, Unqueue(s, l, pid))
  {
    var k := Pick(s.procs[l].waiting, pid);
    assert Chain(ns, recs[l].waiting, paths[l]) && Holds(ns, owner, paths[l], s.procs[l].waiting, l);
    UnlinkingFreesOne(ns, paths[l], k);
    UnlinkingKeepsLists(ns, recs, paths, owner, s.procs, l, k);
  }

  /**
   Where the `next` pointers lead in the rotation `ps` after `up`: from each place to the following
   one, but to nil at place `w`, where the list ends and the rotation goes on from its head.
   */
  ghost predicate LinksRound(recs: ProcRecs, alive: Option<Pid>, up: Option<Pid>, ps: seq<Pid>, w: nat) {
    var n := |ps|;
    && n > 0 && NoDup(ps)
    && (up.None? ==> w == n && alive == Some(ps[0]) && recs[ps[n - 1]].next == None)
    && (up.Some? ==> w < n && alive == Some(ps[w]) && ps[n - 1] == up.value &&
                     recs[up.value].next == if w == 0 then None else Some(ps[0]))
    && (forall k :: 0 <= k < n - 1 ==> recs[ps[k]].next == if k + 1 == w then None else Some(ps[k + 1]))
  }

  /** Where next_proc starts looking, and that it has not gone round when it starts from the head again. */
  lemma LinksStart(recs: ProcRecs, alive: Option<Pid>, up: Option<Pid>, ps: seq<Pid>, w: nat)
    requires LinksRound(recs, alive, up, ps, w) && alive.Some?
    ensures |ps| > 0 && (up.None? ==> alive == Some(ps[0]))
    ensures up.Some? ==>
              && w < |ps| && alive == Some(ps[w]) && (alive == up <==> w == |ps| - 1) && ps[|ps| - 1] == up.value
              && recs[up.value].next == (if w == 0 then None else Some(ps[0]))
  {
  }

  /** Where it is after following the pointer at place `k`. */
  lemma LinkFrom(recs: ProcRecs, alive: Option<Pid>, up: Option<Pid>, ps: seq<Pid>, w: nat, k: nat)
    requires LinksRound(recs, alive, up, ps, w) && k < |ps| && (up.Some? ==> k < |ps| - 1)
    ensures var p := recs[ps[k]].next;
            && (p == up ==> k + 1 == if up.Some? then |ps| - 1 else |ps|)
            && (p != up && p.None? ==> k + 1 == w)
            && (p != up && p.Some? ==> k + 1 < (if up.Some? then |ps| - 1 else |ps|) && p == Some(ps[k + 1]))
  {
    if k < |ps| - 1 {
      assert recs[ps[k]].next == if k + 1 == w then None else Some(ps[k + 1]);
    }
  }

  /** What next_proc needs of the memory. */
  lemma RunQueue(ns: Nodes, recs: ProcRecs, paths: Paths, owner: Owners, alive: Option<Pid>, s: State)
    returns (w: nat)
    requires Stands(ns, recs, paths, owner, alive, s)
    ensures forall q: Pid :: recs[q].state == s.procs[q].state
    ensures alive.None? ==> Rotation(s.alive, s.up) == []
    ensures alive.Some? ==> LinksRound(recs, alive, s.up, Rotation(s.alive, s.up), w)
  {
    forall q: Pid
      ensures recs[q].state == s.procs[q].state
    {
      assert SameProc(recs[q], s.procs[q], q);
    }
    hide Lists, SameProcs, LinksRound;
    w := 0;
    if alive.Some? {
      w := RotationLinks(recs, alive, s.alive, s.up);
    }
  }

  lemma RotationLinks(recs: ProcRecs, alive: Option<Pid>, order: seq<Pid>, up: Option<Pid>) returns (w: nat)
    requires AliveChain(recs, alive, order) && alive.Some? && NoDup(order)
    requires up.Some? ==> up.value in order
    ensures LinksRound(recs, alive, up, Rotation(order, up), w)
  {
    var ps := Rotation(order, up);
    var n := |order|;
    if up.None? {
      w := n;
      assert forall k :: 0 <= k < n - 1 ==> recs[order[k]].next == Some(order[k + 1]);
    } else {
      var a := IndexOf(order, up.value);
      w := n - 1 - a;
      assert |ps| == n;
      forall k | 0 <= k < n - 1
        ensures recs[ps[k]].next == if k + 1 == w then None else Some(ps[k + 1])
      {
        var b := if k < w then a + 1 + k else k - w;
        assert ps[k] == order[b] && recs[order[b]].next == LinkAt(order, b + 1);
      }
      assert recs[order[a]].next == LinkAt(order, a + 1);
    }
  }

  lemma NewProcessIsUnused(ns: Nodes, recs: ProcRecs, paths: Paths, owner: Owners, alive: Option<Pid>, s: State)
    requires Stands(ns, recs, paths, owner, alive, s) && AliveInv(s) && PointsInv(s.procs) && |s.alive| < MAX_PROCS
    ensures s.nextpid < MAX_PROCS && s.nextpid !in s.alive
    ensures paths[s.nextpid] == [] && recs[s.nextpid].waiting == None && s.procs[s.nextpid].waiting == []
  {
    var n: Pid := s.nextpid;
    assert PointInv(s.procs[n]) && s.procs[n].state == Dead;
    assert Chain(ns, recs[n].waiting, paths[n]) && Holds(ns, owner, paths[n], s.procs[n].waiting, n);
  }

  /** `p` is a process of the list exactly when there are MAX_PROCS. */
  lemma NextPidListed(s: State)
    requires AliveInv(s)
    ensures s.nextpid < MAX_PROCS && (s.nextpid in s.alive <==> |s.alive| == MAX_PROCS) && NoDup(s.alive)
  {
    if |s.alive| == MAX_PROCS {
      assert s.alive[0] == 0;
    }
  }

  /** Clearing the `next` of `p` ends the list there, if `p` is on it. */
  function Seen(order: seq<Pid>, p: Pid): (seen: seq<Pid>)
    ensures seen <= order && (p in order ==> seen != [] && seen[|seen| - 1] == p) && (p !in order ==> seen == order)
  {
    order[..if p in order then IndexOf(order, p) + 1 else |order|]
  }

  lemma SeenOnce(order: seq<Pid>, p: Pid)
    requires NoDup(order)
    ensures Seen(Seen(order, p), p) == Seen(order, p)
  {
    var seen := Seen(order, p);
    if p in order {
      assert IndexOf(seen, p) == |seen| - 1;
    }
  }

  lemma CutShort(recs: ProcRecs, alive: Option<Pid>, order: seq<Pid>, p: Pid, r: ProcRec)
    requires AliveChain(recs, alive, order) && NoDup(order) && r.next.None?
    ensures AliveChain(recs[p := r], alive, Seen(order, p)) && NoDup(Seen(order, p))
  {
    var seen := Seen(order, p);
    forall i {:trigger recs[p := r][seen[i]]} | 0 <= i < |seen|
      ensures recs[p := r][seen[i]].next == LinkAt(seen, i + 1)
    {
      assert seen[i] == order[i] && recs[order[i]].next == LinkAt(order, i + 1);
    }
  }

  /** What proc_new does when it has set up the record `nextpid` names anew and appends it. */
  lemma Recycled(ns: Nodes, recs: ProcRecs, paths: Paths, owner: Owners, alive: Option<Pid>, s: State, r: ProcRec)
    requires Stands(ns, recs, paths, owner, alive, s) && AliveInv(s) && PointsInv(s.procs)
    requires r == ZERO_REC.(pid := s.nextpid, state := Ready)
    ensures s.nextpid < MAX_PROCS
    ensures var p, order := s.nextpid, s.alive;
            var recs' := Appended(recs[p := r], Seen(order, p), p);
            var alive' := if order == [] then Some(p) else alive;
            && AliveChain(recs, alive, order) && NoDup(order)
            && (|order| < MAX_PROCS ==> Stands(ns, recs', paths, owner, alive', Ipc.ProcNew(s)))
            && (|order| == MAX_PROCS ==> !IsList(recs', alive'))
  {
    NextPidListed(s);
    hide Lists, SameProcs, AliveChain, AliveInv, PointsInv, Appended, Ipc.ProcNew;
    AppendedIff(recs, alive, s.alive, s.nextpid, r);
    if |s.alive| < MAX_PROCS {
      var recs' := Appended(recs[s.nextpid := r], Seen(s.alive, s.nextpid), s.nextpid);
      AppendedOthers(recs[s.nextpid := r], Seen(s.alive, s.nextpid), s.nextpid);
      hide Stands;
      NewProcessStands(ns, recs, recs', paths, owner, alive, if s.alive == [] then Some(s.nextpid) else alive, s);
    }
  }

  /** What add_to_list_back writes to the records, given the list it walks along. */
  function Appended(recs: ProcRecs, seen: seq<Pid>, p: Pid): ProcRecs {
    var r := recs[p := recs[p].(next := None)];
    if seen == [] then r
    else
      var last := seen[|seen| - 1];
      r[last := r[last].(next := Some(p))]
  }

  /** `alive` leads through the records, each once, to a nil. */
  ghost predicate IsList(recs: ProcRecs, alive: Option<Pid>) {
    exists o: seq<Pid> :: NoDup(o) && AliveChain(recs, alive, o)
  }

  lemma AppendedOthers(recs: ProcRecs, seen: seq<Pid>, p: Pid)
    ensures var recs' := Appended(recs, seen, p);
            forall q: Pid :: recs'[q] == recs[q].(next := recs'[q].next)
  {
  }

  lemma AppendedChain(recs: ProcRecs, alive: Option<Pid>, order: seq<Pid>, p: Pid, r: ProcRec)
    requires AliveChain(recs, alive, order) && NoDup(order) && r.next.None? && p !in order
    ensures AliveChain(Appended(recs[p := r], order, p), if order == [] then Some(p) else alive, order + [p])
    ensures NoDup(order + [p])
  {
    var recs' := Appended(recs[p := r], order, p);
    var all: seq<Pid> := order + [p];
    forall i {:trigger recs'[all[i]]} | 0 <= i < |all|
      ensures recs'[all[i]].next == LinkAt(all, i + 1)
    {
      if i < |order| {
        assert all[i] == order[i] && recs[order[i]].next == LinkAt(order, i + 1);
      }
    }
  }

  /** Lists that start in the same place are the same as far as the same pointers lead. */
  lemma {:induction false} SameStart(
    recs: ProcRecs, recs': ProcRecs, alive: Option<Pid>, order: seq<Pid>, o: seq<Pid>, k: nat)
    requires AliveChain(recs, alive, order) && AliveChain(recs', alive, o) && k < |order|
    requires forall i :: 0 <= i < k ==> recs'[order[i]].next == recs[order[i]].next
    ensures k < |o| && o[k] == order[k]
  {
    if k > 0 {
      SameStart(recs, recs', alive, order, o, k - 1);
      assert recs[order[k - 1]].next == LinkAt(order, k) && recs'[o[k - 1]].next == LinkAt(o, k);
    }
  }

  lemma SelfLoop(recs: ProcRecs, alive: Option<Pid>, o: seq<Pid>, k: nat)
    requires AliveChain(recs, alive, o) && k < |o| && recs[o[k]].next == Some(o[k])
    ensures !NoDup(o)
  {
    assert recs[o[k]].next == LinkAt(o, k + 1);
  }

  /** Appending a record that has been set up anew keeps the list a list iff it was not on it. */
  lemma AppendedIff(recs: ProcRecs, alive: Option<Pid>, order: seq<Pid>, p: Pid, r: ProcRec)
    requires AliveChain(recs, alive, order) && NoDup(order) && r.next.None?
    ensures var recs' := Appended(recs[p := r], Seen(order, p), p);
            var alive' := if order == [] then Some(p) else alive;
            && (p !in order ==> AliveChain(recs', alive', order + [p]) && NoDup(order + [p]))
            && (IsList(recs', alive') <==> p !in order)
  {
    var recs' := Appended(recs[p := r], Seen(order, p), p);
    var alive' := if order == [] then Some(p) else alive;
    if p in order {
      assert recs'[p].next == Some(p);
      hide AliveChain, NoDup;
      if o: seq<Pid> :| NoDup(o) && AliveChain(recs', alive', o) {
        SameStart(recs, recs', alive, order, o, IndexOf(order, p));
        SelfLoop(recs', alive', o, IndexOf(order, p));
      }
    } else {
      AppendedChain(recs, alive, order, p, r);
    }
  }
  lemma NewProcessStands(ns: Nodes, recs: ProcRecs, recs': ProcRecs, paths: Paths, owner: Owners,
                         alive: Option<Pid>, alive': Option<Pid>, s: State)
    requires Stands(ns, recs, paths, owner, alive, s) && AliveInv(s) && PointsInv(s.procs) && |s.alive| < MAX_PROCS
    requires AliveChain(recs', alive', s.alive + [s.nextpid])
    requires forall q: Pid :: q != s.nextpid ==> recs'[q] == recs[q].(next := recs'[q].next)
    requires recs'[s.nextpid] == ZERO_REC.(pid := s.nextpid, state := Ready, next := recs'[s.nextpid].next)
    ensures Stands(ns, recs', paths, owner, alive', Ipc.ProcNew(s))
  {
    NewProcessIsUnused(ns, recs, paths, owner, alive, s);
    var s' := Ipc.ProcNew(s);
    forall q: Pid
      ensures Chain(ns, recs'[q].waiting, paths[q]) && Holds(ns, owner, paths[q], s'.procs[q].waiting, q)
      ensures SameProc(recs'[q], s'.procs[q], q)
    {
      assert Chain(ns, recs[q].waiting, paths[q]) && Holds(ns, owner, paths[q], s.procs[q].waiting, q);
      assert SameProc(recs[q], s.procs[q], q);
    }
  }

  lemma AliveMember(s: State, p: Pid)
    requires AliveInv(s)
    ensures s.procs[p].state != Dead ==> p in s.alive
  {
    assert s.procs[p].state != Dead ==> s.alive[p] == p;
  }
}
