/** Every kernel step keeps the invariant of module Ipc. */
module IpcInvariant {
  import opened Common
  import opened Ipc

  /** The state in which a kernel call may call schedule(n). */
  ghost predicate Schedulable(s: State, n: Option<Pid>) {
    && AliveInv(s)
    && QueueInv(s.procs)
    && (forall q: Pid :: PointInv(s.procs[q]) && (WakeInv(s.procs[q]) || n == Some(q)))
    && WaitsInv(s)
    && s.used == |Senders(s.procs)|
    && (forall q: Pid :: s.procs[q].state == OnCpu ==> s.up == Some(q))
    && (s.up.Some? && s.procs[s.up.value].state == OnCpu ==>
          s.procs[s.up.value].resume in {User, AfterKreply})
    && (n.Some? ==>
          && (s.procs[n.value].state == Reply ||
              (s.procs[n.value].state == Recv && s.procs[n.value].waiting != [])))
  }

  /** What a switch to `v` does to each process: `v` on the CPU, a preempted process ready. */
  ghost predicate Switched(s: State, r: State, v: Option<Pid>) {
    && r == s.(procs := r.procs, up := v)
    && forall q: Pid :: r.procs[q] == s.procs[q].(state :=
        if v == Some(q) then OnCpu
        else if s.procs[q].state == OnCpu then Ready
        else s.procs[q].state)
  }

  /** Queues depend on who is sending, and to whom. */
  lemma SameQueues(t: Table, r: Table)
    requires QueueInv(t)
    requires forall q: Pid :: r[q].waiting == t[q].waiting && (r[q].state == Send <==> t[q].state == Send)
    requires forall q: Pid :: t[q].state == Send ==> r[q].waitingOn == t[q].waitingOn
    ensures QueueInv(r) && Senders(r) == Senders(t)
  {
  }

  lemma SwitchedQueues(s: State, r: State, v: Option<Pid>)
    requires Switched(s, r, v) && QueueInv(s.procs)
    requires v.Some? ==> s.procs[v.value].state != Send
    ensures QueueInv(r.procs) && Senders(r.procs) == Senders(s.procs)
  {
    hide QueueInv;
    SameQueues(s.procs, r.procs);
  }

  /** One process at a switch: `chosen` to run or not, and if so handed the CPU directly or not. */
  lemma SwitchedPoint(p: Proc, chosen: bool, handed: bool)
    requires PointInv(p) && (WakeInv(p) || handed)
    requires p.state == OnCpu ==> p.resume in {User, AfterKreply}
    requires handed ==> chosen && (p.state == Reply || (p.state == Recv && p.waiting != []))
    requires chosen && !handed ==> p.state in {Ready, OnCpu}
    ensures var r := p.(state := if chosen then OnCpu else if p.state == OnCpu then Ready else p.state);
            PointInv(r) && WakeInv(r)
  {
  }

  lemma SwitchedPoints(s: State, n: Option<Pid>, r: State, v: Option<Pid>)
    requires Schedulable(s, n) && Switched(s, r, v)
    requires v == n || (n.None? && s.procs[v.value].state in {Ready, OnCpu})
    ensures PointsInv(r.procs)
  {
    hide PointInv, WakeInv, AliveInv, QueueInv, WaitsInv, Senders;
    forall q: Pid
      ensures PointInv(r.procs[q]) && WakeInv(r.procs[q])
    {
      SwitchedPoint(s.procs[q], v == Some(q), n == Some(q));
    }
  }

  lemma SwitchedKeepsInv(s: State, n: Option<Pid>, r: State, v: Option<Pid>)
    requires Schedulable(s, n) && Switched(s, r, v)
    requires v == n || (n.None? && s.procs[v.value].state in {Ready, OnCpu})
    requires v.None? ==> forall q: Pid :: s.procs[q].state !in {Ready, OnCpu}
    ensures Inv(r)
  {
    SwitchedQueues(s, r, v);
    SwitchedPoints(s, n, r, v);
    hide QueueInv, Senders, PointsInv, PointInv, WakeInv;
  }

  /** schedule(n) is a switch to n, or, for nil, to a ready process unless there is none. */
  lemma ScheduleSwitches(s: State, n: Option<Pid>) returns (v: Option<Pid>)
    requires AliveInv(s)
    requires forall q: Pid :: s.procs[q].state == OnCpu ==> s.up == Some(q)
    ensures Switched(s, Schedule(s, n).s, v)
    ensures n.Some? ==> v == n
    ensures n.None? && v.Some? ==> s.procs[v.value].state in {Ready, OnCpu}
    ensures v.None? ==> forall q: Pid :: s.procs[q].state !in {Ready, OnCpu}
  {
    var s1 := Preempt(s);
    v := if n.Some? then n else NextProc(s1);
    forall q: Pid | q < |s.alive|
      ensures q in s.alive
    {
      assert s.alive[q] == q;
    }
  }

  lemma ScheduleKeepsInv(s: State, n: Option<Pid>)
    requires Schedulable(s, n)
    ensures Inv(Schedule(s, n).s)
  {
    var v := ScheduleSwitches(s, n);
    SwitchedKeepsInv(s, n, Schedule(s, n).s, v);
  }

  lemma ReturnKeepsInv(s: State, v: int)
    requires Inv(s) && s.up.Some?
    ensures Inv(Return(s, v).s)
  {
    SameQueues(s.procs, Return(s, v).s.procs);
    hide QueueInv, Senders;
  }

  lemma PickedSender(s: State, u: Pid, pid: int)
    requires Inv(s) && s.procs[u].waiting != []
    ensures var w := s.procs[u].waiting[Pick(s.procs[u].waiting, pid)];
            s.procs[w].state == Send && s.procs[w].waitingOn == Some(u)
  {
    assert s.procs[u].waiting[Pick(s.procs[u].waiting, pid)] in s.procs[u].waiting;
  }

  /** What Enqueued does to each process. */
  ghost predicate Blocked(s: State, r: State, u: Pid, p: Pid) {
    && r == s.(procs := r.procs, used := s.used + 1, log := r.log)
    && (forall q: Pid :: r.procs[q].waiting == if q == p then s.procs[q].waiting + [u] else s.procs[q].waiting)
    && (forall q: Pid :: q != u ==> r.procs[q] == s.procs[q].(waiting := r.procs[q].waiting))
    && r.procs[u] == s.procs[u].(waiting := r.procs[u].waiting, state := Send, resume := InKsend, waitingOn := Some(p))
  }

  lemma BlockedQueues(s: State, r: State, u: Pid, p: Pid)
    requires QueueInv(s.procs) && s.procs[u].state == OnCpu && Blocked(s, r, u, p)
    ensures QueueInv(r.procs)
  {
    assert forall x: Pid :: u !in s.procs[x].waiting;
  }

  lemma BlockedPoints(s: State, r: State, u: Pid, p: Pid)
    requires AliveInv(s) && PointsInv(s.procs) && s.procs[u].state == OnCpu && s.procs[p].state != Dead
    requires Blocked(s, r, u, p)
    requires forall q: Pid :: s.procs[q].state == OnCpu ==> q == u
    ensures AliveInv(r)
    ensures forall q: Pid :: PointInv(r.procs[q]) && (WakeInv(r.procs[q]) || (q == p && r.procs[p].state == Recv))
  {
  }

  lemma OneMoreSender(t: Table, r: Table, u: Pid)
    requires forall q: Pid :: r[q].state == Send <==> q == u || t[q].state == Send
    requires t[u].state != Send
    ensures |Senders(r)| == |Senders(t)| + 1
  {
    assert Senders(r) == Senders(t) + {u};
  }

  lemma BlockedSenders(s: State, r: State, u: Pid, p: Pid)
    requires Blocked(s, r, u, p) && s.procs[u].state != Send
    ensures |Senders(r.procs)| == |Senders(s.procs)| + 1
  {
    hide Senders;
    OneMoreSender(s.procs, r.procs, u);
  }

  lemma BlockedSchedulable(s: State, r: State, u: Pid, p: Pid)
    requires Inv(s) && s.up == Some(u) && s.procs[u].resume == User && s.procs[p].state != Dead && Blocked(s, r, u, p)
    ensures Schedulable(r, if r.procs[p].state == Recv then Some(p) else None)
  {
    BlockedSenders(s, r, u, p);
    BlockedQueues(s, r, u, p);
    BlockedPoints(s, r, u, p);
    hide QueueInv, AliveInv, PointInv, WakeInv, Senders;
  }

  lemma KsendKeepsInv(s: State, p: Pid)
    requires Inv(s) && InUser(s)
    ensures Inv(Ksend(s, p).s)
  {
    var u := s.up.value;
    if s.procs[p].state == Dead {
      ReturnKeepsInv(s, ERR);
    } else if MAX_PROC_LISTS <= s.used {
      PoolFullInv(s, p);
      hide Inv;
      ReturnKeepsInv(Put(s, u, s.procs[u].(waitingOn := Some(p))), ERR);
    } else {
      BlockedSchedulable(s, Enqueued(s, p), u, p);
      hide Inv, Schedulable, Schedule;
      ScheduleKeepsInv(Enqueued(s, p), if Enqueued(s, p).procs[p].state == Recv then Some(p) else None);
    }
  }

  /** When there is no node, ksend has already noted whom the caller is waiting for. */
  lemma PoolFullInv(s: State, p: Pid)
    requires Inv(s) && InUser(s) && s.procs[p].state != Dead
    ensures Inv(Put(s, s.up.value, s.procs[s.up.value].(waitingOn := Some(p))))
  {
    SameQueues(s.procs, Put(s, s.up.value, s.procs[s.up.value].(waitingOn := Some(p))).procs);
    hide QueueInv, Senders;
  }

  /** The invariant but for the running process's resume point. */
  ghost predicate InCall(s: State) {
    && AliveInv(s) && QueueInv(s.procs) && CpuInv(s) && WaitsInv(s)
    && s.up.Some? && s.used == |Senders(s.procs)|
    && forall q: Pid :: q != s.up.value ==> PointInv(s.procs[q]) && WakeInv(s.procs[q])
  }

  /** What Taken does to the queue, state and waiting fields. */
  ghost predicate Dequeued(s: Table, r: Table, u: Pid, k: nat)
    requires k < |s[u].waiting|
  {
    && (forall x: Pid :: r[x].waiting == if x == u then Without(s[u].waiting, k) else s[x].waiting)
    && (forall x: Pid :: r[x].state == if x == s[u].waiting[k] then Reply else s[x].state)
    && (forall x: Pid :: r[x].waitingOn == s[x].waitingOn && r[x].resume == s[x].resume)
  }

  lemma DequeuedQueues(s: Table, r: Table, u: Pid, k: nat)
    requires QueueInv(s) && k < |s[u].waiting| && Dequeued(s, r, u, k)
    ensures QueueInv(r)
    ensures |Senders(r)| == |Senders(s)| - 1
  {
    var w := s[u].waiting[k];
    assert w in s[u].waiting;
    WithoutMembers(s[u].waiting, k);
    assert w in Senders(s);
    assert Senders(r) == Senders(s) - {w};
  }

  /** What taking a message does to the state. */
  lemma TakenDequeues(s: State, pid: int)
    requires Inv(s) && s.up.Some? && s.procs[s.up.value].waiting != []
    ensures var u, t := s.up.value, Taken(s, pid);
            var k := Pick(s.procs[u].waiting, pid);
            && Dequeued(s.procs, t.procs, u, k) && s.procs[u].waiting[k] != u
            && t.up == s.up && t.alive == s.alive && t.nextpid == s.nextpid
            && t.used == (if s.used == 0 then 0 else s.used - 1)
            && forall x: Pid :: x != u && x != s.procs[u].waiting[k] ==> t.procs[x] == s.procs[x]
  {
    PickedSender(s, s.up.value, pid);
    assert s.procs[s.up.value].state == OnCpu;
    hide Inv, Pick, Without;
  }

  /** Taking a sender leaves only the caller's resume point out of place. */
  lemma TakenInv(s: State, pid: int)
    requires Inv(s) && s.up.Some? && s.procs[s.up.value].waiting != []
    ensures InCall(Taken(s, pid))
  {
    var u := s.up.value;
    var k := Pick(s.procs[u].waiting, pid);
    PickedSender(s, u, pid);
    TakenDequeues(s, pid);
    DequeuedQueues(s.procs, Taken(s, pid).procs, u, k);
    TakenPoints(s, pid);
    DequeuedLives(s, Taken(s, pid), u, k);
    hide Taken, QueueInv, AliveInv, CpuInv, WaitsInv, Dequeued, Pick, Without, Senders, PointInv, WakeInv;
  }

  lemma DequeuedLives(s: State, r: State, u: Pid, k: nat)
    requires AliveInv(s) && CpuInv(s) && WaitsInv(s) && s.up == Some(u)
    requires k < |s.procs[u].waiting| && Dequeued(s.procs, r.procs, u, k)
    requires s.procs[s.procs[u].waiting[k]].state == Send
    requires r.alive == s.alive && r.nextpid == s.nextpid && r.up == s.up
    ensures AliveInv(r) && CpuInv(r) && WaitsInv(r)
  {
  }

  lemma TakenPoints(s: State, pid: int)
    requires Inv(s) && s.up.Some? && s.procs[s.up.value].waiting != []
    ensures forall q: Pid :: q != s.up.value ==> PointInv(Taken(s, pid).procs[q]) && WakeInv(Taken(s, pid).procs[q])
  {
    var u, t := s.up.value, Taken(s, pid);
    var w := s.procs[u].waiting[Pick(s.procs[u].waiting, pid)];
    PickedSender(s, u, pid);
    TakenDequeues(s, pid);
    hide Taken, AliveInv, QueueInv, CpuInv, WaitsInv, Pick, Without, Senders;
    forall q: Pid | q != u
      ensures PointInv(t.procs[q]) && WakeInv(t.procs[q])
    {
      assert PointInv(s.procs[q]) && WakeInv(s.procs[q]);
    }
  }

  /** krecv with nothing queued may call schedule. */
  lemma ParkSchedulable(s: State, resume: Resume)
    requires Inv(s) && s.up.Some? && s.procs[s.up.value].waiting == [] && resume.RecvLoop?
    ensures Schedulable(Put(s, s.up.value, s.procs[s.up.value].(state := Recv, resume := resume)), None)
  {
    SameQueues(s.procs, Put(s, s.up.value, s.procs[s.up.value].(state := Recv, resume := resume)).procs);
    hide QueueInv, Senders;
  }

  lemma KrecvKeepsInv(s: State, pid: int, starting: bool)
    requires Inv(s) && s.up.Some?
    ensures Inv(Krecv(s, pid, starting).s)
  {
    var u := s.up.value;
    var q := s.procs[u].waiting;
    if q == [] {
      ParkSchedulable(s, RecvLoop(pid, starting));
      hide Schedulable, Schedule, Inv;
      ScheduleKeepsInv(Put(s, u, s.procs[u].(state := Recv, resume := RecvLoop(pid, starting))), None);
    } else {
      hide Inv, InCall, Schedule;
      TakenInv(s, pid);
      PickedSender(s, u, pid);
      if starting {
        KreplyInCall(Taken(s, pid), q[Pick(q, pid)], OK);
      } else {
        ReturnInCall(Taken(s, pid), q[Pick(q, pid)]);
      }
    }
  }

  /** Giving an answer and changing the caller's state to `state`, itself not PROC_send. */
  lemma AnsweredQueues(s: State, p: Pid, ret: int, state: PState, resume: Resume)
    requires QueueInv(s.procs) && s.up.Some? && s.procs[s.up.value].state == OnCpu
    requires state != Send
    ensures var r := Answered(s, p, ret, state, resume);
            QueueInv(r.procs) && Senders(r.procs) == Senders(s.procs)
  {
    hide QueueInv;
    SameQueues(s.procs, Answered(s, p, ret, state, resume).procs);
  }

  lemma AnsweredSchedulable(s: State, p: Pid, ret: int, state: PState, resume: Resume)
    requires InCall(s) && MayReply(s, p)
    requires (state == OnCpu && resume == AfterKreply) || (state == Recv && resume.ReplyRecvParked?)
    ensures Schedulable(Answered(s, p, ret, state, resume), Some(p))
  {
    AnsweredQueues(s, p, ret, state, resume);
    var u := s.up.value;
    var r := Answered(s, p, ret, state, resume);
    hide QueueInv, Senders;
    assert forall x: Pid :: x != u && x != p ==> r.procs[x] == s.procs[x];
  }

  lemma KreplyInCall(s: State, w: Pid, ret: int)
    requires InCall(s) && MayReply(s, w)
    ensures Inv(Kreply(s, w, ret).s)
  {
    AnsweredSchedulable(s, w, ret, OnCpu, AfterKreply);
    ScheduleKeepsInv(Answered(s, w, ret, OnCpu, AfterKreply), Some(w));
  }

  lemma ReturnInCall(s: State, v: int)
    requires InCall(s)
    ensures Inv(Return(s, v).s)
  {
    SameQueues(s.procs, Return(s, v).s.procs);
    hide QueueInv, Senders;
  }

  lemma KreplyKeepsInv(s: State, p: Pid, ret: int)
    requires Inv(s) && InUser(s)
    ensures Inv(Kreply(s, p, ret).s)
  {
    if !MayReply(s, p) {
      ReturnKeepsInv(s, ERR);
    } else {
      KreplyInCall(s, p, ret);
    }
  }

  lemma KreplyRecvKeepsInv(s: State, p: Pid, ret: int, pid: int)
    requires Inv(s) && InUser(s)
    ensures Inv(KreplyRecv(s, p, ret, pid).s)
  {
    if !MayReply(s, p) {
      ReturnKeepsInv(s, ERR);
    } else {
      AnsweredSchedulable(s, p, ret, Recv, ReplyRecvParked(pid));
      ScheduleKeepsInv(Answered(s, p, ret, Recv, ReplyRecvParked(pid)), Some(p));
    }
  }

  lemma NewProcessIs(s: State)
    requires Inv(s) && Enabled(s, DoCreate)
    ensures s.nextpid == |s.alive| && s.procs[s.nextpid] == ZERO_PROC
    ensures ProcNew(s).procs == s.procs[s.nextpid := ZERO_PROC.(state := Ready)]
    ensures ProcNew(s).alive == s.alive + [s.nextpid] && ProcNew(s).up == s.up && ProcNew(s).used == s.used
    ensures ProcNew(s).nextpid == |s.alive + [s.nextpid]| % MAX_PROCS
  {
    assert PointInv(s.procs[s.nextpid]);
    hide QueueInv, WakeInv, CpuInv, WaitsInv, Senders;
  }

  /** Nobody waits for a process that is not there yet, and it has no queue. */
  lemma NewProcessQueues(s: State)
    requires Inv(s) && Enabled(s, DoCreate)
    ensures QueueInv(ProcNew(s).procs) && Senders(ProcNew(s).procs) == Senders(s.procs)
  {
    NewProcessIs(s);
    hide ProcNew, AliveInv, PointsInv, CpuInv, WaitsInv, QueueInv, Senders;
    SameQueues(s.procs, ProcNew(s).procs);
  }

  lemma NewProcessPoints(s: State)
    requires Inv(s) && Enabled(s, DoCreate)
    ensures PointsInv(ProcNew(s).procs)
  {
    var r := ProcNew(s).procs;
    NewProcessIs(s);
    assert PointInv(ZERO_PROC.(state := Ready)) && WakeInv(ZERO_PROC.(state := Ready));
    hide ProcNew, PointInv, WakeInv, AliveInv, QueueInv, CpuInv, WaitsInv, Senders;
    forall q: Pid
      ensures PointInv(r[q]) && WakeInv(r[q])
    {
      assert PointInv(s.procs[q]) && WakeInv(s.procs[q]);
    }
  }

  lemma NewProcessInv(s: State)
    requires Inv(s) && Enabled(s, DoCreate)
    ensures Inv(ProcNew(s))
  {
    NewProcessIs(s);
    NewProcessQueues(s);
    NewProcessPoints(s);
    hide ProcNew, QueueInv, PointsInv, Senders;
  }

  lemma CreateKeepsInv(s: State)
    requires Inv(s) && Enabled(s, DoCreate)
    ensures Inv(Next(s, DoCreate).s)
  {
    NewProcessInv(s);
    assert ProcNew(s).up == s.up;
    hide Inv, ProcNew, Return;
    ReturnKeepsInv(ProcNew(s), s.nextpid);
  }

  /** The invariant is inductive: every enabled step keeps it. */
  lemma LogKeepsInv(s: State, e: Event)
    requires Inv(s)
    ensures Inv(s.(log := s.log + [e]))
  {
  }

  lemma WriteKeepsInv(s: State, page: Page)
    requires Inv(s) && InUser(s)
    ensures Inv(Put(s, s.up.value, s.procs[s.up.value].(page := page)))
  {
    SameQueues(s.procs, Put(s, s.up.value, s.procs[s.up.value].(page := page)).procs);
    hide QueueInv, Senders;
  }

  lemma StepKeepsInv(s: State, step: Step)
    requires Inv(s) && Enabled(s, step)
    ensures Inv(Next(s, step).s)
  {
    if step.Tick? {
      assert Schedulable(s, None);
    }
    hide Inv, Schedulable, Schedule, Krecv, Ksend, Kreply, KreplyRecv, ProcNew, Return;
    match step
    case Tick => ScheduleKeepsInv(s, None);
    case Continue =>
      var u := s.up.value;
      match s.procs[u].resume {
        case Start => KrecvKeepsInv(s, PID_ALL, true);
        case InKsend =>
          var e := Returned(u, s.procs[u].page.mRet, s.procs[u].page.mIn);
          LogKeepsInv(s, e);
          ReturnKeepsInv(s.(log := s.log + [e]), s.procs[u].page.mRet);
        case RecvLoop(pid, starting) => KrecvKeepsInv(s, pid, starting);
        case ReplyRecvParked(pid) => KrecvKeepsInv(s, pid, false);
        case AfterKreply => ReturnKeepsInv(s, OK);
      }
    case UserWrite(page) => WriteKeepsInv(s, page);
    case DoSend(p) => KsendKeepsInv(s, p);
    case DoRecv(pid) => KrecvKeepsInv(s, pid, false);
    case DoReply(p, ret) => KreplyKeepsInv(s, p, ret);
    case DoReplyRecv(p, ret, pid) => KreplyRecvKeepsInv(s, p, ret, pid);
    case DoCreate => CreateKeepsInv(s);
  }

  lemma BootInv()
    ensures Inv(Booted())
  {
    BootedIs();
    hide Booted;
    assert Senders(Booted().procs) == {};
  }

  lemma BootedIs()
    ensures var s := Booted();
            && s.alive == [0] && s.up == Some(0) && s.nextpid == 1 && s.used == 0
            && s.procs[0] == ZERO_PROC.(state := OnCpu, resume := User)
            && forall q: Pid :: q != 0 ==> s.procs[q] == ZERO_PROC
  {
  }

  /** Over every run from boot the invariant holds. */
  lemma {:induction false} RunKeepsInv(s: State, steps: seq<Step>)
    requires Inv(s) && Legal(s, steps)
    ensures Inv(Final(s, steps))
    decreases |steps|
  {
    if steps != [] {
      StepKeepsInv(s, steps[0]);
      RunKeepsInv(Next(s, steps[0]).s, steps[1..]);
    }
  }
}
