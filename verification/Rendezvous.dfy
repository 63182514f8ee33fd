/**
 What a client of the rendezvous protocol can rely on, over every run: each ksend goes through
 queued, held, answered and returned in this order, with the right partner and the right bytes.
 */
module Rendezvous {
  import opened Common
  import opened Ipc
  import opened IpcInvariant

  /** How far the current ksend of one process has come, read off the record of events. */
  datatype Phase =
    | Idle
    | Waiting(to: Pid, msg: Message)
    | Held(holder: Pid)
    | Settled(holder: Pid, ret: int, msg: Message)
    | Broken

  /** The protocol automaton of process `q`; events out of order, or with other bytes, break it. */
  function Advance(q: Pid, ph: Phase, e: Event): Phase {
    match e
    case Sent(who, to, msg) =>
      if who != q then ph else if ph == Idle then Waiting(to, msg) else Broken
    case Received(who, from, msg) =>
      if from != q then ph else if ph == Waiting(who, msg) then Held(who) else Broken
    case Replied(who, to, ret, msg) =>
      if to != q then ph else if ph == Held(who) then Settled(who, ret, msg) else Broken
    case Returned(who, ret, msg) =>
      if who != q then ph
      else if ph.Settled? && ph.ret == ret && ph.msg == msg then Idle else Broken
  }

  function PhaseOf(q: Pid, log: seq<Event>): Phase {
    if log == [] then Idle else Advance(q, PhaseOf(q, log[..|log| - 1]), log[|log| - 1])
  }

  lemma PhaseAfter(q: Pid, log: seq<Event>, e: Event)
    ensures PhaseOf(q, log + [e]) == Advance(q, PhaseOf(q, log), e)
  {
    assert (log + [e])[..|log|] == log;
  }

  /** The phase that a process's kernel state stands for. */
  function PhaseIn(p: Proc): Phase {
    if p.state == Send && p.waitingOn.Some? then Waiting(p.waitingOn.value, p.page.mOut)
    else if p.state == Reply && p.waitingOn.Some? then Held(p.waitingOn.value)
    else if p.state == OnCpu && p.resume == InKsend then
      if p.waitingOn.Some? then Settled(p.waitingOn.value, p.page.mRet, p.page.mIn) else Broken
    else Idle
  }

  ghost predicate LogInv(s: State) {
    forall q: Pid :: PhaseOf(q, s.log) == PhaseIn(s.procs[q])
  }

  /** The record agrees with the state that a hand-over to `n` is about to produce. */
  ghost predicate LogInvFor(s: State, n: Option<Pid>) {
    forall q: Pid :: PhaseOf(q, s.log) ==
                     PhaseIn(if n == Some(q) then s.procs[q].(state := OnCpu) else s.procs[q])
  }

  /** Switching does not change how far a call is, except that the process handed over to goes on. */
  lemma SwitchedPhase(s: State, n: Option<Pid>, r: State, v: Option<Pid>, q: Pid)
    requires Schedulable(s, n) && Switched(s, r, v)
    requires v == n || (n.None? && s.procs[v.value].state in {Ready, OnCpu})
    ensures PhaseIn(r.procs[q]) == PhaseIn(if n == Some(q) then s.procs[q].(state := OnCpu) else s.procs[q])
  {
    assert PointInv(s.procs[q]);
  }

  lemma ScheduleKeepsLog(s: State, n: Option<Pid>)
    requires Schedulable(s, n) && LogInvFor(s, n)
    ensures LogInv(Schedule(s, n).s)
  {
    hide Schedule, PhaseIn, PhaseOf;
    var v := ScheduleSwitches(s, n);
    var r := Schedule(s, n).s;
    forall q: Pid {
      SwitchedPhase(s, n, r, v, q);
    }
    hide Schedulable;
  }

  lemma ReturnKeepsLog(s: State, v: int)
    requires LogInv(s) && s.up.Some? && PhaseIn(s.procs[s.up.value]) == Idle
    requires s.procs[s.up.value].state == OnCpu
    ensures LogInv(Return(s, v).s)
  {
    assert Return(s, v).s.log == s.log;
  }

  lemma KsendKeepsLog(s: State, p: Pid)
    requires Inv(s) && InUser(s) && LogInv(s)
    ensures LogInv(Ksend(s, p).s)
  {
    var u := s.up.value;
    if s.procs[p].state == Dead {
      ReturnKeepsLog(s, ERR);
    } else if MAX_PROC_LISTS <= s.used {
      var s1 := Put(s, u, s.procs[u].(waitingOn := Some(p)));
      assert s1.log == s.log && forall q: Pid :: PhaseIn(s1.procs[q]) == PhaseIn(s.procs[q]);
      ReturnKeepsLog(s1, ERR);
    } else {
      var r := Enqueued(s, p);
      var n := if r.procs[p].state == Recv then Some(p) else None;
      BlockedSchedulable(s, r, u, p);
      BlockedLog(s, r, u, p, n);
      ScheduleKeepsLog(r, n);
    }
  }

  lemma BlockedLog(s: State, r: State, u: Pid, p: Pid, n: Option<Pid>)
    requires LogInv(s) && PointsInv(s.procs) && s.procs[u].state == OnCpu && s.procs[u].resume == User
    requires Blocked(s, r, u, p) && r.log == s.log + [Sent(u, p, s.procs[u].page.mOut)]
    requires n.Some? ==> r.procs[n.value].state == Recv
    ensures LogInvFor(r, n)
  {
    forall q: Pid
      ensures PhaseOf(q, r.log) == PhaseIn(if n == Some(q) then r.procs[q].(state := OnCpu) else r.procs[q])
    {
      PhaseAfter(q, s.log, Sent(u, p, s.procs[u].page.mOut));
      assert PointInv(s.procs[q]);
    }
  }

  /** The record after krecv's message copy; the caller is in the middle of its call, so idle. */
  lemma TakenLog(s: State, pid: int)
    requires Inv(s) && s.up.Some? && s.procs[s.up.value].waiting != []
    requires LogInv(s) && s.procs[s.up.value].resume != InKsend
    ensures LogInv(Taken(s, pid))
  {
    var u := s.up.value;
    var k := Pick(s.procs[u].waiting, pid);
    var w := s.procs[u].waiting[k];
    var r := Taken(s, pid);
    PickedSender(s, u, pid);
    assert forall x: Pid :: x != u && x != w ==> r.procs[x] == s.procs[x];
    forall q: Pid
      ensures PhaseOf(q, r.log) == PhaseIn(r.procs[q])
    {
      PhaseAfter(q, s.log, Received(u, w, s.procs[w].page.mOut));
    }
  }

  /** The record after an answer: the addressee is settled with exactly what was written into its page. */
  lemma AnsweredLog(s: State, p: Pid, ret: int, state: PState, resume: Resume)
    requires LogInv(s) && s.up.Some? && s.procs[s.up.value].state == OnCpu
    requires MayReply(s, p) && s.procs[p].resume == InKsend
    requires s.procs[s.up.value].resume != InKsend
    requires (state == OnCpu && resume == AfterKreply) || state == Recv
    ensures LogInvFor(Answered(s, p, ret, state, resume), Some(p))
  {
    var u := s.up.value;
    var r := Answered(s, p, ret, state, resume);
    assert forall x: Pid :: x != u && x != p ==> r.procs[x] == s.procs[x];
    forall q: Pid
      ensures PhaseOf(q, r.log) == PhaseIn(if q == p then r.procs[q].(state := OnCpu) else r.procs[q])
    {
      PhaseAfter(q, s.log, Replied(u, p, ret, s.procs[u].page.mOut));
    }
  }

  lemma KreplyKeepsLog(s: State, p: Pid, ret: int)
    requires InCall(s) && LogInv(s) && s.procs[s.up.value].resume != InKsend && MayReply(s, p)
    ensures LogInv(Kreply(s, p, ret).s)
  {
    AnsweredSchedulable(s, p, ret, OnCpu, AfterKreply);
    AnsweredLog(s, p, ret, OnCpu, AfterKreply);
    ScheduleKeepsLog(Answered(s, p, ret, OnCpu, AfterKreply), Some(p));
  }

  lemma KreplyRecvKeepsLog(s: State, p: Pid, ret: int, pid: int)
    requires Inv(s) && InUser(s) && LogInv(s) && MayReply(s, p)
    ensures LogInv(KreplyRecv(s, p, ret, pid).s)
  {
    AnsweredSchedulable(s, p, ret, Recv, ReplyRecvParked(pid));
    AnsweredLog(s, p, ret, Recv, ReplyRecvParked(pid));
    ScheduleKeepsLog(Answered(s, p, ret, Recv, ReplyRecvParked(pid)), Some(p));
  }

  lemma ParkedLog(s: State, pid: int, starting: bool)
    requires Inv(s) && s.up.Some? && LogInv(s) && s.procs[s.up.value].waiting == []
    requires s.procs[s.up.value].resume != InKsend
    ensures LogInv(Krecv(s, pid, starting).s)
  {
    var u := s.up.value;
    CpuRuns(s);
    hide PhaseOf, Schedule, LogInv, Inv, Schedulable, LogInvFor;
    var s1 := Put(s, u, s.procs[u].(state := Recv, resume := RecvLoop(pid, starting)));
    ParkSchedulable(s, RecvLoop(pid, starting));
    ParkedPhases(s, s1, u);
    ScheduleKeepsLog(s1, None);
  }

  lemma CpuRuns(s: State)
    requires Inv(s) && s.up.Some?
    ensures s.procs[s.up.value].state == OnCpu
  {
  }

  lemma ParkedPhases(s: State, s1: State, u: Pid)
    requires LogInv(s) && s1.log == s.log && s.procs[u].state == OnCpu && s.procs[u].resume != InKsend
    requires s1.procs[u].state == Recv && forall q: Pid :: q != u ==> s1.procs[q] == s.procs[q]
    ensures LogInvFor(s1, None)
  {
    hide PhaseOf;
  }

  lemma KrecvKeepsLog(s: State, pid: int, starting: bool)
    requires Inv(s) && s.up.Some? && LogInv(s)
    requires s.procs[s.up.value].resume != InKsend
    ensures LogInv(Krecv(s, pid, starting).s)
  {
    var u := s.up.value;
    var q := s.procs[u].waiting;
    if q == [] {
      ParkedLog(s, pid, starting);
    } else {
      hide PhaseOf, Schedule, LogInv;
      TakenInv(s, pid);
      TakenLog(s, pid);
      PickedSender(s, u, pid);
      if starting {
        KreplyKeepsLog(Taken(s, pid), q[Pick(q, pid)], OK);
      } else {
        ReturnKeepsLog(Taken(s, pid), q[Pick(q, pid)]);
      }
    }
  }

  lemma ResumedKeepsLog(s: State)
    requires Inv(s) && LogInv(s) && Enabled(s, Continue)
    ensures LogInv(Resumed(s).s)
  {
    var u := s.up.value;
    var p := s.procs[u];
    match p.resume
    case Start => KrecvKeepsLog(s, PID_ALL, true);
    case InKsend =>
      var e := Returned(u, p.page.mRet, p.page.mIn);
      var r := Resumed(s).s;
      forall q: Pid
        ensures PhaseOf(q, r.log) == PhaseIn(r.procs[q])
      {
        PhaseAfter(q, s.log, e);
      }
    case RecvLoop(pid, starting) => KrecvKeepsLog(s, pid, starting);
    case ReplyRecvParked(pid) => KrecvKeepsLog(s, pid, false);
    case AfterKreply => ReturnKeepsLog(s, OK);
  }

  lemma ReplyKeepsLog(s: State, p: Pid, ret: int, pid: int)
    requires Inv(s) && LogInv(s) && InUser(s)
    ensures LogInv(Kreply(s, p, ret).s) && LogInv(KreplyRecv(s, p, ret, pid).s)
  {
    CpuRuns(s);
    if MayReply(s, p) {
      KreplyKeepsLog(s, p, ret);
      KreplyRecvKeepsLog(s, p, ret, pid);
    } else {
      ReturnKeepsLog(s, ERR);
    }
    hide Inv, LogInv, Schedule;
  }

  /** What a user step or a creation does to a process is not part of a rendezvous. */
  lemma OtherKeepsLog(s: State, step: Step)
    requires Inv(s) && LogInv(s) && Enabled(s, step) && (step.UserWrite? || step.DoCreate?)
    ensures LogInv(Next(s, step).s)
  {
    hide PhaseOf;
    assert Next(s, step).s.log == s.log;
    if step.DoCreate? {
      var s1 := ProcNew(s);
      assert s1.log == s.log && forall q: Pid :: PhaseIn(s1.procs[q]) == PhaseIn(s.procs[q]);
      ReturnKeepsLog(s1, s.nextpid);
    }
  }

  lemma TickKeepsLog(s: State)
    requires Inv(s) && LogInv(s) && Enabled(s, Tick)
    ensures LogInv(Schedule(s, None).s)
  {
    hide PhaseOf, Schedule;
    ScheduleKeepsLog(s, None);
  }

  lemma StepKeepsLog(s: State, step: Step)
    requires Inv(s) && LogInv(s) && Enabled(s, step)
    ensures LogInv(Next(s, step).s)
  {
    hide Schedule, Ksend, Krecv, Kreply, KreplyRecv, Resumed, LogInv, Inv;
    match step
    case Tick => TickKeepsLog(s);
    case Continue => ResumedKeepsLog(s);
    case UserWrite(_) => OtherKeepsLog(s, step);
    case DoSend(p) => KsendKeepsLog(s, p);
    case DoRecv(pid) => KrecvKeepsLog(s, pid, false);
    case DoReply(p, ret) => ReplyKeepsLog(s, p, ret, PID_ALL);
    case DoReplyRecv(p, ret, pid) => ReplyKeepsLog(s, p, ret, pid);
    case DoCreate => OtherKeepsLog(s, step);
  }

  lemma {:induction false} RunKeepsLog(s: State, steps: seq<Step>)
    requires Inv(s) && LogInv(s) && Legal(s, steps)
    ensures Inv(Final(s, steps)) && LogInv(Final(s, steps))
    decreases |steps|
  {
    if steps != [] {
      StepKeepsInv(s, steps[0]);
      StepKeepsLog(s, steps[0]);
      RunKeepsLog(Next(s, steps[0]).s, steps[1..]);
    }
  }

  lemma BootLog()
    ensures Inv(Booted()) && LogInv(Booted())
  {
    BootInv();
    assert Booted().log == [];
    assert forall q: Pid :: PhaseIn(Booted().procs[q]) == Idle;
  }

  // ------------------------------------------------------------------ the theorems

  /** In no run does any process's record leave the protocol, and it always matches the kernel state. */
  lemma ProtocolNeverBroken(steps: seq<Step>, q: Pid)
    requires Legal(Booted(), steps)
    ensures var s := Final(Booted(), steps);
            PhaseOf(q, s.log) == PhaseIn(s.procs[q]) && PhaseOf(q, s.log) != Broken
  {
    BootLog();
    RunKeepsLog(Booted(), steps);
    assert PointInv(Final(Booted(), steps).procs[q]);
  }

  /** The process whose ksend an event belongs to. */
  function Client(e: Event): Pid {
    match e
    case Sent(who, _, _) => who
    case Received(_, from, _) => from
    case Replied(_, to, _, _) => to
    case Returned(who, _, _) => who
  }

  ghost predicate Silent(q: Pid, log: seq<Event>, i: nat, j: nat) {
    forall k :: i <= k < j && k < |log| ==> Client(log[k]) != q
  }

  /** A phase other than the initial one was entered by q's last event. */
  lemma {:induction false} LastEvent(q: Pid, log: seq<Event>, n: nat) returns (k: nat)
    requires n <= |log| && PhaseOf(q, log[..n]) != Idle
    ensures k < n && Client(log[k]) == q && Silent(q, log, k + 1, n)
    ensures PhaseOf(q, log[..n]) == Advance(q, PhaseOf(q, log[..k]), log[k])
    decreases n
  {
    assert n > 0;
    assert log[..n][..n - 1] == log[..n - 1];
    if Client(log[n - 1]) == q {
      k := n - 1;
    } else {
      k := LastEvent(q, log, n - 1);
    }
  }

  lemma {:induction false} BrokenStays(q: Pid, log: seq<Event>, n: nat)
    requires n <= |log| && PhaseOf(q, log) != Broken
    ensures PhaseOf(q, log[..n]) != Broken
    decreases |log|
  {
    if n == |log| {
      assert log[..n] == log;
    } else {
      BrokenStays(q, log[..|log| - 1], n);
      assert log[..|log| - 1][..n] == log[..n];
    }
  }

  /**
   Every return of a ksend, in every run, was preceded by exactly one send, one receive and one
   reply of that call, in this order: the value returned is the reply's `ret`, the bytes then in
   the caller's m_in are the replier's m_out, and the receiver got the caller's m_out.
   */
  lemma RendezvousHistory(steps: seq<Step>, k: nat)
    returns (a: nat, b: nat, c: nat, p: Pid, m: Message)
    requires Legal(Booted(), steps)
    requires k < |Final(Booted(), steps).log| && Final(Booted(), steps).log[k].Returned?
    ensures var log := Final(Booted(), steps).log;
            var q := log[k].who;
            && a < b < c < k
            && log[a] == Sent(q, p, m)
            && log[b] == Received(p, q, m)
            && log[c] == Replied(p, q, log[k].ret, log[k].msg)
            && Silent(q, log, a + 1, b) && Silent(q, log, b + 1, c) && Silent(q, log, c + 1, k)
  {
    hide Final, Booted, Legal, PhaseIn;
    var log := Final(Booted(), steps).log;
    var q := log[k].who;
    ProtocolNeverBroken(steps, q);
    BrokenStays(q, log, k + 1);
    assert log[..k + 1][..k] == log[..k];
    c := LastEvent(q, log, k);
    b := LastEvent(q, log, c);
    a := LastEvent(q, log, b);
    p, m := log[a].to, log[a].msg;
  }

  /** What user code sees when its send() returns: r0 and m_in are those of the recorded reply. */
  lemma ReplyReachesCaller(steps: seq<Step>, u: Pid)
    requires Legal(Booted(), steps)
    requires Final(Booted(), steps).up == Some(u) && Final(Booted(), steps).procs[u].resume == InKsend
    ensures var s := Final(Booted(), steps);
            var r := Next(s, Continue).s;
            && PhaseOf(u, s.log).Settled?
            && r.procs[u].r0 == PhaseOf(u, s.log).ret
            && r.procs[u].page.mIn == PhaseOf(u, s.log).msg
            && InUser(r) && r.up == Some(u)
  {
    ProtocolNeverBroken(steps, u);
    BootLog();
    RunKeepsLog(Booted(), steps);
  }

  /**
   Over every run: a reply is accepted exactly when its addressee's current message was received by
   the caller and not answered yet. Otherwise it changes nothing but the register that says so.
   */
  lemma ReplyAcceptedIff(steps: seq<Step>, p: Pid, ret: int, pid: int)
    requires Legal(Booted(), steps) && InUser(Final(Booted(), steps))
    ensures var s := Final(Booted(), steps);
            var u := s.up.value;
            var held, event := PhaseOf(p, s.log) == Held(u), Replied(u, p, ret, s.procs[u].page.mOut);
            forall step :: step == DoReply(p, ret) || step == DoReplyRecv(p, ret, pid) ==>
              var r := Next(s, step).s;
              if held then r.log == s.log + [event] && r.up == Some(p)
              else r == Put(s, u, s.procs[u].(r0 := ERR))
  {
    hide Final, Booted, PhaseOf, PhaseIn, Legal, Kreply, KreplyRecv, MayReply;
    ProtocolNeverBroken(steps, p);
    var s := Final(Booted(), steps);
    HeldIsMayReply(s, p);
    assert Next(s, DoReply(p, ret)) == Kreply(s, p, ret);
    assert Next(s, DoReplyRecv(p, ret, pid)) == KreplyRecv(s, p, ret, pid);
    hide Next;
    KreplyIs(s, p, ret, pid);
  }

  lemma HeldIsMayReply(s: State, p: Pid)
    requires s.up.Some?
    ensures PhaseIn(s.procs[p]) == Held(s.up.value) <==> MayReply(s, p)
  {
  }

  lemma KreplyIs(s: State, p: Pid, ret: int, pid: int)
    requires InUser(s)
    ensures forall r :: r == Kreply(s, p, ret).s || r == KreplyRecv(s, p, ret, pid).s ==>
              var u := s.up.value;
              if MayReply(s, p) then r.log == s.log + [Replied(u, p, ret, s.procs[u].page.mOut)] && r.up == Some(p)
              else r == Put(s, u, s.procs[u].(r0 := ERR))
  {
  }
}
