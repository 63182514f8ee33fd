/**
 What a system call answers, when it does: over every run, from the step that makes the call to the step
 in which its caller is back in user mode, whatever the other processes do in between.
 */
module Calls {
  import opened Common
  import opened Ipc
  import opened IpcInvariant
  import opened Blocking

  // ------------------------------------------------------------------ what others leave alone

  /** Where it goes on, whom it waits for, its register and the message it sends: its own business. */
  predicate SameOwn(a: Proc, b: Proc) {
    b.resume == a.resume && b.waitingOn == a.waitingOn && b.r0 == a.r0 && b.page.mOut == a.page.mOut
  }

  lemma ScheduleOnlyStates(s: State, n: Option<Pid>, u: Pid)
    ensures Schedule(s, n).s.procs[u] == s.procs[u].(state := Schedule(s, n).s.procs[u].state)
  {
  }

  lemma KrecvOthers(s: State, pid: int, starting: bool, u: Pid)
    requires Inv(s) && s.up.Some? && s.up != Some(u)
    ensures SameOwn(s.procs[u], Krecv(s, pid, starting).s.procs[u])
  {
    var c := s.up.value;
    if s.procs[c].waiting == [] {
      hide Schedule, Inv;
      ScheduleOnlyStates(Put(s, c, s.procs[c].(state := Recv, resume := RecvLoop(pid, starting))), None, u);
    } else {
      hide Krecv, Inv, Got;
      var w := KrecvGetsMessage(s, c, pid, starting);
    }
  }

  lemma SendOthers(s: State, p: Pid, u: Pid)
    requires s.up.Some? && s.up != Some(u)
    ensures SameOwn(s.procs[u], Ksend(s, p).s.procs[u])
  {
    var e := Enqueued(s, p);
    assert SameOwn(s.procs[u], e.procs[u]);
    hide Enqueued, Schedule;
    ScheduleOnlyStates(e, if e.procs[p].state == Recv then Some(p) else None, u);
  }

  lemma AnswerOthers(s: State, p: Pid, ret: int, state: PState, resume: Resume, u: Pid)
    requires s.up.Some? && s.up != Some(u)
    ensures SameOwn(s.procs[u], Schedule(Answered(s, p, ret, state, resume), Some(p)).s.procs[u])
  {
    assert SameOwn(s.procs[u], Answered(s, p, ret, state, resume).procs[u]);
    hide Answered, Schedule;
    ScheduleOnlyStates(Answered(s, p, ret, state, resume), Some(p), u);
  }

  /** No step of another process touches what is a created process's own. */
  lemma StepOthers(s: State, step: Step, u: Pid)
    requires Inv(s) && Enabled(s, step) && s.up != Some(u) && s.procs[u].state != Dead
    ensures SameOwn(s.procs[u], Next(s, step).s.procs[u])
  {
    hide Inv, Schedule, Krecv, Ksend, Answered, MayReply, ProcNew;
    match step
    case Tick => ScheduleOnlyStates(s, None, u);
    case Continue =>
      match s.procs[s.up.value].resume {
        case Start => KrecvOthers(s, PID_ALL, true, u);
        case RecvLoop(pid, starting) => KrecvOthers(s, pid, starting, u);
        case ReplyRecvParked(pid) => KrecvOthers(s, pid, false, u);
        case _ =>
      }
    case DoSend(p) => SendOthers(s, p, u);
    case DoRecv(pid) => KrecvOthers(s, pid, false, u);
    case DoReply(p, ret) => AnswerOthers(s, p, ret, s.procs[s.up.value].state, AfterKreply, u);
    case DoReplyRecv(p, ret, pid) => AnswerOthers(s, p, ret, Recv, ReplyRecvParked(pid), u);
    case UserWrite(page) =>
    case DoCreate => NewProcessIs(s);
  }

  /** Process `u` is nowhere on the CPU along the run. */
  ghost predicate Away(s: State, steps: seq<Step>, u: Pid)
    requires Legal(s, steps)
    decreases |steps|
  {
    s.up != Some(u) && (steps == [] || Away(Next(s, steps[0]).s, steps[1..], u))
  }

  lemma StaysAlive(s: State, step: Step, u: Pid)
    requires Inv(s) && Enabled(s, step) && s.procs[u].state != Dead
    ensures Inv(Next(s, step).s) && Next(s, step).s.procs[u].state != Dead
  {
    StepKeepsInv(s, step);
    assert u < |s.alive| && |s.alive| <= |Next(s, step).s.alive| by {
      StepKeepsAlive(s, step);
    }
    hide Next;
  }

  lemma ScheduleKeepsAlive(s: State, n: Option<Pid>)
    ensures Schedule(s, n).s.alive == s.alive
  {
  }

  lemma KreplyKeepsAlive(s: State, p: Pid, ret: int)
    requires s.up.Some?
    ensures Kreply(s, p, ret).s.alive == s.alive
  {
    hide Schedule;
    ScheduleKeepsAlive(Answered(s, p, ret, s.procs[s.up.value].state, AfterKreply), Some(p));
  }

  lemma KrecvKeepsAlive(s: State, pid: int, starting: bool)
    requires s.up.Some?
    ensures Krecv(s, pid, starting).s.alive == s.alive
  {
    var u := s.up.value;
    if s.procs[u].waiting == [] {
      hide Schedule;
      ScheduleKeepsAlive(Put(s, u, s.procs[u].(state := Recv, resume := RecvLoop(pid, starting))), None);
    } else {
      var w := s.procs[u].waiting[Pick(s.procs[u].waiting, pid)];
      assert Taken(s, pid).alive == s.alive && Taken(s, pid).up == s.up;
      hide Taken, Kreply, Pick;
      KreplyKeepsAlive(Taken(s, pid), w, OK);
    }
  }

  lemma StepKeepsAlive(s: State, step: Step)
    requires Enabled(s, step)
    ensures |s.alive| <= |Next(s, step).s.alive|
  {
    hide Schedule, Krecv, Kreply;
    match step
    case Tick => ScheduleKeepsAlive(s, None);
    case Continue =>
      match s.procs[s.up.value].resume {
        case Start => KrecvKeepsAlive(s, PID_ALL, true);
        case RecvLoop(pid, starting) => KrecvKeepsAlive(s, pid, starting);
        case ReplyRecvParked(pid) => KrecvKeepsAlive(s, pid, false);
        case _ =>
      }
    case DoSend(p) =>
      var e := Enqueued(s, p);
      ScheduleKeepsAlive(e, if e.procs[p].state == Recv then Some(p) else None);
    case DoRecv(pid) => KrecvKeepsAlive(s, pid, false);
    case DoReply(p, ret) => KreplyKeepsAlive(s, p, ret);
    case DoReplyRecv(p, ret, pid) => ScheduleKeepsAlive(Answered(s, p, ret, Recv, ReplyRecvParked(pid)), Some(p));
    case _ =>
  }

  /** A process that is away keeps its own, up to the step that brings it back. */
  lemma {:induction false} AwayKeepsOwn(s: State, during: seq<Step>, step: Step, u: Pid)
    requires Inv(s) && s.procs[u].state != Dead && Legal(s, during) && Away(s, during, u)
    requires Enabled(Final(s, during), step)
    ensures var r := Next(Final(s, during), step).s; Inv(r) && SameOwn(s.procs[u], r.procs[u])
    decreases |during|
  {
    hide Inv, Next;
    if during == [] {
      StepOthers(s, step, u);
      StaysAlive(s, step, u);
    } else {
      StepOthers(s, during[0], u);
      StaysAlive(s, during[0], u);
      AwayKeepsOwn(Next(s, during[0]).s, during[1..], step, u);
    }
  }

  // ------------------------------------------------------------------ receiving

  /** krecv with somebody queued answers in the same step. */
  lemma RecvAtOnce(s: State, pid: int) returns (w: Pid)
    requires Inv(s) && InUser(s) && s.procs[s.up.value].waiting != []
    ensures var u := s.up.value;
            var q := s.procs[u].waiting;
            && GotMessage(s, Next(s, DoRecv(pid)).s, u, w, false)
            && w == if pid in q then pid else q[|q| - 1]
  {
    hide Inv, Krecv, GotMessage;
    w := KrecvGetsMessage(s, s.up.value, pid, false);
  }

  /** A receive that has to wait: krecv with nobody queued, or a kreply_recv that is not refused. */
  predicate WaitsToReceive(s: State, call: Step, pid: int) {
    && InUser(s)
    && ((call == DoRecv(pid) && s.procs[s.up.value].waiting == [])
        || (call.DoReplyRecv? && call.from == pid && MayReply(s, call.to)))
  }

  lemma WaitingHasPid(s: State, call: Step, pid: int)
    requires Inv(s) && WaitsToReceive(s, call, pid)
    ensures var u, r := s.up.value, Next(s, call).s.procs[s.up.value];
            && Enabled(s, call) && r.state != Dead
            && (r.resume == RecvLoop(pid, false) || r.resume == ReplyRecvParked(pid))
  {
    var u := s.up.value;
    StaysAlive(s, call, u);
    if call.DoRecv? {
      hide Schedule, Inv;
      ScheduleOnlyStates(Put(s, u, s.procs[u].(state := Recv, resume := RecvLoop(pid, false))), None, u);
    } else {
      assert call.to != u;
      hide Schedule, Inv;
      ScheduleOnlyStates(Answered(s, call.to, call.ret, Recv, ReplyRecvParked(pid)), Some(call.to), u);
    }
  }

  lemma BackInKrecv(s: State, u: Pid, pid: int) returns (w: Pid)
    requires Inv(s) && s.up == Some(u)
    requires s.procs[u].resume == RecvLoop(pid, false) || s.procs[u].resume == ReplyRecvParked(pid)
    ensures var q := s.procs[u].waiting;
            && q != [] && Enabled(s, Continue) && GotMessage(s, Next(s, Continue).s, u, w, false)
            && w == if pid in q then pid else q[|q| - 1]
  {
    assert WakeInv(s.procs[u]) && s.procs[u].state == OnCpu;
    hide Inv, Krecv, Next, GotMessage;
    ResumesInKrecv(s, u);
    w := KrecvGetsMessage(s, u, pid, false);
  }

  lemma BackFromReceive(s: State, during: seq<Step>, step: Step, u: Pid, pid: int) returns (w: Pid)
    requires Inv(s) && s.procs[u].state != Dead
    requires s.procs[u].resume == RecvLoop(pid, false) || s.procs[u].resume == ReplyRecvParked(pid)
    requires Legal(s, during) && Away(s, during, u)
    requires Enabled(Final(s, during), step) && Next(Final(s, during), step).s.up == Some(u)
    ensures var r := Next(Final(s, during), step).s;
            var q := r.procs[u].waiting;
            && q != [] && Enabled(r, Continue) && GotMessage(r, Next(r, Continue).s, u, w, false)
            && w == if pid in q then pid else q[|q| - 1]
  {
    hide Inv, Final, Legal, Next, Enabled, GotMessage, Away;
    AwayKeepsOwn(s, during, step, u);
    w := BackInKrecv(Next(Final(s, during), step).s, u, pid);
  }

  lemma ReceiveFrom(s: State, call: Step, pid: int, during: seq<Step>, step: Step) returns (w: Pid)
    requires Inv(s) && WaitsToReceive(s, call, pid) && Enabled(s, call)
    requires var s1 := Next(s, call).s;
             && Legal(s1, during) && Away(s1, during, s.up.value)
             && Enabled(Final(s1, during), step) && Next(Final(s1, during), step).s.up == s.up
    ensures var u, s3 := s.up.value, Next(Final(Next(s, call).s, during), step).s;
            var q := s3.procs[u].waiting;
            && q != [] && Enabled(s3, Continue) && GotMessage(s3, Next(s3, Continue).s, u, w, false)
            && w == if pid in q then pid else q[|q| - 1]
  {
    assert s.up.Some?;
    hide *;
    WaitingHasPid(s, call, pid);
    StepKeepsInv(s, call);
    w := BackFromReceive(Next(s, call).s, during, step, s.up.value, pid);
  }

  /**
   A receive that waits, over any run: when its caller is first on the CPU again, somebody is queued, and it
   gets the message of the process it asked for if that one is, else of the last in the queue.
   */
  lemma ReceiveReturns(before: seq<Step>, call: Step, pid: int, during: seq<Step>, step: Step) returns (w: Pid)
    requires Legal(Booted(), before) && WaitsToReceive(Final(Booted(), before), call, pid)
    requires var s := Final(Booted(), before);
             var s1 := Next(s, call).s;
             && Legal(s1, during) && Away(s1, during, s.up.value)
             && Enabled(Final(s1, during), step) && Next(Final(s1, during), step).s.up == s.up
    ensures var s := Final(Booted(), before);
            var u, s3 := s.up.value, Next(Final(Next(s, call).s, during), step).s;
            var q := s3.procs[u].waiting;
            && q != [] && Enabled(s3, Continue) && GotMessage(s3, Next(s3, Continue).s, u, w, false)
            && w == if pid in q then pid else q[|q| - 1]
  {
    BootInv();
    RunKeepsInv(Booted(), before);
    hide Inv, Booted, Final, Legal, Next, Away, GotMessage;
    w := ReceiveFrom(Final(Booted(), before), call, pid, during, step);
  }

  /** A new process receives, before anything else, from the last in its queue, and answers OK. */
  lemma StartReceives(s: State) returns (w: Pid)
    requires Inv(s) && s.up.Some? && s.procs[s.up.value].resume == Start && s.procs[s.up.value].waiting != []
    ensures var u := s.up.value;
            var q := s.procs[u].waiting;
            Enabled(s, Continue) && GotMessage(s, Next(s, Continue).s, u, w, true) && w == q[|q| - 1]
  {
    hide Inv, Krecv, GotMessage;
    w := KrecvGetsMessage(s, s.up.value, PID_ALL, true);
  }

  // ------------------------------------------------------------------ sending

  /** A send to a process that is not there is an error, and changes nothing else. */
  lemma SendToNobody(s: State, p: Pid)
    requires InUser(s) && s.procs[p].state == Dead
    ensures Next(s, DoSend(p)).s == Put(s, s.up.value, s.procs[s.up.value].(r0 := ERR))
  {
  }

  /** Any other send puts its caller last on the queue and blocks it; who runs next is up to schedule. */
  lemma SendQueues(s: State, p: Pid)
    requires Inv(s) && InUser(s) && s.procs[p].state != Dead && s.used < MAX_PROC_LISTS
    ensures var u, r := s.up.value, Next(s, DoSend(p)).s;
            && r.procs[p].waiting == s.procs[p].waiting + [u]
            && r.procs[u].state == Send && r.procs[u].waitingOn == Some(p) && r.procs[u].resume == InKsend
            && r.procs[u].page == s.procs[u].page
            && (r.up == Some(p) || s.procs[p].state != Recv)
            && forall x: Pid :: x != p ==> r.procs[x].waiting == s.procs[x].waiting
  {
    var u, e := s.up.value, Enqueued(s, p);
    var n := if e.procs[p].state == Recv then Some(p) else None;
    hide Inv, Enqueued, Schedule, Schedulable, Next, Switched, Blocked;
    SendSchedules(s, p);
    EnqueuedIs(s, p);
    var v := SwitchedTo(e, n);
    SwitchedAfterSend(s, e, Schedule(e, n).s, u, p, n, v);
  }

  lemma SendSchedules(s: State, p: Pid)
    requires InUser(s) && s.procs[p].state != Dead && s.used < MAX_PROC_LISTS
    ensures var e := Enqueued(s, p);
            Next(s, DoSend(p)).s == Schedule(e, if e.procs[p].state == Recv then Some(p) else None).s
  {
    hide Enqueued, Schedule;
  }

  lemma SwitchedAfterSend(s: State, e: State, r: State, u: Pid, p: Pid, n: Option<Pid>, v: Option<Pid>)
    requires Blocked(s, e, u, p) && Switched(e, r, v) && s.procs[u].state == OnCpu
    requires n == (if e.procs[p].state == Recv then Some(p) else None) && (n.Some? ==> v == n)
    requires v == n || (v.Some? && e.procs[v.value].state in {Ready, OnCpu})
    ensures r.procs[p].waiting == s.procs[p].waiting + [u]
    ensures r.procs[u].state == Send && r.procs[u].waitingOn == Some(p) && r.procs[u].resume == InKsend
    ensures r.procs[u].page == s.procs[u].page
    ensures r.up == Some(p) || s.procs[p].state != Recv
    ensures forall x: Pid :: x != p ==> r.procs[x].waiting == s.procs[x].waiting
  {
  }

  /** ksend up to its schedule(), which it may then call. */
  lemma EnqueuedIs(s: State, p: Pid)
    requires Inv(s) && InUser(s) && s.procs[p].state != Dead
    ensures var u, e := s.up.value, Enqueued(s, p);
            && Blocked(s, e, u, p) && s.procs[u].state == OnCpu
            && Schedulable(e, if e.procs[p].state == Recv then Some(p) else None)
  {
    var u, e := s.up.value, Enqueued(s, p);
    assert Blocked(s, e, u, p);
    CpuIsRunning(s, u);
    hide Enqueued, Schedulable, Blocked;
    BlockedSchedulable(s, e, u, p);
  }

  lemma SwitchedTo(s: State, n: Option<Pid>) returns (v: Option<Pid>)
    requires Schedulable(s, n)
    ensures Switched(s, Schedule(s, n).s, v) && Schedule(s, n).s.up == v && (n.Some? ==> v == n)
    ensures v == n || (v.Some? && s.procs[v.value].state in {Ready, OnCpu})
  {
    hide Schedule;
    v := ScheduleSwitches(s, n);
  }

  /** Blocked in ksend, sending to `p` or received by it. */
  predicate InSend(s: State, u: Pid, p: Pid) {
    s.procs[u].state in {Send, Reply} && s.procs[u].waitingOn == Some(p)
  }

  /** What a step answers to `u`, if it is an answer: proc_start answers OK to whom it receives from. */
  function AnswerTo(s: State, step: Step, u: Pid): Option<int> {
    match step
    case DoReply(to, ret) => if to == u then Some(ret) else None
    case DoReplyRecv(to, ret, _) => if to == u then Some(ret) else None
    case Continue =>
      if s.up.Some? && (s.procs[s.up.value].resume == Start ||
                        (s.procs[s.up.value].resume.RecvLoop? && s.procs[s.up.value].resume.starting))
      then Some(OK) else None
    case _ => None
  }

  /** One step of others with `u` in ksend to `p`: it stays there, or it is switched to with the answer of `p`. */
  ghost predicate SendGoesOn(s: State, r: State, u: Pid, p: Pid, answer: Option<int>) {
    if r.up == Some(u) then
      && s.up == Some(p) && answer.Some? && r.procs[u].resume == InKsend
      && r.procs[u].page.mRet == answer.value && r.procs[u].page.mIn == s.procs[p].page.mOut
    else InSend(r, u, p)
  }

  lemma KrecvWaiting(s: State, pid: int, starting: bool, u: Pid, p: Pid)
    requires Inv(s) && s.up.Some? && s.up != Some(u) && InSend(s, u, p)
    ensures SendGoesOn(s, Krecv(s, pid, starting).s, u, p, if starting then Some(OK) else None)
  {
    var c := s.up.value;
    assert s.procs[u].resume == InKsend by {
      assert PointInv(s.procs[u]);
    }
    if s.procs[c].waiting == [] {
      ParkSchedulable(s, RecvLoop(pid, starting));
      hide Inv, Schedule;
      var v := SwitchedTo(Put(s, c, s.procs[c].(state := Recv, resume := RecvLoop(pid, starting))), None);
    } else {
      PickedSender(s, c, pid);
      QueuedWaits(s, c, u);
      hide Inv, Krecv, Got;
      var w := KrecvGetsMessage(s, c, pid, starting);
    }
  }

  lemma QueuedWaits(s: State, c: Pid, u: Pid)
    requires Inv(s)
    ensures u in s.procs[c].waiting ==> s.procs[u].waitingOn == Some(c)
  {
  }

  /** schedule(n) from a call leaves a process blocked in ksend alone, unless it is `n`. */
  lemma SwitchWaiting(s: State, e: State, n: Option<Pid>, u: Pid, p: Pid)
    requires Schedulable(e, n) && n != Some(u) && InSend(s, u, p)
    requires e.procs[u].state == s.procs[u].state && e.procs[u].waitingOn == s.procs[u].waitingOn
    ensures InSend(Schedule(e, n).s, u, p) && Schedule(e, n).s.up != Some(u)
  {
    hide Schedule, Schedulable;
    var v := SwitchedTo(e, n);
  }

  lemma AnswerWaiting(s: State, to: Pid, ret: int, state: PState, resume: Resume, u: Pid, p: Pid)
    requires Inv(s) && InUser(s) && s.up != Some(u) && InSend(s, u, p) && MayReply(s, to)
    requires (state == OnCpu && resume == AfterKreply) || (state == Recv && resume.ReplyRecvParked?)
    ensures SendGoesOn(s, Schedule(Answered(s, to, ret, state, resume), Some(to)).s, u, p,
                       if to == u then Some(ret) else None)
  {
    var e := Answered(s, to, ret, state, resume);
    AnsweredSchedulable(s, to, ret, state, resume);
    assert s.procs[u].resume == InKsend by {
      assert PointInv(s.procs[u]);
    }
    if to == u {
      hide Inv;
    } else {
      assert e.procs[u] == s.procs[u];
      hide Inv, Answered, Schedule, Schedulable;
      SwitchWaiting(s, e, Some(to), u, p);
    }
  }

  lemma TickWaiting(s: State, u: Pid, p: Pid)
    requires Inv(s) && Enabled(s, Tick) && s.up != Some(u) && InSend(s, u, p)
    ensures SendGoesOn(s, Next(s, Tick).s, u, p, None)
  {
    assert Schedulable(s, None);
    hide Inv, Schedule, Schedulable;
    SwitchWaiting(s, s, None, u, p);
  }

  lemma SendWaiting(s: State, to: Pid, u: Pid, p: Pid)
    requires Inv(s) && InUser(s) && s.up != Some(u) && InSend(s, u, p)
    ensures SendGoesOn(s, Ksend(s, to).s, u, p, None)
  {
    if s.procs[to].state != Dead && s.used < MAX_PROC_LISTS {
      var e := Enqueued(s, to);
      EnqueuedIs(s, to);
      hide Inv, Enqueued, Schedule, Schedulable;
      SwitchWaiting(s, e, if e.procs[to].state == Recv then Some(to) else None, u, p);
    }
  }

  lemma WaitingStep(s: State, step: Step, u: Pid, p: Pid)
    requires Inv(s) && Enabled(s, step) && s.up != Some(u) && InSend(s, u, p)
    ensures SendGoesOn(s, Next(s, step).s, u, p, AnswerTo(s, step, u))
  {
    match step
    case Tick => TickWaiting(s, u, p);
    case Continue =>
      hide Inv, Krecv;
      match s.procs[s.up.value].resume {
        case Start => KrecvWaiting(s, PID_ALL, true, u, p);
        case RecvLoop(pid, starting) => KrecvWaiting(s, pid, starting, u, p);
        case ReplyRecvParked(pid) => KrecvWaiting(s, pid, false, u, p);
        case _ =>
      }
    case DoSend(to) => hide Inv, Ksend; SendWaiting(s, to, u, p);
    case DoRecv(pid) => hide Inv, Krecv; KrecvWaiting(s, pid, false, u, p);
    case DoReply(to, ret) =>
      CpuIsRunning(s, s.up.value);
      hide Inv, Answered, Schedule, MayReply;
      if MayReply(s, to) {
        AnswerWaiting(s, to, ret, OnCpu, AfterKreply, u, p);
      }
    case DoReplyRecv(to, ret, pid) =>
      hide Inv, Answered, Schedule, MayReply;
      if MayReply(s, to) {
        AnswerWaiting(s, to, ret, Recv, ReplyRecvParked(pid), u, p);
      }
    case UserWrite(page) =>
    case DoCreate => NewProcessIs(s);
  }

  lemma {:induction false} AwayInSend(s: State, during: seq<Step>, step: Step, u: Pid, p: Pid)
    requires Inv(s) && InSend(s, u, p) && Legal(s, during) && Away(s, during, u)
    requires Enabled(Final(s, during), step)
    ensures var t := Final(s, during);
            Inv(t) && SendGoesOn(t, Next(t, step).s, u, p, AnswerTo(t, step, u))
    decreases |during|
  {
    hide Inv, Next, InSend, AnswerTo;
    if during == [] {
      WaitingStep(s, step, u, p);
    } else {
      WaitingStep(s, during[0], u, p);
      StepKeepsInv(s, during[0]);
      AwayInSend(Next(s, during[0]).s, during[1..], step, u, p);
    }
  }

  /**
   A send, over any run: its caller is first on the CPU again by an answer of the process it sent to, and
   returns to user mode with the value of that answer and the message its answerer then had to send.
   */
  lemma SendReturns(before: seq<Step>, p: Pid, during: seq<Step>, step: Step) returns (ret: int)
    requires Legal(Booted(), before) && InUser(Final(Booted(), before))
    requires Final(Booted(), before).procs[p].state != Dead
    requires var s := Final(Booted(), before);
             var s1 := Next(s, DoSend(p)).s;
             && Legal(s1, during) && Away(s1, during, s.up.value)
             && Enabled(Final(s1, during), step) && Next(Final(s1, during), step).s.up == s.up
    ensures var s := Final(Booted(), before);
            var u, s2 := s.up.value, Final(Next(s, DoSend(p)).s, during);
            var s3 := Next(s2, step).s;
            && s2.up == Some(p) && AnswerTo(s2, step, u) == Some(ret) && Enabled(s3, Continue)
            && var r := Next(s3, Continue).s;
               InUser(r) && r.up == Some(u) && r.procs[u].r0 == ret && r.procs[u].page.mIn == s2.procs[p].page.mOut
  {
    PoolNeverExhausted(before);
    BootInv();
    RunKeepsInv(Booted(), before);
    var s := Final(Booted(), before);
    hide Inv, Booted, Final, Legal, Next, Enabled, Away, AnswerTo;
    var u, s1 := s.up.value, Next(s, DoSend(p)).s;
    SendQueues(s, p);
    StepKeepsInv(s, DoSend(p));
    AwayInSend(s1, during, step, u, p);
    var s2 := Final(s1, during);
    ret := AnswerTo(s2, step, u).value;
    ResumesInKsend(Next(s2, step).s, u);
  }

  lemma ResumesInKsend(s: State, u: Pid)
    requires s.up == Some(u) && s.procs[u].resume == InKsend
    ensures Enabled(s, Continue)
    ensures var r := Next(s, Continue).s;
            InUser(r) && r.up == Some(u) && r.procs[u].r0 == s.procs[u].page.mRet
            && r.procs[u].page == s.procs[u].page
  {
  }

  // ------------------------------------------------------------------ replying

  /** kreply or kreply_recv to `p`, with value `ret`. */
  predicate Replies(step: Step, p: Pid, ret: int) {
    step == DoReply(p, ret) || (step.DoReplyRecv? && step.to == p && step.ret == ret)
  }

  /** A reply that is not refused runs its addressee next, and that one's ksend returns the value and the message. */
  lemma ReplyHandsOver(s: State, step: Step, p: Pid, ret: int)
    requires Inv(s) && InUser(s) && MayReply(s, p) && Replies(step, p, ret)
    ensures var u := s.up.value;
            var s1 := Next(s, step).s;
            && s1.up == Some(p) && s1.procs[u].state == (if step.DoReply? then Ready else Recv) && Enabled(s1, Continue)
            && s1.procs[u].waiting == s.procs[u].waiting && s1.procs[u].page == s.procs[u].page
            && (forall x: Pid :: x != u && x != p ==> s1.procs[x] == s.procs[x])
            && var s2 := Next(s1, Continue).s;
            && InUser(s2) && s2.up == Some(p) && s2.procs[p].r0 == ret
            && s2.procs[p].page == s.procs[p].page.(mIn := s.procs[u].page.mOut, mRet := ret)
  {
    assert PointInv(s.procs[p]) && s.procs[s.up.value].state == OnCpu;
    assert forall x: Pid :: s.procs[x].state == OnCpu ==> s.up == Some(x);
    hide Inv;
  }

  /** A kreply that is not refused returns OK, whenever its caller is on the CPU again. */
  lemma ReplyReturns(before: seq<Step>, to: Pid, ret: int, during: seq<Step>, step: Step)
    requires Legal(Booted(), before) && InUser(Final(Booted(), before)) && MayReply(Final(Booted(), before), to)
    requires var s := Final(Booted(), before);
             var s1 := Next(s, DoReply(to, ret)).s;
             && Legal(s1, during) && Away(s1, during, s.up.value)
             && Enabled(Final(s1, during), step) && Next(Final(s1, during), step).s.up == s.up
    ensures var s := Final(Booted(), before);
            var u, s3 := s.up.value, Next(Final(Next(s, DoReply(to, ret)).s, during), step).s;
            && Enabled(s3, Continue)
            && var r := Next(s3, Continue).s;
               r == Put(s3, u, s3.procs[u].(resume := User, r0 := OK))
  {
    BootInv();
    RunKeepsInv(Booted(), before);
    var s := Final(Booted(), before);
    hide Inv, Booted, Final, Legal, Away, Next, Enabled;
    ReplierGoesOn(s, to, ret);
    StepKeepsInv(s, DoReply(to, ret));
    BackFromReply(Next(s, DoReply(to, ret)).s, during, step, s.up.value);
  }

  lemma BackFromReply(s: State, during: seq<Step>, step: Step, u: Pid)
    requires Inv(s) && s.procs[u].state != Dead && s.procs[u].resume == AfterKreply
    requires Legal(s, during) && Away(s, during, u)
    requires Enabled(Final(s, during), step) && Next(Final(s, during), step).s.up == Some(u)
    ensures var r := Next(Final(s, during), step).s;
            Enabled(r, Continue) && Next(r, Continue).s == Put(r, u, r.procs[u].(resume := User, r0 := OK))
  {
    hide Inv, Final, Legal, Next, Enabled, Away;
    AwayKeepsOwn(s, during, step, u);
    AfterReply(Next(Final(s, during), step).s, u);
  }

  lemma AfterReply(s: State, u: Pid)
    requires s.up == Some(u) && s.procs[u].resume == AfterKreply
    ensures Enabled(s, Continue) && Next(s, Continue).s == Put(s, u, s.procs[u].(resume := User, r0 := OK))
  {
  }

  lemma ReplierGoesOn(s: State, to: Pid, ret: int)
    requires Inv(s) && InUser(s) && MayReply(s, to)
    ensures Enabled(s, DoReply(to, ret))
    ensures var r := Next(s, DoReply(to, ret)).s.procs[s.up.value]; r.resume == AfterKreply && r.state == Ready
  {
    ReplyHandsOver(s, DoReply(to, ret), to, ret);
    var u, e := s.up.value, Answered(s, to, ret, s.procs[s.up.value].state, AfterKreply);
    assert e.procs[u].resume == AfterKreply;
    hide Inv, Answered, Schedule;
    ScheduleOnlyStates(e, Some(to), u);
  }

  // ------------------------------------------------------------------ creating

  /** Creation returns the pid of a process that was not there: ready, no queue, a zeroed page, about to start. */
  lemma CreateReturns(s: State)
    requires Inv(s) && Enabled(s, DoCreate)
    ensures var u, n, r := s.up.value, |s.alive|, Next(s, DoCreate).s;
            && n < MAX_PROCS && s.procs[n].state == Dead && n != u && r.procs[u] == s.procs[u].(r0 := n)
            && r.procs[n] == Proc(Ready, None, [], Page(ZeroMessage(), ZeroMessage(), 0), Start, 0)
            && (forall x: Pid :: x != u && x != n ==> r.procs[x] == s.procs[x])
            && r.alive == s.alive + [n] && r.up == s.up
  {
    NewProcessIs(s);
    CpuIsRunning(s, s.up.value);
    hide Inv, ProcNew;
  }
}
