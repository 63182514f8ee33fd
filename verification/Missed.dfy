/**
 When a receiver sleeps on a message that is waiting for it: exactly when a server gave its reply with
 kreply_recv while a sender was queued at it.
 */
module Missed {
  import opened Common
  import opened Ipc
  import opened IpcInvariant
  import opened Blocking

  /** No process waits for a message while one is queued at it. */
  ghost predicate NoneMissed(t: Table) {
    forall p: Pid :: t[p].state == Recv ==> t[p].waiting == []
  }

  /** The step is a kreply_recv that will be accepted, by a process that somebody is queued at. */
  predicate Skips(s: State, step: Step) {
    step.DoReplyRecv? && s.up.Some? && MayReply(s, step.to) && s.procs[s.up.value].waiting != []
  }

  /** A switch wakes the process it goes to, if that was receiving, and makes no other one receive or wake. */
  lemma SwitchMisses(s: State, n: Option<Pid>)
    requires Schedulable(s, n)
    ensures NoneMissed(Schedule(s, n).s.procs) <==>
            forall p: Pid :: s.procs[p].state == Recv && n != Some(p) ==> s.procs[p].waiting == []
  {
    hide Schedule;
    var v := ScheduleSwitches(s, n);
    var r := Schedule(s, n).s;
    hide Schedulable;
    forall p: Pid
      ensures r.procs[p].waiting == s.procs[p].waiting
      ensures r.procs[p].state == Recv <==> s.procs[p].state == Recv && n != Some(p)
    {
      assert r.procs[p] == s.procs[p].(state := r.procs[p].state);
    }
  }

  /** After a switch nobody is missed if the one with a message for it was chosen. */
  lemma NobodyMissed(s: State, n: Option<Pid>)
    requires Schedulable(s, n)
    requires forall x: Pid :: s.procs[x].state == Recv && n != Some(x) ==> s.procs[x].waiting == []
    ensures NoneMissed(Schedule(s, n).s.procs)
  {
    hide Schedulable, Schedule;
    SwitchMisses(s, n);
  }

  lemma BlockedMisses(s: State, r: State, u: Pid, p: Pid)
    requires Blocked(s, r, u, p) && NoneMissed(s.procs)
    ensures var n := if r.procs[p].state == Recv then Some(p) else None;
            forall x: Pid :: r.procs[x].state == Recv && n != Some(x) ==> r.procs[x].waiting == []
  {
    forall x: Pid | r.procs[x].state == Recv && x != p
      ensures r.procs[x].waiting == []
    {
      assert s.procs[x].state == Recv;
    }
  }

  lemma SendMisses(s: State, p: Pid)
    requires Inv(s) && InUser(s) && NoneMissed(s.procs)
    ensures NoneMissed(Ksend(s, p).s.procs)
  {
    var u := s.up.value;
    if s.procs[p].state != Dead && s.used < MAX_PROC_LISTS {
      var r := Enqueued(s, p);
      var n := if r.procs[p].state == Recv then Some(p) else None;
      assert Ksend(s, p) == Schedule(r, n);
      assert Blocked(s, r, u, p);
      BlockedSchedulable(s, r, u, p);
      hide Inv, Schedulable, Schedule, Enqueued, Ksend, Blocked, NoneMissed;
      BlockedMisses(s, r, u, p);
      NobodyMissed(r, n);
    }
  }

  lemma RecvMisses(s: State, pid: int, starting: bool)
    requires Inv(s) && s.up.Some? && NoneMissed(s.procs)
    requires s.procs[s.up.value].resume != InKsend
    ensures NoneMissed(Krecv(s, pid, starting).s.procs)
  {
    var u := s.up.value;
    var q := s.procs[u].waiting;
    if q == [] {
      ParkSchedulable(s, RecvLoop(pid, starting));
      hide Inv, Schedulable, Schedule;
      SwitchMisses(Put(s, u, s.procs[u].(state := Recv, resume := RecvLoop(pid, starting))), None);
    } else {
      KrecvKeepsInv(s, pid, starting);
      hide Krecv, Inv;
      var w := KrecvGetsMessage(s, u, pid, starting);
      var r := Krecv(s, pid, starting).s;
      forall x: Pid | r.procs[x].state == Recv
        ensures r.procs[x].waiting == []
      {
      }
    }
  }

  lemma AnswerMisses(s: State, p: Pid, ret: int, state: PState, resume: Resume)
    requires InCall(s) && MayReply(s, p) && NoneMissed(s.procs)
    requires (state == OnCpu && resume == AfterKreply) || (state == Recv && resume.ReplyRecvParked?)
    ensures NoneMissed(Schedule(Answered(s, p, ret, state, resume), Some(p)).s.procs) <==>
            state == OnCpu || s.procs[s.up.value].waiting == []
  {
    var u := s.up.value;
    var r := Answered(s, p, ret, state, resume);
    AnsweredSchedulable(s, p, ret, state, resume);
    assert s.procs[u].state == OnCpu;
    SwitchMisses(r, Some(p));
    hide InCall, Schedulable, Schedule;
    assert p != u && r.procs[u].state == state && r.procs[u].waiting == s.procs[u].waiting;
    forall x: Pid | x != u && x != p
      ensures r.procs[x] == s.procs[x]
    {
    }
  }

  /** A running process in user mode is in a call. */
  lemma UserIsInCall(s: State)
    requires Inv(s) && InUser(s)
    ensures InCall(s) && s.procs[s.up.value].state == OnCpu
  {
  }

  lemma ResumedMisses(s: State)
    requires Inv(s) && Enabled(s, Continue) && NoneMissed(s.procs)
    ensures NoneMissed(Resumed(s).s.procs)
  {
    hide Krecv, Inv;
    match s.procs[s.up.value].resume
    case Start => RecvMisses(s, PID_ALL, true);
    case RecvLoop(pid, starting) => RecvMisses(s, pid, starting);
    case ReplyRecvParked(pid) => RecvMisses(s, pid, false);
    case _ =>
  }

  /** A step makes some process sleep on a queued message exactly when it skips one. */
  lemma MissesIffSkips(s: State, step: Step)
    requires Inv(s) && Enabled(s, step) && NoneMissed(s.procs)
    ensures NoneMissed(Next(s, step).s.procs) <==> !Skips(s, step)
  {
    hide Schedule, Krecv, Ksend, Resumed, Answered, MayReply;
    match step
    case Tick =>
      TickSchedulable(s);
      SwitchMisses(s, None);
    case Continue => ResumedMisses(s);
    case UserWrite(page) =>
    case DoSend(p) => SendMisses(s, p);
    case DoRecv(pid) => RecvMisses(s, pid, false);
    case DoReply(p, ret) =>
      UserIsInCall(s);
      if MayReply(s, p) {
        AnswerMisses(s, p, ret, OnCpu, AfterKreply);
      }
    case DoReplyRecv(p, ret, pid) =>
      UserIsInCall(s);
      if MayReply(s, p) {
        AnswerMisses(s, p, ret, Recv, ReplyRecvParked(pid));
      }
    case DoCreate =>
  }

  lemma TickSchedulable(s: State)
    requires Inv(s) && Enabled(s, Tick)
    ensures Schedulable(s, None)
  {
  }

  // ------------------------------------------------------------------ runs

  /** No state of the run has a process sleeping on a queued message. */
  ghost predicate NeverMissed(s: State, steps: seq<Step>)
    requires Legal(s, steps)
    decreases |steps|
  {
    NoneMissed(s.procs) && (steps == [] || NeverMissed(Next(s, steps[0]).s, steps[1..]))
  }

  /** No step of the run skips a message. */
  predicate NeverSkips(s: State, steps: seq<Step>)
    requires Legal(s, steps)
    decreases |steps|
  {
    steps == [] || (!Skips(s, steps[0]) && NeverSkips(Next(s, steps[0]).s, steps[1..]))
  }

  lemma {:induction false} NeverMissedIff(s: State, steps: seq<Step>)
    requires Inv(s) && Legal(s, steps) && NoneMissed(s.procs)
    ensures NeverMissed(s, steps) <==> NeverSkips(s, steps)
    decreases |steps|
  {
    hide Inv, NoneMissed, Skips, Next;
    if steps != [] {
      MissesIffSkips(s, steps[0]);
      StepKeepsInv(s, steps[0]);
      if !Skips(s, steps[0]) {
        NeverMissedIff(Next(s, steps[0]).s, steps[1..]);
      }
    }
  }

  /** A run of the kernel never lets a receiver sleep on a queued message exactly when it never skips one. */
  lemma WakeupLostIffSkipped(steps: seq<Step>)
    requires Legal(Booted(), steps)
    ensures NeverMissed(Booted(), steps) <==> NeverSkips(Booted(), steps)
  {
    BootInv();
    assert NoneMissed(Booted().procs);
    hide Booted;
    NeverMissedIff(Booted(), steps);
  }
}
