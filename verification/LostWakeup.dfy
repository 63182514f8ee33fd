/**
 A concrete run that shows why NoLostWakeup and DeadlockHasCulprit need their kreply_recv case:
 process 0 serves 1 and 2, answers 1 with kreply_recv while 2 is already queued, and is parked
 with that message unread. When 1 then only receives, nothing can ever run again.
 */
module LostWakeup {
  import opened Common
  import opened Ipc
  import opened IpcInvariant
  import opened Blocking

  /** What matters here of a process. */
  datatype Brief = Brief(state: PState, waitingOn: Option<Pid>, waiting: seq<Pid>, resume: Resume)

  function BriefOf(p: Proc): Brief {
    Brief(p.state, p.waitingOn, p.waiting, p.resume)
  }

  ghost predicate Three(s: State, up: Option<Pid>, a: Brief, b: Brief, c: Brief) {
    && s.alive == [0, 1, 2] && s.up == up && s.used == |a.waiting| + |b.waiting| + |c.waiting|
    && BriefOf(s.procs[0]) == a && BriefOf(s.procs[1]) == b && BriefOf(s.procs[2]) == c
  }

  function First(t: Table, a: Pid, b: Pid, c: Pid): Option<Pid> {
    if t[a].state == Ready then Some(a)
    else if t[b].state == Ready then Some(b)
    else if t[c].state == Ready then Some(c)
    else None
  }

  lemma FirstOfThree(t: Table, ps: seq<Pid>)
    requires |ps| == 3
    ensures FirstReady(ps, t) == First(t, ps[0], ps[1], ps[2])
  {
    assert FirstReady(ps[1..][1..][1..], t) == None;
    assert FirstReady(ps[1..][1..], t) == if t[ps[2]].state == Ready then Some(ps[2]) else None;
    assert FirstReady(ps[1..], t) ==
           if t[ps[1]].state == Ready then Some(ps[1]) else FirstReady(ps[1..][1..], t);
  }

  lemma NextOfThree(s: State)
    requires s.alive == [0, 1, 2]
    ensures s.up == Some(0) ==> NextProc(s) == First(s.procs, 1, 2, 0)
    ensures s.up == Some(1) ==> NextProc(s) == First(s.procs, 2, 0, 1)
    ensures s.up == Some(2) ==> NextProc(s) == First(s.procs, 0, 1, 2)
  {
    var r := Rotation(s.alive, s.up);
    if s.up == Some(0) {
      assert r == [1, 2, 0];
      FirstOfThree(s.procs, r);
    } else if s.up == Some(1) {
      assert r == [2, 0, 1];
      FirstOfThree(s.procs, r);
    } else if s.up == Some(2) {
      assert r == [0, 1, 2];
      FirstOfThree(s.procs, r);
    }
  }

  /** schedule(nil) with three processes. */
  lemma ScheduleOfThree(s: State)
    requires s.alive == [0, 1, 2] && s.up.Some?
    ensures Schedule(s, None).s ==
            SwitchTo(Preempt(s), if s.up == Some(0) then First(Preempt(s).procs, 1, 2, 0)
                                 else if s.up == Some(1) then First(Preempt(s).procs, 2, 0, 1)
                                 else if s.up == Some(2) then First(Preempt(s).procs, 0, 1, 2)
                                 else NextProc(Preempt(s)))
  {
    NextOfThree(Preempt(s));
  }

  /** schedule(nil) from a caller that has blocked: the first ready one of the other two runs. */
  lemma Blocked3(s: State, up: Pid, a: Brief, b: Brief, c: Brief, next: Pid)
    requires Three(s, Some(up), a, b, c) && up < 3 && next < 3
    requires a.state != OnCpu && b.state != OnCpu && c.state != OnCpu
    requires next == (if up == 0 then (if b.state == Ready then 1 else 2)
                      else if up == 1 then (if c.state == Ready then 2 else 0)
                      else (if a.state == Ready then 0 else 1))
    requires (if next == 0 then a else if next == 1 then b else c).state == Ready
    ensures Three(Schedule(s, None).s, Some(next),
                  if next == 0 then a.(state := OnCpu) else a,
                  if next == 1 then b.(state := OnCpu) else b,
                  if next == 2 then c.(state := OnCpu) else c)
  {
    assert Preempt(s) == s;
    NextOfThree(s);
    assert Schedule(s, None).s == SwitchTo(s, Some(next));
  }

  /** schedule(nil) when none of the three can run: nobody runs. */
  lemma AllBlocked3(s: State, up: Pid, a: Brief, b: Brief, c: Brief)
    requires Three(s, Some(up), a, b, c) && up < 3
    requires a.state !in {OnCpu, Ready} && b.state !in {OnCpu, Ready} && c.state !in {OnCpu, Ready}
    ensures Three(Schedule(s, None).s, None, a, b, c)
  {
    assert Preempt(s) == s;
    NextOfThree(s);
    assert NextProc(s) == None;
    assert Schedule(s, None).s == s.(up := None);
  }

  const FRESH: Brief := Brief(Ready, None, [], Start)

  lemma {:induction false} OneMore(s: State, steps: seq<Step>, step: Step)
    requires Legal(s, steps) && Enabled(Final(s, steps), step)
    ensures Legal(s, steps + [step]) && Final(s, steps + [step]) == Next(Final(s, steps), step).s
    decreases |steps|
  {
    if steps == [] {
      assert steps + [step] == [step];
    } else {
      OneMore(Next(s, steps[0]).s, steps[1..], step);
      assert (steps + [step])[1..] == steps[1..] + [step];
    }
  }

  lemma Created() returns (steps: seq<Step>)
    ensures Legal(Booted(), steps)
    ensures Three(Final(Booted(), steps), Some(0), Brief(OnCpu, None, [], User), FRESH, FRESH)
  {
    var s := Booted();
    assert s.alive == [0] && s.up == Some(0) && s.used == 0 && s.nextpid == 1;
    OneMore(s, [], DoCreate);
    var s1 := Final(s, [DoCreate]);
    assert s1.alive == [0, 1] && s1.up == Some(0) && s1.nextpid == 2;
    OneMore(s, [DoCreate], DoCreate);
    steps := [DoCreate] + [DoCreate];
  }

  /** The states of the run after the two creations, in order. */
  ghost predicate Stage(s: State, i: nat) {
    match i
    case 0 => Three(s, Some(0), Brief(OnCpu, None, [], User), Brief(Ready, None, [], Start),
                    Brief(Ready, None, [], Start))
    case 1 => Three(s, Some(1), Brief(Send, Some(1), [], InKsend), Brief(OnCpu, None, [0], Start),
                    Brief(Ready, None, [], Start))
    case 2 => Three(s, Some(0), Brief(OnCpu, Some(1), [], InKsend), Brief(Ready, None, [], AfterKreply),
                    Brief(Ready, None, [], Start))
    case 3 => Three(s, Some(0), Brief(OnCpu, Some(1), [], User), Brief(Ready, None, [], AfterKreply),
                    Brief(Ready, None, [], Start))
    case 4 => Three(s, Some(1), Brief(Send, Some(2), [], InKsend), Brief(OnCpu, None, [], AfterKreply),
                    Brief(Ready, None, [0], Start))
    case 5 => Three(s, Some(1), Brief(Send, Some(2), [], InKsend), Brief(OnCpu, None, [], User),
                    Brief(Ready, None, [0], Start))
    case 6 => Three(s, Some(2), Brief(Send, Some(2), [], InKsend), Brief(Ready, None, [], User),
                    Brief(OnCpu, None, [0], Start))
    case 7 => Three(s, Some(0), Brief(OnCpu, Some(2), [], InKsend), Brief(Ready, None, [], User),
                    Brief(Ready, None, [], AfterKreply))
    case 8 => Three(s, Some(0), Brief(OnCpu, Some(2), [], User), Brief(Ready, None, [], User),
                    Brief(Ready, None, [], AfterKreply))
    case 9 => Three(s, Some(1), Brief(Recv, Some(2), [], RecvLoop(PID_ALL, false)), Brief(OnCpu, None, [], User),
                    Brief(Ready, None, [], AfterKreply))
    case 10 => Three(s, Some(0), Brief(OnCpu, Some(2), [1], RecvLoop(PID_ALL, false)),
                     Brief(Send, Some(0), [], InKsend), Brief(Ready, None, [], AfterKreply))
    case 11 => Three(s, Some(0), Brief(OnCpu, Some(2), [], User), Brief(Reply, Some(0), [], InKsend),
                    Brief(Ready, None, [], AfterKreply))
    case 12 => Three(s, Some(2), Brief(Ready, Some(2), [], User), Brief(Reply, Some(0), [], InKsend),
                    Brief(OnCpu, None, [], AfterKreply))
    case 13 => Three(s, Some(2), Brief(Ready, Some(2), [], User), Brief(Reply, Some(0), [], InKsend),
                    Brief(OnCpu, None, [], User))
    case 14 => Three(s, Some(0), Brief(OnCpu, Some(2), [2], User), Brief(Reply, Some(0), [], InKsend),
                    Brief(Send, Some(0), [], InKsend))
    case 15 => Three(s, Some(1), Brief(Recv, Some(2), [2], ReplyRecvParked(PID_ALL)),
                     Brief(OnCpu, Some(0), [], InKsend), Brief(Send, Some(0), [], InKsend))
    case 16 => Three(s, Some(1), Brief(Recv, Some(2), [2], ReplyRecvParked(PID_ALL)), Brief(OnCpu, Some(0), [], User),
                    Brief(Send, Some(0), [], InKsend))
    case 17 => Three(s, None, Brief(Recv, Some(2), [2], ReplyRecvParked(PID_ALL)),
                     Brief(Recv, Some(0), [], RecvLoop(PID_ALL, false)), Brief(Send, Some(0), [], InKsend))
    case _ => false
  }

  function StepAt(i: nat): Step {
    match i
    case 0 => DoSend(1)
    case 1 => Continue
    case 2 => Continue
    case 3 => DoSend(2)
    case 4 => Continue
    case 5 => Tick
    case 6 => Continue
    case 7 => Continue
    case 8 => DoRecv(PID_ALL)
    case 9 => DoSend(0)
    case 10 => Continue
    case 11 => Tick
    case 12 => Continue
    case 13 => DoSend(0)
    case 14 => DoReplyRecv(1, OK, PID_ALL)
    case 15 => Continue
    case 16 => DoRecv(PID_ALL)
    case _ => Continue
  }

  /** A send to a process that is not receiving blocks the caller. */
  lemma SendBlocks(s: State, p: Pid)
    requires InUser(s) && s.used < MAX_PROC_LISTS && s.procs[p].state !in {Dead, Recv}
    ensures Next(s, DoSend(p)) == Schedule(Enqueued(s, p), None)
  {
    EnqueuedTarget(s, p);
    hide Enqueued, Schedule;
  }

  lemma EnqueuedTarget(s: State, p: Pid)
    requires s.up.Some? && s.procs[p].state != Recv
    ensures Enqueued(s, p).procs[p].state != Recv
  {
  }

  lemma Queued1(s: State)
    requires Stage(s, 0)
    ensures InUser(s) && s.used < MAX_PROC_LISTS && s.procs[1].state !in {Dead, Recv}
    ensures Three(Enqueued(s, 1), Some(0), Brief(Send, Some(1), [], InKsend),
                  Brief(Ready, None, [0], Start),
                  Brief(Ready, None, [], Start))
  {
  }

  lemma Stage1(s: State)
    requires Stage(s, 0)
    ensures Enabled(s, StepAt(0)) && Stage(Next(s, StepAt(0)).s, 1)
  {
    hide Enqueued, Schedule, Next;
    Queued1(s);
    SendBlocks(s, 1);
    Blocked3(Enqueued(s, 1), 0, Brief(Send, Some(1), [], InKsend),
             Brief(Ready, None, [0], Start),
             Brief(Ready, None, [], Start), 1);
    hide Three;
  }

  lemma Stage2(s: State)
    requires Stage(s, 1)
    ensures Enabled(s, StepAt(1)) && Stage(Next(s, StepAt(1)).s, 2)
  {
  }

  lemma Stage3(s: State)
    requires Stage(s, 2)
    ensures Enabled(s, StepAt(2)) && Stage(Next(s, StepAt(2)).s, 3)
  {
  }

  lemma Queued4(s: State)
    requires Stage(s, 3)
    ensures InUser(s) && s.used < MAX_PROC_LISTS && s.procs[2].state !in {Dead, Recv}
    ensures Three(Enqueued(s, 2), Some(0), Brief(Send, Some(2), [], InKsend),
                  Brief(Ready, None, [], AfterKreply),
                  Brief(Ready, None, [0], Start))
  {
  }

  lemma Stage4(s: State)
    requires Stage(s, 3)
    ensures Enabled(s, StepAt(3)) && Stage(Next(s, StepAt(3)).s, 4)
  {
    hide Enqueued, Schedule, Next;
    Queued4(s);
    SendBlocks(s, 2);
    Blocked3(Enqueued(s, 2), 0, Brief(Send, Some(2), [], InKsend),
             Brief(Ready, None, [], AfterKreply),
             Brief(Ready, None, [0], Start), 1);
    hide Three;
  }

  lemma Stage5(s: State)
    requires Stage(s, 4)
    ensures Enabled(s, StepAt(4)) && Stage(Next(s, StepAt(4)).s, 5)
  {
  }

  lemma Stage6(s: State)
    requires Stage(s, 5)
    ensures Enabled(s, StepAt(5)) && Stage(Next(s, StepAt(5)).s, 6)
  {
    hide NextProc, Schedule;
    ScheduleOfThree(s);
  }

  lemma Stage7(s: State)
    requires Stage(s, 6)
    ensures Enabled(s, StepAt(6)) && Stage(Next(s, StepAt(6)).s, 7)
  {
  }

  lemma Stage8(s: State)
    requires Stage(s, 7)
    ensures Enabled(s, StepAt(7)) && Stage(Next(s, StepAt(7)).s, 8)
  {
  }

  lemma Stage9(s: State)
    requires Stage(s, 8)
    ensures Enabled(s, StepAt(8)) && Stage(Next(s, StepAt(8)).s, 9)
  {
    var e := Put(s, 0, s.procs[0].(state := Recv, resume := RecvLoop(PID_ALL, false)));
    Blocked3(e, 0, Brief(Recv, Some(2), [], RecvLoop(PID_ALL, false)), Brief(Ready, None, [], User),
             Brief(Ready, None, [], AfterKreply), 1);
  }

  lemma Stage10(s: State)
    requires Stage(s, 9)
    ensures Enabled(s, StepAt(9)) && Stage(Next(s, StepAt(9)).s, 10)
  {
    var e := Enqueued(s, 0);
    assert Three(e, Some(1), Brief(Recv, Some(2), [1], RecvLoop(PID_ALL, false)), Brief(Send, Some(0), [], InKsend),
                 Brief(Ready, None, [], AfterKreply));
  }

  lemma Stage11(s: State)
    requires Stage(s, 10)
    ensures Enabled(s, StepAt(10)) && Stage(Next(s, StepAt(10)).s, 11)
  {
  }

  lemma Stage12(s: State)
    requires Stage(s, 11)
    ensures Enabled(s, StepAt(11)) && Stage(Next(s, StepAt(11)).s, 12)
  {
    hide NextProc, Schedule;
    ScheduleOfThree(s);
  }

  lemma Stage13(s: State)
    requires Stage(s, 12)
    ensures Enabled(s, StepAt(12)) && Stage(Next(s, StepAt(12)).s, 13)
  {
  }

  lemma Queued14(s: State)
    requires Stage(s, 13)
    ensures InUser(s) && s.used < MAX_PROC_LISTS && s.procs[0].state !in {Dead, Recv}
    ensures Three(Enqueued(s, 0), Some(2), Brief(Ready, Some(2), [2], User),
                  Brief(Reply, Some(0), [], InKsend),
                  Brief(Send, Some(0), [], InKsend))
  {
  }

  lemma Stage14(s: State)
    requires Stage(s, 13)
    ensures Enabled(s, StepAt(13)) && Stage(Next(s, StepAt(13)).s, 14)
  {
    hide Enqueued, Schedule, Next;
    Queued14(s);
    SendBlocks(s, 0);
    Blocked3(Enqueued(s, 0), 2, Brief(Ready, Some(2), [2], User),
             Brief(Reply, Some(0), [], InKsend),
             Brief(Send, Some(0), [], InKsend), 0);
    hide Three;
  }

  lemma Stage15(s: State)
    requires Stage(s, 14)
    ensures Enabled(s, StepAt(14)) && Stage(Next(s, StepAt(14)).s, 15)
  {
  }

  lemma Stage16(s: State)
    requires Stage(s, 15)
    ensures Enabled(s, StepAt(15)) && Stage(Next(s, StepAt(15)).s, 16)
  {
  }

  /** The caller of krecv, blocked and about to schedule. */
  lemma Parked17(s: State)
    requires Stage(s, 16)
    ensures InUser(s) && s.up == Some(1) && s.procs[1].waiting == []
    ensures Three(Put(s, 1, s.procs[1].(state := Recv, resume := RecvLoop(PID_ALL, false))), Some(1),
                  Brief(Recv, Some(2), [2], ReplyRecvParked(PID_ALL)),
                  Brief(Recv, Some(0), [], RecvLoop(PID_ALL, false)), Brief(Send, Some(0), [], InKsend))
  {
    assert BriefOf(s.procs[1]).waiting == [];
  }

  lemma RecvParks(s: State, pid: int)
    requires InUser(s) && s.procs[s.up.value].waiting == []
    ensures var u := s.up.value;
            Enabled(s, DoRecv(pid)) &&
            Next(s, DoRecv(pid)).s ==
            Schedule(Put(s, u, s.procs[u].(state := Recv, resume := RecvLoop(pid, false))), None).s
  {
    hide Schedule;
  }

  lemma Stage17(s: State)
    requires Stage(s, 16)
    ensures Enabled(s, StepAt(16)) && Stage(Next(s, StepAt(16)).s, 17)
  {
    hide Schedule, Next, Enabled;
    Parked17(s);
    RecvParks(s, PID_ALL);
    AllBlocked3(Put(s, 1, s.procs[1].(state := Recv, resume := RecvLoop(PID_ALL, false))), 1,
                Brief(Recv, Some(2), [2], ReplyRecvParked(PID_ALL)),
                Brief(Recv, Some(0), [], RecvLoop(PID_ALL, false)), Brief(Send, Some(0), [], InKsend));
    hide Three;
  }

  lemma StageStep(s: State, i: nat)
    requires i < 17 && Stage(s, i)
    ensures Enabled(s, StepAt(i)) && Stage(Next(s, StepAt(i)).s, i + 1)
  {
    match i
    case 0 => Stage1(s);
    case 1 => Stage2(s);
    case 2 => Stage3(s);
    case 3 => Stage4(s);
    case 4 => Stage5(s);
    case 5 => Stage6(s);
    case 6 => Stage7(s);
    case 7 => Stage8(s);
    case 8 => Stage9(s);
    case 9 => Stage10(s);
    case 10 => Stage11(s);
    case 11 => Stage12(s);
    case 12 => Stage13(s);
    case 13 => Stage14(s);
    case 14 => Stage15(s);
    case 15 => Stage16(s);
    case 16 => Stage17(s);
  }

  lemma {:induction false} RunTo(i: nat) returns (steps: seq<Step>)
    requires i <= 17
    ensures Legal(Booted(), steps) && Stage(Final(Booted(), steps), i)
  {
    if i == 0 {
      hide Final, Booted, Next;
      steps := Created();
    } else {
      hide Final, Booted, Next, Stage, StepAt, Legal, Enabled;
      var before := RunTo(i - 1);
      StageStep(Final(Booted(), before), i - 1);
      OneMore(Booted(), before, StepAt(i - 1));
      steps := before + [StepAt(i - 1)];
    }
  }

  /** A reachable state with a process receiving while a message waits in its queue. */
  lemma LostWakeupIsReachable() returns (steps: seq<Step>, p: Pid)
    ensures Legal(Booted(), steps)
    ensures var q := Final(Booted(), steps).procs[p];
            q.state == Recv && q.waiting != [] && q.resume.ReplyRecvParked?
  {
    hide Final, Booted, Next, Legal;
    steps := RunTo(15);
    p := 0;
  }

  /**
   A reachable deadlock with neither a circle of waiting processes nor one held by a receiver:
   only kreply_recv's parking, which does not look at its queue, is to blame.
   */
  lemma ReplyRecvAloneDeadlocks() returns (steps: seq<Step>, q: Pid)
    ensures Legal(Booted(), steps)
    ensures var s := Final(Booted(), steps);
            && s.up.None? && s.procs[q].state == Send
            && QueuedAtParked(s.procs, q)
            && !(exists c :: Cycle(s.procs, c)) && !(exists x: Pid :: HeldByReceiver(s.procs, x))
  {
    hide Final, Booted, Next, Legal;
    steps := RunTo(17);
    q := 2;
    var s := Final(Booted(), steps);
    BootInv();
    RunKeepsInv(Booted(), steps);
    OnlyOneBlocked(s);
    hide Stage, Inv;
    if c :| Cycle(s.procs, c) {
      StalledInCycle(s.procs, c);
    }
  }

  lemma StalledInCycle(t: Table, c: seq<Pid>)
    requires Cycle(t, c)
    ensures exists x: Pid :: Stalled(t[x]) && Stalled(t[t[x].waitingOn.value])
  {
    assert Stalled(t[c[|c| - 1]]) && Stalled(t[c[0]]);
  }

  lemma OnlyOneBlocked(s: State)
    requires AliveInv(s) && Stage(s, 17)
    ensures forall x: Pid :: s.procs[x].state in {Send, Reply} ==> x == 2
    ensures s.procs[2].state == Send && s.procs[2].waitingOn == Some(0) && QueuedAtParked(s.procs, 2)
  {
    assert BriefOf(s.procs[0]).state == Recv && BriefOf(s.procs[1]).state == Recv && BriefOf(s.procs[2]).state == Send;
    assert forall x: Pid :: x >= 3 ==> s.procs[x].state == Dead;
  }
}
