/** Wake-ups, deadlock, pool use and fairness of the machine of module Ipc. */
module Blocking {
  import opened Common
  import opened Ipc
  import opened IpcInvariant

  // ------------------------------------------------------------------ wake-ups

  /** A process blocked in a receive with senders queued can only be one parked by kreply_recv. */
  lemma NoLostWakeup(steps: seq<Step>, p: Pid)
    requires Legal(Booted(), steps)
    ensures var t := Final(Booted(), steps).procs;
            t[p].state == Recv && t[p].waiting != [] ==> t[p].resume.ReplyRecvParked?
  {
    BootInv();
    RunKeepsInv(Booted(), steps);
    assert WakeInv(Final(Booted(), steps).procs[p]);
  }

  /** proc_list_remove takes the first node that matches, and if none does the last one, whatever was asked for. */
  lemma {:induction false} PickFirstMatchElseLast(q: seq<Pid>, pid: int)
    requires q != []
    ensures var k := Pick(q, pid);
            && (forall j :: 0 <= j < k ==> q[j] != pid)
            && (pid in q <==> q[k] == pid)
            && (pid !in q ==> k == |q| - 1)
  {
    if q[0] != pid && |q| > 1 {
      PickFirstMatchElseLast(q[1..], pid);
      assert forall j :: 0 < j < |q| ==> q[j] == q[1..][j - 1];
    }
  }

  /** The caller of krecv when it has the message of `w`: that off its queue and in its page, all else as it was. */
  function Got(s: State, u: Pid, w: Pid): Proc
    requires w in s.procs[u].waiting
  {
    var p, q := s.procs[u], s.procs[u].waiting;
    p.(waiting := Without(q, IndexOf(q, w)), page := p.page.(mIn := s.procs[w].page.mOut))
  }

  /**
   What krecv's loop does to the kernel, given that it does not block again: `u` returns with the pid of
   `w`, or, if it is still starting, answers `w` with OK and hands over to it. No other process changes.
   */
  ghost predicate GotMessage(s: State, r: State, u: Pid, w: Pid, starting: bool) {
    && w != u && w in s.procs[u].waiting && s.procs[w].state == Send
    && (forall x: Pid :: x != u && x != w ==> r.procs[x] == s.procs[x])
    && if starting then
         && r.up == Some(w) && r.procs[u] == Got(s, u, w).(state := Ready, resume := AfterKreply)
         && r.procs[w] == s.procs[w].(state := OnCpu,
                                      page := s.procs[w].page.(mIn := s.procs[u].page.mOut, mRet := OK))
       else
         && r.up == Some(u) && r.procs[u] == Got(s, u, w).(state := OnCpu, resume := User, r0 := w)
         && r.procs[w] == s.procs[w].(state := Reply)
  }

  lemma PickedIndex(s: State, u: Pid, pid: int)
    requires Inv(s) && s.procs[u].waiting != []
    ensures var q := s.procs[u].waiting; IndexOf(q, q[Pick(q, pid)]) == Pick(q, pid)
  {
    var q := s.procs[u].waiting;
    assert NoDup(q) && q[Pick(q, pid)] in q;
  }

  /** The message copy of krecv: the caller has it, its sender awaits the reply, and nobody else is touched. */
  lemma TakenIs(s: State, u: Pid, pid: int, w: Pid)
    requires Inv(s) && s.up == Some(u) && s.procs[u].waiting != []
    requires w == s.procs[u].waiting[Pick(s.procs[u].waiting, pid)]
    ensures var t := Taken(s, pid);
            && t.up == Some(u) && w != u && s.procs[w].state == Send && MayReply(t, w)
            && t.procs[u] == Got(s, u, w) && t.procs[u].state == OnCpu
            && t.procs[w] == s.procs[w].(state := Reply)
            && forall x: Pid :: x != u && x != w ==> t.procs[x] == s.procs[x]
  {
    PickedSender(s, u, pid);
    CpuIsRunning(s, u);
    PickedIndex(s, u, pid);
    hide Inv, QueueInv, Pick, Without, IndexOf;
  }

  lemma KrecvGetsMessage(s: State, u: Pid, pid: int, starting: bool) returns (w: Pid)
    requires Inv(s) && s.up == Some(u) && s.procs[u].waiting != []
    ensures GotMessage(s, Krecv(s, pid, starting).s, u, w, starting)
    ensures var q := s.procs[u].waiting; w == if pid in q then pid else q[|q| - 1]
  {
    hide Inv, QueueInv, Pick, Without, Taken, MayReply, IndexOf;
    var q := s.procs[u].waiting;
    PickFirstMatchElseLast(q, pid);
    w := q[Pick(q, pid)];
    TakenIs(s, u, pid, w);
  }

  lemma CpuIsRunning(s: State, u: Pid)
    requires Inv(s) && s.up == Some(u)
    ensures s.procs[u].state == OnCpu
  {
  }

  /** A receiver that is switched to again goes round krecv's loop. */
  lemma ResumesInKrecv(s: State, u: Pid)
    requires s.up == Some(u) && (s.procs[u].resume.RecvLoop? || s.procs[u].resume.ReplyRecvParked?)
    ensures Enabled(s, Continue)
    ensures var p := s.procs[u].resume; Next(s, Continue) == Krecv(s, p.pid, p.RecvLoop? && p.starting)
  {
    hide Krecv;
  }

  /** A receiver that is switched to again finds a message, so krecv blocks at most once a call. */
  lemma ReceiverBlocksOnce(steps: seq<Step>, u: Pid) returns (w: Pid)
    requires Legal(Booted(), steps)
    requires Final(Booted(), steps).up == Some(u)
    requires Final(Booted(), steps).procs[u].resume.RecvLoop? ||
             Final(Booted(), steps).procs[u].resume.ReplyRecvParked?
    ensures GotMessage(Final(Booted(), steps), Next(Final(Booted(), steps), Continue).s, u, w,
                       Final(Booted(), steps).procs[u].resume.RecvLoop? &&
                       Final(Booted(), steps).procs[u].resume.starting)
  {
    BootInv();
    RunKeepsInv(Booted(), steps);
    var s := Final(Booted(), steps);
    assert WakeInv(s.procs[u]) && s.procs[u].state == OnCpu;
    hide Inv, Krecv, Next, Final, Booted, Legal, GotMessage;
    ResumesInKrecv(s, u);
    w := KrecvGetsMessage(s, u, s.procs[u].resume.pid,
                          s.procs[u].resume.RecvLoop? && s.procs[u].resume.starting);
  }

  // ------------------------------------------------------------------ direct hand-over

  /** A receiver blocked in krecv's own loop is switched to at once and gets the message, from whomever it asked for. */
  lemma SendHandsOver(s: State, p: Pid)
    requires Inv(s) && InUser(s) && s.procs[p].state == Recv && s.procs[p].resume.RecvLoop?
    requires s.used < MAX_PROC_LISTS
    ensures var u := s.up.value;
            var s1 := Next(s, DoSend(p)).s;
            && s1.up == Some(p) && s1.procs[u].state == Send && Enabled(s1, Continue)
            && GotMessage(s1, Next(s1, Continue).s, p, u, s.procs[p].resume.starting)
            && s1.procs[u].page.mOut == s.procs[u].page.mOut
  {
    var u := s.up.value;
    var s1 := Next(s, DoSend(p)).s;
    StepKeepsInv(s, DoSend(p));
    SendSwitches(s, p);
    hide Inv, Next, Ksend, Krecv, GotMessage;
    ResumesInKrecv(s1, p);
    var w := KrecvGetsMessage(s1, p, s1.procs[p].resume.pid, s1.procs[p].resume.starting);
    assert w == u by {
      OnlyInQueue(s1, p, u, w);
    }
  }

  lemma SendSwitches(s: State, p: Pid)
    requires Inv(s) && InUser(s) && s.procs[p].state == Recv && s.procs[p].resume.RecvLoop?
    requires s.used < MAX_PROC_LISTS
    ensures var u := s.up.value;
            var s1 := Next(s, DoSend(p)).s;
            && s1.up == Some(p) && s1.procs[u].state == Send && s1.procs[u].page == s.procs[u].page
            && s1.procs[p].waiting == [u] && s1.procs[p].resume == s.procs[p].resume
  {
    assert WakeInv(s.procs[p]) && s.procs[s.up.value].state == OnCpu;
  }

  lemma OnlyInQueue(s1: State, p: Pid, u: Pid, w: Pid)
    requires s1.procs[p].waiting == [u] && w in s1.procs[p].waiting
    ensures w == u
  {
  }

  // ------------------------------------------------------------------ the node pool

  /** Pool nodes in use are as many as blocked senders, so in every run ksend finds a free one. */
  lemma PoolNeverExhausted(steps: seq<Step>)
    requires Legal(Booted(), steps)
    ensures var s := Final(Booted(), steps);
            s.used == |Senders(s.procs)| && s.used <= MAX_PROCS < MAX_PROC_LISTS
  {
    BootInv();
    RunKeepsInv(Booted(), steps);
    BoundedSet(Senders(Final(Booted(), steps).procs), MAX_PROCS);
  }

  // ------------------------------------------------------------------ deadlock

  predicate Stalled(p: Proc) {
    p.state in {Send, Reply} && p.waitingOn.Some?
  }

  /** Processes each waiting on the next, round in a circle. */
  ghost predicate Cycle(t: Table, c: seq<Pid>) {
    && c != []
    && NoDup(c)
    && (forall i :: 0 <= i < |c| ==> Stalled(t[c[i]]))
    && (forall i :: 0 <= i < |c| - 1 ==> t[c[i]].waitingOn == Some(c[i + 1]))
    && t[c[|c| - 1]].waitingOn == Some(c[0])
  }

  /** `q` has been received by a server that now itself waits for a message. */
  ghost predicate HeldByReceiver(t: Table, q: Pid) {
    t[q].state == Reply && t[q].waitingOn.Some? && t[t[q].waitingOn.value].state == Recv
  }

  /** `q` is queued at a server that kreply_recv parked without looking at its queue. */
  ghost predicate QueuedAtParked(t: Table, q: Pid) {
    && t[q].state == Send && t[q].waitingOn.Some?
    && t[t[q].waitingOn.value].state == Recv && t[t[q].waitingOn.value].resume.ReplyRecvParked?
    && q in t[t[q].waitingOn.value].waiting
  }

  ghost predicate Culprit(t: Table) {
    || (exists c :: Cycle(t, c))
    || (exists q: Pid :: HeldByReceiver(t, q))
    || (exists q: Pid :: QueuedAtParked(t, q))
  }

  ghost predicate WaitPath(t: Table, path: seq<Pid>) {
    && path != []
    && NoDup(path)
    && (forall i :: 0 <= i < |path| ==> Stalled(t[path[i]]))
    && (forall i :: 0 <= i < |path| - 1 ==> t[path[i]].waitingOn == Some(path[i + 1]))
  }

  /** When nothing runs, a blocked process waits on a culprit or on another blocked process. */
  lemma WaitsOnBlocked(s: State, last: Pid)
    requires Inv(s) && s.up.None? && Stalled(s.procs[last])
    ensures var next := s.procs[last].waitingOn.value;
            || HeldByReceiver(s.procs, last) || QueuedAtParked(s.procs, last)
            || Stalled(s.procs[next])
  {
    var next := s.procs[last].waitingOn.value;
    assert PointInv(s.procs[next]) && WakeInv(s.procs[next]);
    assert s.procs[next].state in {Send, Reply, Recv};
  }

  /** Following waiting_on from a blocked process ends at a culprit, since there are finitely many processes. */
  lemma {:induction false} FollowWaiting(s: State, path: seq<Pid>)
    requires Inv(s) && s.up.None? && WaitPath(s.procs, path)
    ensures Culprit(s.procs)
    decreases MAX_PROCS - |path|
  {
    hide Inv, HeldByReceiver, QueuedAtParked;
    var last := path[|path| - 1];
    WaitsOnBlocked(s, last);
    var next := s.procs[last].waitingOn.value;
    if HeldByReceiver(s.procs, last) || QueuedAtParked(s.procs, last) {
    } else if next in path {
      var i := IndexOf(path, next);
      assert Cycle(s.procs, path[i..]);
    } else {
      var longer: seq<nat> := path + [next];
      PigeonHole(longer, MAX_PROCS);
      FollowWaiting(s, path + [next]);
    }
  }

  lemma SenderHasCulprit(s: State, q: Pid)
    requires Inv(s) && s.up.None? && s.procs[q].state == Send
    ensures Culprit(s.procs)
  {
    assert PointInv(s.procs[q]);
    hide Inv, Culprit, PointInv, WakeInv;
    FollowWaiting(s, [q]);
  }

  /**
   If in any run the scheduler finds nothing to run while some process is blocked sending, then
   processes wait in a circle, or one was received by a server that is itself receiving, or one is
   queued at a server that kreply_recv parked.
   */
  lemma DeadlockHasCulprit(steps: seq<Step>, q: Pid)
    requires Legal(Booted(), steps)
    requires Final(Booted(), steps).up.None? && Final(Booted(), steps).procs[q].state == Send
    ensures Culprit(Final(Booted(), steps).procs)
  {
    BootInv();
    RunKeepsInv(Booted(), steps);
    hide Final, Booted, Legal, Inv, Culprit;
    SenderHasCulprit(Final(Booted(), steps), q);
  }

  ghost predicate NoneParked(t: Table) {
    forall q: Pid :: !t[q].resume.ReplyRecvParked?
  }

  lemma ScheduleParksNobody(s: State, n: Option<Pid>)
    requires NoneParked(s.procs)
    ensures NoneParked(Schedule(s, n).s.procs)
  {
    assert forall q: Pid :: Schedule(s, n).s.procs[q].resume == s.procs[q].resume;
  }

  lemma KrecvParksNobody(s: State, pid: int, starting: bool)
    requires NoneParked(s.procs) && s.up.Some?
    ensures NoneParked(Krecv(s, pid, starting).s.procs)
  {
    var u := s.up.value;
    if s.procs[u].waiting == [] {
      ScheduleParksNobody(Put(s, u, s.procs[u].(state := Recv, resume := RecvLoop(pid, starting))), None);
    } else {
      KreplyParksNobody(Taken(s, pid), s.procs[u].waiting[Pick(s.procs[u].waiting, pid)], OK);
    }
  }

  lemma KreplyParksNobody(s: State, p: Pid, ret: int)
    requires NoneParked(s.procs) && s.up.Some?
    ensures NoneParked(Kreply(s, p, ret).s.procs)
  {
    if MayReply(s, p) {
      ScheduleParksNobody(Answered(s, p, ret, s.procs[s.up.value].state, AfterKreply), Some(p));
    }
  }

  lemma StepParksNobody(s: State, step: Step)
    requires NoneParked(s.procs) && Enabled(s, step) && !step.DoReplyRecv?
    ensures NoneParked(Next(s, step).s.procs)
  {
    match step
    case Tick => ScheduleParksNobody(s, None);
    case Continue =>
      match s.procs[s.up.value].resume {
        case Start => KrecvParksNobody(s, PID_ALL, true);
        case RecvLoop(pid, starting) => KrecvParksNobody(s, pid, starting);
        case _ =>
      }
    case DoSend(p) =>
      var s1 := Enqueued(s, p);
      assert NoneParked(s1.procs);
      ScheduleParksNobody(s1, if s1.procs[p].state == Recv then Some(p) else None);
    case DoRecv(pid) => KrecvParksNobody(s, pid, false);
    case DoReply(p, ret) => KreplyParksNobody(s, p, ret);
    case _ =>
  }

  lemma {:induction false} RunParksNobody(s: State, steps: seq<Step>)
    requires Legal(s, steps) && NoneParked(s.procs)
    requires forall i :: 0 <= i < |steps| ==> !steps[i].DoReplyRecv?
    ensures NoneParked(Final(s, steps).procs)
    decreases |steps|
  {
    if steps != [] {
      StepParksNobody(s, steps[0]);
      RunParksNobody(Next(s, steps[0]).s, steps[1..]);
    }
  }

  lemma BootParksNobody()
    ensures NoneParked(Booted().procs)
  {
  }

  /** Without kreply_recv only the first two explanations remain. */
  lemma DeadlockWithoutReplyRecv(steps: seq<Step>, q: Pid)
    requires Legal(Booted(), steps)
    requires forall i :: 0 <= i < |steps| ==> !steps[i].DoReplyRecv?
    requires Final(Booted(), steps).up.None? && Final(Booted(), steps).procs[q].state == Send
    ensures var t := Final(Booted(), steps).procs;
            (exists c :: Cycle(t, c)) || (exists x: Pid :: HeldByReceiver(t, x))
  {
    DeadlockHasCulprit(steps, q);
    BootParksNobody();
    RunParksNobody(Booted(), steps);
  }

  /** Once nothing runs, nothing ever runs again: later ticks change no state at all. */
  lemma {:induction false} StuckForever(s: State, steps: seq<Step>)
    requires Inv(s) && s.up.None? && Legal(s, steps)
    ensures Final(s, steps) == s
    decreases |steps|
  {
    if steps != [] {
      var v := ScheduleSwitches(s, None);
      assert Next(s, steps[0]).s == s;
      StuckForever(s, steps[1..]);
    }
  }
}
