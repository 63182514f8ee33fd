/**
 Two ways to wait for ever. krecv for any sender takes the last node of the queue, so a sender at the
 front is passed over as long as others queue up behind it. And a reply hands the CPU over directly, so
 a ready process never runs while two others keep replying and sending to each other. Both are runs in
 which process 0 serves process 2 round after round, and process 1 is queued in front, or ready.
 */
module Starvation {
  import opened Common
  import opened Ipc
  import opened Fairness
  import opened Rendezvous
  import opened LostWakeup

  /** Process 1, which waits: queued at process 0, or ready. */
  function Other(queued: bool): Brief {
    if queued then Brief(Send, Some(0), [], InKsend) else Brief(Ready, None, [], User)
  }

  /** Who is queued at process 0 before process 2. */
  function Front(queued: bool): seq<Pid> {
    if queued then [1] else []
  }

  /** How many messages process `p` has received. */
  function Receipts(log: seq<Event>, p: Pid): nat {
    if log == [] then 0
    else Receipts(log[..|log| - 1], p) + if log[|log| - 1].Received? && log[|log| - 1].who == p then 1 else 0
  }

  lemma ReceiptsMore(log: seq<Event>, e: Event, p: Pid)
    ensures Receipts(log + [e], p) == Receipts(log, p) + if e.Received? && e.who == p then 1 else 0
  {
    assert (log + [e])[..|log|] == log;
  }

  /** The states of one round. */
  ghost predicate Round(s: State, queued: bool, i: nat) {
    match i
    case 0 => Three(s, Some(0), Brief(OnCpu, Some(2), Front(queued) + [2], User), Other(queued),
                    Brief(Send, Some(0), [], InKsend))
    case 1 => Three(s, Some(0), Brief(OnCpu, Some(2), Front(queued), User), Other(queued),
                    Brief(Reply, Some(0), [], InKsend))
    case 2 => Three(s, Some(2), Brief(Ready, Some(2), Front(queued), AfterKreply), Other(queued),
                    Brief(OnCpu, Some(0), [], InKsend))
    case 3 => Three(s, Some(2), Brief(Ready, Some(2), Front(queued), AfterKreply), Other(queued),
                    Brief(OnCpu, Some(0), [], User))
    case 4 => Three(s, Some(0), Brief(OnCpu, Some(2), Front(queued) + [2], AfterKreply), Other(queued),
                    Brief(Send, Some(0), [], InKsend))
    case 5 => Round(s, queued, 0)
    case _ => false
  }

  function RoundStep(i: nat): Step {
    match i
    case 0 => DoRecv(PID_ALL)
    case 1 => DoReply(2, OK)
    case 2 => Continue
    case 3 => DoSend(0)
    case _ => Continue
  }

  /** What a round's step may add to the record: nothing of process 1, and a receipt by 0 only at the start. */
  ghost predicate Records(s: State, r: State, received: bool) {
    || (r.log == s.log && !received)
    || (|r.log| == |s.log| + 1 && r.log[..|s.log|] == s.log && Client(r.log[|s.log|]) == 2
        && (received <==> r.log[|s.log|].Received?) && (received ==> r.log[|s.log|].who == 0))
  }

  /** Step `i` of a round leads to the next state of the round. It calls schedule(nil) iff it is the send. */
  ghost predicate GoesOn(s: State, queued: bool, i: nat) {
    && Enabled(s, RoundStep(i))
    && var n := Next(s, RoundStep(i));
       Round(n.s, queued, i + 1) && Records(s, n.s, i == 0) && (n.call.ScheduleNil? <==> i == 3)
  }

  /** A receipt, up to its return to user mode. */
  lemma TakenLast(s: State, queued: bool)
    requires Round(s, queued, 0)
    ensures InUser(s) && s.procs[s.up.value].waiting != []
    ensures Three(Taken(s, PID_ALL), Some(0), Brief(OnCpu, Some(2), Front(queued), User), Other(queued),
                  Brief(Reply, Some(0), [], InKsend))
    ensures Records(s, Taken(s, PID_ALL), true)
  {
    assert BriefOf(s.procs[0]).waiting == Front(queued) + [2];
    assert Pick(Front(queued) + [2], PID_ALL) == |Front(queued)|;
    assert Without(Front(queued) + [2], |Front(queued)|) == Front(queued);
  }

  lemma RecvTakes(s: State, pid: int)
    requires InUser(s) && s.procs[s.up.value].waiting != []
    ensures var q := s.procs[s.up.value].waiting;
            Next(s, DoRecv(pid)) == Return(Taken(s, pid), q[Pick(q, pid)])
  {
    hide Taken, Return;
  }

  lemma ReturnStays(s: State, v: int, a: Brief, b: Brief, c: Brief)
    requires Three(s, Some(0), a, b, c) && a.resume == User
    ensures Three(Return(s, v).s, Some(0), a, b, c)
    ensures Return(s, v).s.log == s.log && !Return(s, v).call.ScheduleNil?
  {
  }

  lemma Round1(s: State, queued: bool)
    requires Round(s, queued, 0)
    ensures GoesOn(s, queued, 0)
  {
    TakenLast(s, queued);
    hide Taken, Next, Three, Return;
    RecvTakes(s, PID_ALL);
    var q := s.procs[s.up.value].waiting;
    ReturnStays(Taken(s, PID_ALL), q[Pick(q, PID_ALL)], Brief(OnCpu, Some(2), Front(queued), User), Other(queued),
                Brief(Reply, Some(0), [], InKsend));
  }

  lemma Round2(s: State, queued: bool)
    requires Round(s, queued, 1)
    ensures GoesOn(s, queued, 1)
  {
  }

  lemma Round3(s: State, queued: bool)
    requires Round(s, queued, 2)
    ensures GoesOn(s, queued, 2)
  {
  }

  lemma QueuedAgain(s: State, queued: bool)
    requires Round(s, queued, 3)
    ensures InUser(s) && s.up == Some(2) && s.used < MAX_PROC_LISTS && s.procs[0].state !in {Dead, Recv}
    ensures Three(Enqueued(s, 0), Some(2), Brief(Ready, Some(2), Front(queued) + [2], AfterKreply), Other(queued),
                  Brief(Send, Some(0), [], InKsend))
    ensures Records(s, Enqueued(s, 0), false)
  {
  }

  lemma NilSchedule(s: State)
    ensures Schedule(s, None).s.log == s.log && Schedule(s, None).call.ScheduleNil?
  {
  }

  lemma Round4(s: State, queued: bool)
    requires Round(s, queued, 3)
    ensures GoesOn(s, queued, 3)
  {
    hide Enqueued, Schedule, Next;
    QueuedAgain(s, queued);
    SendBlocks(s, 0);
    NilSchedule(Enqueued(s, 0));
    Blocked3(Enqueued(s, 0), 2, Brief(Ready, Some(2), Front(queued) + [2], AfterKreply), Other(queued),
             Brief(Send, Some(0), [], InKsend), 0);
    hide Three;
  }

  lemma Round5(s: State, queued: bool)
    requires Round(s, queued, 4)
    ensures GoesOn(s, queued, 4)
  {
  }

  lemma RoundGoesOn(s: State, queued: bool, i: nat)
    requires i < 5 && Round(s, queued, i)
    ensures GoesOn(s, queued, i) && s.up != Some(1)
  {
    match i
    case 0 => Round1(s, queued);
    case 1 => Round2(s, queued);
    case 2 => Round3(s, queued);
    case 3 => Round4(s, queued);
    case 4 => Round5(s, queued);
  }

  /** From `s` to `r` process 0 received `n` messages, and nothing happened to process 1's. */
  ghost predicate PassedOver(s: State, r: State, n: nat) {
    s.log <= r.log && Receipts(r.log, 0) == Receipts(s.log, 0) + n && Silent(1, r.log, |s.log|, |r.log|)
  }

  lemma PassedOverMore(s: State, r: State, t: State, n: nat, received: bool)
    requires PassedOver(s, r, n) && Records(r, t, received)
    ensures PassedOver(s, t, if received then n + 1 else n)
  {
    if t.log != r.log {
      assert t.log == r.log + [t.log[|r.log|]];
      ReceiptsMore(r.log, t.log[|r.log|], 0);
    }
  }

  /** A run that creates nothing, calls schedule(nil) `n` times, and gives process 1 no CPU. */
  ghost predicate Waited(s: State, steps: seq<Step>, n: nat)
    requires Legal(s, steps)
  {
    NilCalls(s, steps) == n && !GetsCpu(s, steps, 1) && forall i :: 0 <= i < |steps| ==> !steps[i].DoCreate?
  }

  lemma {:induction false} OneMoreCall(s: State, steps: seq<Step>, step: Step)
    requires Legal(s, steps) && Legal(s, steps + [step]) && Enabled(Final(s, steps), step)
    ensures var n := Next(Final(s, steps), step);
            && NilCalls(s, steps + [step]) == NilCalls(s, steps) + (if n.call.ScheduleNil? then 1 else 0)
            && (GetsCpu(s, steps + [step], 1) <==> GetsCpu(s, steps, 1) || n.s.up == Some(1))
    decreases |steps|
  {
    if steps == [] {
      assert steps + [step] == [step];
    } else {
      assert (steps + [step])[1..] == steps[1..] + [step];
      hide Next, Enabled;
      OneMoreCall(Next(s, steps[0]).s, steps[1..], step);
    }
  }

  /** `i` steps of a round, after a run `before` from `s` of `n` rounds. */
  lemma {:induction false} PartOfRound(s: State, queued: bool, before: seq<Step>, n: nat, i: nat)
    returns (steps: seq<Step>)
    requires i <= 5 && Legal(s, before) && Round(Final(s, before), queued, 0)
    requires PassedOver(s, Final(s, before), n) && Waited(s, before, n)
    ensures Legal(s, steps) && Round(Final(s, steps), queued, i)
    ensures PassedOver(s, Final(s, steps), if i == 0 then n else n + 1) && Waited(s, steps, if i < 4 then n else n + 1)
  {
    hide Final, Legal, Next, Enabled, Round, PassedOver, Records, NilCalls, GetsCpu;
    if i == 0 {
      steps := before;
    } else {
      var step := RoundStep(i - 1);
      steps := PartOfRound(s, queued, before, n, i - 1);
      var r := Final(s, steps);
      RoundGoesOn(r, queued, i - 1);
      OneMore(s, steps, step);
      OneMoreCall(s, steps, step);
      PassedOverMore(s, r, Next(r, step).s, if i == 1 then n else n + 1, i == 1);
      NotOnCpu(Next(r, step).s, queued, i);
      steps := steps + [step];
    }
  }

  lemma NotOnCpu(s: State, queued: bool, i: nat)
    requires i <= 5 && Round(s, queued, i)
    ensures s.up != Some(1)
  {
  }

  lemma {:induction false} Rounds(s: State, queued: bool, n: nat) returns (steps: seq<Step>)
    requires Round(s, queued, 0)
    ensures Legal(s, steps) && Round(Final(s, steps), queued, 0)
    ensures PassedOver(s, Final(s, steps), n) && Waited(s, steps, n)
  {
    if n == 0 {
      steps := [];
    } else {
      steps := Rounds(s, queued, n - 1);
      hide Final, Legal, PassedOver, Waited;
      steps := PartOfRound(s, queued, steps, n - 1, 5);
    }
  }

  // ------------------------------------------------------------------ getting there

  ghost predicate Approach(s: State, queued: bool, i: nat) {
    match i
    case 0 => Stage(s, 8)
    case 1 => Three(s, Some(1), Brief(Ready, Some(2), [], User), Brief(OnCpu, None, [], User),
                    Brief(Ready, None, [], AfterKreply))
    case 2 => Three(s, Some(2), Brief(Ready, Some(2), Front(queued), User), Other(queued),
                    Brief(OnCpu, None, [], AfterKreply))
    case 3 => Three(s, Some(2), Brief(Ready, Some(2), Front(queued), User), Other(queued),
                    Brief(OnCpu, None, [], User))
    case 4 => Round(s, queued, 0)
    case _ => false
  }

  function ApproachStep(queued: bool, i: nat): Step {
    match i
    case 0 => Tick
    case 1 => if queued then DoSend(0) else Tick
    case 2 => Continue
    case _ => DoSend(0)
  }

  ghost predicate ComesNearer(s: State, queued: bool, i: nat) {
    Enabled(s, ApproachStep(queued, i)) && Approach(Next(s, ApproachStep(queued, i)).s, queued, i + 1)
  }

  lemma Approach1(s: State, queued: bool)
    requires Approach(s, queued, 0)
    ensures ComesNearer(s, queued, 0)
  {
    hide NextProc, Schedule;
    ScheduleOfThree(s);
  }

  lemma FirstQueues(s: State)
    requires Approach(s, true, 1)
    ensures InUser(s) && s.used < MAX_PROC_LISTS && s.procs[0].state !in {Dead, Recv}
    ensures Three(Enqueued(s, 0), Some(1), Brief(Ready, Some(2), [1], User), Brief(Send, Some(0), [], InKsend),
                  Brief(Ready, None, [], AfterKreply))
  {
  }

  lemma Approach2(s: State)
    requires Approach(s, true, 1)
    ensures ComesNearer(s, true, 1)
  {
    hide Enqueued, Schedule, Next;
    FirstQueues(s);
    SendBlocks(s, 0);
    Blocked3(Enqueued(s, 0), 1, Brief(Ready, Some(2), [1], User), Brief(Send, Some(0), [], InKsend),
             Brief(Ready, None, [], AfterKreply), 2);
    hide Three;
  }

  lemma Interrupted(s: State)
    requires Approach(s, false, 1)
    ensures ComesNearer(s, false, 1)
  {
    hide NextProc, Schedule;
    ScheduleOfThree(s);
  }

  lemma Approach3(s: State, queued: bool)
    requires Approach(s, queued, 2)
    ensures ComesNearer(s, queued, 2)
  {
  }

  lemma SecondQueues(s: State, queued: bool)
    requires Approach(s, queued, 3)
    ensures InUser(s) && s.used < MAX_PROC_LISTS && s.procs[0].state !in {Dead, Recv}
    ensures Three(Enqueued(s, 0), Some(2), Brief(Ready, Some(2), Front(queued) + [2], User), Other(queued),
                  Brief(Send, Some(0), [], InKsend))
  {
  }

  lemma Approach4(s: State, queued: bool)
    requires Approach(s, queued, 3)
    ensures ComesNearer(s, queued, 3)
  {
    hide Enqueued, Schedule, Next;
    SecondQueues(s, queued);
    SendBlocks(s, 0);
    Blocked3(Enqueued(s, 0), 2, Brief(Ready, Some(2), Front(queued) + [2], User), Other(queued),
             Brief(Send, Some(0), [], InKsend), 0);
    hide Three;
  }

  lemma {:induction false} ApproachTo(queued: bool, i: nat) returns (steps: seq<Step>)
    requires i <= 4
    ensures Legal(Booted(), steps) && Approach(Final(Booted(), steps), queued, i)
  {
    hide Final, Booted, Legal, Next, Enabled, Stage, Three, ApproachStep;
    if i == 0 {
      steps := RunTo(8);
    } else {
      steps := ApproachTo(queued, i - 1);
      var s := Final(Booted(), steps);
      match i {
        case 1 => Approach1(s, queued);
        case 2 => if queued { Approach2(s); } else { Interrupted(s); }
        case 3 => Approach3(s, queued);
        case 4 => Approach4(s, queued);
      }
      OneMore(Booted(), steps, ApproachStep(queued, i - 1));
      steps := steps + [ApproachStep(queued, i - 1)];
    }
  }

  lemma RunOfRounds(queued: bool, n: nat) returns (before: seq<Step>, after: seq<Step>)
    ensures Legal(Booted(), before) && Legal(Final(Booted(), before), after)
    ensures var s := Final(Booted(), before);
            var r := Final(s, after);
            Round(s, queued, 0) && Round(r, queued, 0) && PassedOver(s, r, n) && Waited(s, after, n)
  {
    hide Final, Booted, Legal, PassedOver, Waited;
    before := ApproachTo(queued, 4);
    after := Rounds(Final(Booted(), before), queued, n);
  }

  /** For every `n` a run in which a queued sender stays queued while its receiver takes `n` later messages. */
  lemma PassedOverAnyNumber(n: nat) returns (before: seq<Step>, after: seq<Step>)
    ensures Legal(Booted(), before) && Legal(Final(Booted(), before), after)
    ensures var s := Final(Booted(), before);
            var r := Final(s, after);
            && s.procs[1].state == Send && 1 in s.procs[0].waiting
            && r.procs[1].state == Send && 1 in r.procs[0].waiting
            && PassedOver(s, r, n)
  {
    hide Final, Booted, Legal, PassedOver, Waited;
    before, after := RunOfRounds(true, n);
    WaitsStill(Final(Booted(), before), true);
    WaitsStill(Final(Final(Booted(), before), after), true);
  }

  /** For every `n` a run that calls schedule(nil) `n` times while a ready process never runs. */
  lemma StarvedByHandOff(n: nat) returns (before: seq<Step>, after: seq<Step>)
    ensures Legal(Booted(), before) && Legal(Final(Booted(), before), after)
    ensures var s := Final(Booted(), before);
            && s.procs[1].state == Ready && Final(s, after).procs[1].state == Ready
            && Waited(s, after, n)
  {
    hide Final, Booted, Legal, PassedOver, Waited;
    before, after := RunOfRounds(false, n);
    WaitsStill(Final(Booted(), before), false);
    WaitsStill(Final(Final(Booted(), before), after), false);
  }

  lemma WaitsStill(s: State, queued: bool)
    requires Round(s, queued, 0)
    ensures if queued then s.procs[1].state == Send && 1 in s.procs[0].waiting else s.procs[1].state == Ready
  {
    assert BriefOf(s.procs[1]).state == Other(queued).state;
    assert BriefOf(s.procs[0]).waiting == Front(queued) + [2];
  }
}
