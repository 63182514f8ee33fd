/** Round-robin order and bounded waiting of the scheduler in kern/proc.c. */
module Fairness {
  import opened Common
  import opened Ipc
  import opened IpcInvariant

  /** How many processes `next_proc` would look at before `r`. */
  function Distance(s: State, r: Pid): nat {
    IndexOf(Rotation(s.alive, s.up), r)
  }

  lemma {:induction false} FirstReadyIsFirst(ps: seq<Pid>, t: Table, k: nat)
    requires k < |ps| && t[ps[k]].state == Ready
    ensures FirstReady(ps, t).Some?
    ensures exists i :: 0 <= i <= k && FirstReady(ps, t) == Some(ps[i]) &&
                        forall j :: 0 <= j < i ==> t[ps[j]].state != Ready
  {
    if t[ps[0]].state == Ready {
      assert FirstReady(ps, t) == Some(ps[0]);
    } else {
      FirstReadyIsFirst(ps[1..], t, k - 1);
      var i :| 0 <= i <= k - 1 && FirstReady(ps[1..], t) == Some(ps[1..][i]) &&
               forall j :: 0 <= j < i ==> t[ps[1..][j]].state != Ready;
      assert ps[1..][i] == ps[i + 1];
      forall j | 0 <= j < i + 1
        ensures t[ps[j]].state != Ready
      {
        assert j > 0 ==> ps[1..][j - 1] == ps[j];
      }
    }
  }

  lemma {:induction false} IndexOfIs(ps: seq<Pid>, k: nat)
    requires k < |ps| && NoDup(ps)
    ensures IndexOf(ps, ps[k]) == k
  {
    assert ps[k] in ps;
  }

  /** next_proc returns the nearest ready process in the rotation after `up`, nil only if none is ready. */
  lemma NextProcIsNearest(s: State, r: Pid)
    requires r in s.alive && s.procs[r].state == Ready
    ensures NextProc(s).Some?
    ensures Distance(s, NextProc(s).value) <= Distance(s, r)
    ensures s.procs[NextProc(s).value].state == Ready
  {
    var ps := Rotation(s.alive, s.up);
    var k := Distance(s, r);
    FirstReadyIsFirst(ps, s.procs, k);
    var i :| 0 <= i <= k && FirstReady(ps, s.procs) == Some(ps[i]) &&
             forall j :: 0 <= j < i ==> s.procs[ps[j]].state != Ready;
  }

  /** How many pids come between the running one and `p`, going up and round; from zero if nobody runs. */
  function Gap(s: State, p: Pid): nat
    requires s.up.Some? ==> s.up.value < |s.alive|
  {
    if s.up.None? then p else if p > s.up.value then p - s.up.value - 1 else p + |s.alive| - s.up.value - 1
  }

  lemma DistanceIsGap(s: State, p: Pid)
    requires AliveInv(s) && p < |s.alive| && (s.up.Some? ==> s.up.value < |s.alive|)
    ensures Distance(s, p) == Gap(s, p)
  {
    AliveNoDup(s);
    RotationNoDup(s.alive, s.up);
    if s.up.Some? {
      assert s.alive[s.up.value] == s.up.value;
      RotationAt(s.alive, s.up.value);
    } else {
      assert Rotation(s.alive, s.up) == s.alive;
    }
    assert Rotation(s.alive, s.up)[Gap(s, p)] == p;
    hide Rotation, NoDup;
    IndexOfIs(Rotation(s.alive, s.up), Gap(s, p));
  }

  /** next_proc answers the ready process whose pid comes next after the running one's, nil iff none is ready. */
  lemma NextPidIsNearest(s: State)
    requires AliveInv(s) && (s.up.Some? ==> s.up.value < |s.alive|)
    ensures NextProc(s).None? <==> forall r: Pid :: s.procs[r].state != Ready
    ensures NextProc(s).Some? ==>
              && s.procs[NextProc(s).value].state == Ready
              && forall r: Pid :: s.procs[r].state == Ready ==> Gap(s, NextProc(s).value) <= Gap(s, r)
  {
    AliveNoDup(s);
    forall r: Pid | s.procs[r].state == Ready
      ensures NextProc(s).Some? && Gap(s, NextProc(s).value) <= Gap(s, r)
    {
      NextProcIsNearest(s, r);
      DistanceIsGap(s, r);
      DistanceIsGap(s, NextProc(s).value);
    }
  }

  lemma RotationNoDup(alive: seq<Pid>, up: Option<Pid>)
    requires NoDup(alive)
    ensures NoDup(Rotation(alive, up)) && |Rotation(alive, up)| == |alive|
  {
  }

  /** Turning `x + y` round by one place beyond `i`, inside either part. */
  lemma TurnedSplit(x: seq<Pid>, y: seq<Pid>, i: nat) returns (b: nat)
    requires i < |x| + |y|
    ensures b < |x + y| && (x + y)[b] == (y + x)[i]
    ensures (x + y)[b + 1..] + (x + y)[..b + 1] == (y + x)[i + 1..] + (y + x)[..i + 1]
  {
    var ps, alive := y + x, x + y;
    b := if i < |y| then |x| + i else i - |y|;
    if i < |y| {
      assert ps[i + 1..] == y[i + 1..] + x && ps[..i + 1] == y[..i + 1];
      assert alive[|x| + i + 1..] == y[i + 1..] && alive[..|x| + i + 1] == x + y[..i + 1];
    } else {
      var j := i - |y|;
      assert ps[i + 1..] == x[j + 1..] && ps[..i + 1] == y + x[..j + 1];
      assert alive[j + 1..] == x[j + 1..] + y && alive[..j + 1] == x[..j + 1];
    }
  }

  /** Switching to the element at `i` of a rotation turns the rotation by `i + 1`. */
  lemma RotationTurns(alive: seq<Pid>, up: Option<Pid>, i: nat)
    requires NoDup(alive) && i < |alive|
    requires |Rotation(alive, up)| == |alive|
    ensures var ps := Rotation(alive, up);
            Rotation(alive, Some(ps[i])) == ps[i + 1..] + ps[..i + 1]
  {
    if up.None? || up.value !in alive {
      RotationAt(alive, i);
    } else {
      var a := IndexOf(alive, up.value);
      assert Rotation(alive, up) == alive[a + 1..] + alive[..a + 1];
      hide Rotation, NoDup;
      assert alive == alive[..a + 1] + alive[a + 1..];
      var b := TurnedSplit(alive[..a + 1], alive[a + 1..], i);
      RotationAt(alive, b);
    }
  }

  lemma RotationAt(alive: seq<Pid>, b: nat)
    requires NoDup(alive) && b < |alive|
    ensures Rotation(alive, Some(alive[b])) == alive[b + 1..] + alive[..b + 1]
  {
    IndexOfIs(alive, b);
  }

  lemma AliveNoDup(s: State)
    requires AliveInv(s)
    ensures NoDup(s.alive)
    ensures forall q: Pid :: s.procs[q].state != Dead ==> q in s.alive
  {
    forall q: Pid | s.procs[q].state != Dead
      ensures q in s.alive
    {
      assert s.alive[q] == q;
    }
  }

  lemma TurnedIndex(ps: seq<Pid>, i: nat, d: nat)
    requires NoDup(ps) && i < d < |ps|
    ensures IndexOf(ps[i + 1..] + ps[..i + 1], ps[d]) == d - i - 1
  {
    var turned := ps[i + 1..] + ps[..i + 1];
    assert turned[d - i - 1] == ps[d];
    IndexOfIs(turned, d - i - 1);
  }

  /** Being switched to from within the rotation, v leaves r strictly nearer. */
  lemma TurnApproaches(alive: seq<Pid>, up: Option<Pid>, v: Pid, r: Pid)
    requires NoDup(alive) && v in alive && r in alive && v != r
    requires IndexOf(Rotation(alive, up), v) <= IndexOf(Rotation(alive, up), r)
    ensures IndexOf(Rotation(alive, Some(v)), r) < IndexOf(Rotation(alive, up), r)
  {
    var ps := Rotation(alive, up);
    hide Rotation, NoDup;
    RotationNoDup(alive, up);
    var i, d := IndexOf(ps, v), IndexOf(ps, r);
    assert i < d;
    RotationTurns(alive, up, i);
    TurnedIndex(ps, i, d);
  }

  /** schedule(nil) either picks the ready process r or brings it strictly nearer. */
  lemma NilScheduleApproaches(s: State, r: Pid)
    requires AliveInv(s) && s.procs[r].state == Ready && s.up != Some(r)
    ensures var s' := Schedule(s, None).s;
            s'.up == Some(r) || (s'.procs[r].state == Ready && Distance(s', r) < Distance(s, r))
  {
    var s1 := Preempt(s);
    AliveNoDup(s);
    assert s1.procs[r].state == Ready;
    NextProcIsNearest(s1, r);
    var v := NextProc(s1).value;
    if v != r {
      TurnApproaches(s.alive, s.up, v, r);
    }
  }

  /** A run that creates no process and hands the CPU to nobody directly. */
  ghost predicate Quiet(s: State, steps: seq<Step>)
    requires Legal(s, steps)
    decreases |steps|
  {
    steps == [] ||
    (!steps[0].DoCreate? && !Next(s, steps[0]).call.ScheduleTo? && Quiet(Next(s, steps[0]).s, steps[1..]))
  }

  /** The number of calls of schedule(nil) a run makes. */
  function NilCalls(s: State, steps: seq<Step>): nat
    requires Legal(s, steps)
    decreases |steps|
  {
    if steps == [] then 0
    else (if Next(s, steps[0]).call.ScheduleNil? then 1 else 0) + NilCalls(Next(s, steps[0]).s, steps[1..])
  }

  /** `r` is on the CPU somewhere along the run. */
  ghost predicate GetsCpu(s: State, steps: seq<Step>, r: Pid)
    requires Legal(s, steps)
    decreases |steps|
  {
    s.up == Some(r) || (steps != [] && GetsCpu(Next(s, steps[0]).s, steps[1..], r))
  }

  /** A quiet step keeps r ready and no farther, and a nil schedule brings it nearer. */
  lemma QuietStep(s: State, step: Step, r: Pid)
    requires Inv(s) && Enabled(s, step) && s.procs[r].state == Ready
    requires !step.DoCreate? && !Next(s, step).call.ScheduleTo?
    ensures var n := Next(s, step);
            n.s.up == Some(r) ||
            (n.s.procs[r].state == Ready && |n.s.alive| == |s.alive| &&
             Distance(n.s, r) + (if n.call.ScheduleNil? then 1 else 0) <= Distance(s, r))
  {
    assert s.up != Some(r);
    match step
    case Tick => NilScheduleApproaches(s, r);
    case Continue =>
      match s.procs[s.up.value].resume {
        case Start => QuietRecv(s, PID_ALL, true, r);
        case RecvLoop(pid, starting) => QuietRecv(s, pid, starting, r);
        case ReplyRecvParked(pid) => QuietRecv(s, pid, false, r);
        case _ =>
      }
    case DoSend(p) => QuietSend(s, p, r);
    case DoRecv(pid) => QuietRecv(s, pid, false, r);
    case _ =>
  }

  lemma EnqueuedElsewhere(s: State, p: Pid, r: Pid)
    requires Inv(s) && InUser(s) && s.procs[p].state != Dead && s.up != Some(r)
    ensures var e := Enqueued(s, p);
            e.procs[r].state == s.procs[r].state && e.alive == s.alive && e.up == s.up && AliveInv(e)
  {
    var e := Enqueued(s, p);
    assert forall q: Pid :: e.procs[q].state != Dead <==> s.procs[q].state != Dead;
  }

  lemma QuietSend(s: State, p: Pid, r: Pid)
    requires Inv(s) && InUser(s) && s.procs[r].state == Ready && !Ksend(s, p).call.ScheduleTo?
    ensures var n := Ksend(s, p);
            n.s.up == Some(r) ||
            (n.s.procs[r].state == Ready && |n.s.alive| == |s.alive| &&
             Distance(n.s, r) + (if n.call.ScheduleNil? then 1 else 0) <= Distance(s, r))
  {
    if s.procs[p].state != Dead && s.used < MAX_PROC_LISTS {
      EnqueuedElsewhere(s, p, r);
      NilScheduleApproaches(Enqueued(s, p), r);
    }
  }

  lemma QuietRecv(s: State, pid: int, starting: bool, r: Pid)
    requires Inv(s) && s.up.Some? && s.procs[r].state == Ready && !Krecv(s, pid, starting).call.ScheduleTo?
    ensures var n := Krecv(s, pid, starting);
            n.s.up == Some(r) ||
            (n.s.procs[r].state == Ready && |n.s.alive| == |s.alive| &&
             Distance(n.s, r) + (if n.call.ScheduleNil? then 1 else 0) <= Distance(s, r))
  {
    var u := s.up.value;
    if s.procs[u].waiting == [] {
      NilScheduleApproaches(Put(s, u, s.procs[u].(state := Recv, resume := RecvLoop(pid, starting))), r);
    } else {
      PickedSender(s, u, pid);
    }
  }

  lemma {:induction false} QuietRunReaches(s: State, steps: seq<Step>, r: Pid)
    requires Inv(s) && Legal(s, steps) && Quiet(s, steps) && s.procs[r].state == Ready
    requires NilCalls(s, steps) > Distance(s, r)
    ensures GetsCpu(s, steps, r)
    decreases |steps|
  {
    if steps != [] {
      QuietStep(s, steps[0], r);
      StepKeepsInv(s, steps[0]);
      var s' := Next(s, steps[0]).s;
      if s'.up != Some(r) {
        QuietRunReaches(s', steps[1..], r);
      }
    }
  }

  /**
   Bounded waiting: in any stretch without direct hand-off and without process creation, a ready
   process is on the CPU by the time schedule(nil) has been called once per live process.
   */
  lemma BoundedWaiting(before: seq<Step>, steps: seq<Step>, r: Pid)
    requires Legal(Booted(), before)
    requires var s := Final(Booted(), before);
             && Legal(s, steps) && Quiet(s, steps)
             && s.procs[r].state == Ready && NilCalls(s, steps) >= |s.alive|
    ensures GetsCpu(Final(Booted(), before), steps, r)
  {
    var s := Final(Booted(), before);
    BootInv();
    RunKeepsInv(Booted(), before);
    AliveNoDup(s);
    RotationNoDup(s.alive, s.up);
    assert r in Rotation(s.alive, s.up);
    QuietRunReaches(s, steps, r);
  }
}
