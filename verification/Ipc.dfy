/**
 The rendezvous and scheduling machine of kern/sys.c and kern/proc.c, on values.

 A kernel call runs with interrupts masked, so it is atomic up to the point where it calls
 `schedule`. A process switched away from inside a call carries a resume point; when it is
 switched to again it first runs the rest of that call (step `Continue`), and only then user
 code. The linked lists and the node pool behind this state are in module Kernel.
 */
module Ipc {
  import opened Common

  const MAX_PROCS: nat := 512
  const MAX_PROC_LISTS: nat := 2048
  const MESSAGE_LEN: nat := 64
  const PID_ALL: int := -1

  type Pid = p: nat | p < MAX_PROCS

  type Message = m: seq<Byte> | |m| == MESSAGE_LEN witness seq(MESSAGE_LEN, _ => 0)

  function ZeroMessage(): Message { seq(MESSAGE_LEN, _ => 0) }

  datatype PState = Dead | Ready | OnCpu | Send | Reply | Recv

  /** Where a process goes on when it is switched to. */
  datatype Resume =
    | User                                      // user mode: preempted there, or a call has returned
    | Start                                     // a new process, about to run proc_start
    | InKsend                                   // after the schedule() of ksend
    | RecvLoop(pid: int, starting: bool)        // after the schedule() of krecv's loop
    | ReplyRecvParked(pid: int)                 // after the schedule() of kreply_recv
    | AfterKreply                               // after the schedule() of kreply

  datatype Page = Page(mIn: Message, mOut: Message, mRet: int)

  /** `r0` is the register in which the last kernel call left its value. */
  datatype Proc = Proc(state: PState, waitingOn: Option<Pid>, waiting: seq<Pid>,
                       page: Page, resume: Resume, r0: int)

  const ZERO_PROC: Proc := Proc(Dead, None, [], Page(ZeroMessage(), ZeroMessage(), 0), Start, 0)

  type Table = t: seq<Proc> | |t| == MAX_PROCS witness seq(MAX_PROCS, _ => ZERO_PROC)

  /** What the calls did, in order; the rendezvous theorems are about this record. */
  datatype Event =
    | Sent(who: Pid, to: Pid, msg: Message)
    | Received(who: Pid, from: Pid, msg: Message)
    | Replied(who: Pid, to: Pid, ret: int, msg: Message)
    | Returned(who: Pid, ret: int, msg: Message)

  /** `alive` is the process list in creation order, `used` the number of taken pool nodes. */
  datatype State = State(procs: Table, alive: seq<Pid>, up: Option<Pid>, nextpid: nat,
                         used: nat, log: seq<Event>)

  /** Which call of schedule() a step made, if any. */
  datatype Call = NoCall | ScheduleNil | ScheduleTo(target: Pid)

  datatype Outcome = Outcome(s: State, call: Call)

  // ------------------------------------------------------------------ scheduler

  /** The order in which `next_proc` looks at the processes: after `up`, round to `up` itself. */
  function Rotation(alive: seq<Pid>, up: Option<Pid>): (r: seq<Pid>)
    ensures forall q :: q in r <==> q in alive
  {
    if up.None? || up.value !in alive then alive
    else
      var i := IndexOf(alive, up.value);
      alive[i + 1..] + alive[..i + 1]
  }

  function FirstReady(ps: seq<Pid>, t: Table): (r: Option<Pid>)
    ensures r.Some? ==> r.value in ps && t[r.value].state == Ready
    ensures r.None? ==> forall q :: q in ps ==> t[q].state != Ready
  {
    if ps == [] then None
    else if t[ps[0]].state == Ready then Some(ps[0])
    else FirstReady(ps[1..], t)
  }

  function NextProc(s: State): Option<Pid> {
    FirstReady(Rotation(s.alive, s.up), s.procs)
  }

  function Put(s: State, q: Pid, p: Proc): State {
    s.(procs := s.procs[q := p])
  }

  function Preempt(s: State): State {
    if s.up.Some? && s.procs[s.up.value].state == OnCpu
    then Put(s, s.up.value, s.procs[s.up.value].(state := Ready))
    else s
  }

  function SwitchTo(s: State, v: Option<Pid>): State {
    var s1 := s.(up := v);
    if v.Some? then Put(s1, v.value, s1.procs[v.value].(state := OnCpu)) else s1
  }

  function Schedule(s: State, n: Option<Pid>): Outcome {
    var s1 := Preempt(s);
    if n.Some? then Outcome(SwitchTo(s1, n), ScheduleTo(n.value))
    else Outcome(SwitchTo(s1, NextProc(s1)), ScheduleNil)
  }

  // ------------------------------------------------------------------ wait queues

  /** The node `proc_list_remove` takes: the first match, else the last node whatever `pid` is. */
  function Pick(q: seq<Pid>, pid: int): (k: nat)
    requires q != []
    ensures k < |q|
  {
    if q[0] == pid || |q| == 1 then 0 else 1 + Pick(q[1..], pid)
  }

  /** proc_list_add on the wait list of `l`, with a pool node to spare. */
  function Queue(s: State, l: Pid, p: Pid): State {
    Put(s, l, s.procs[l].(waiting := s.procs[l].waiting + [p])).(used := s.used + 1)
  }

  /** proc_list_remove on the wait list of `l`, not empty. */
  function Unqueue(s: State, l: Pid, pid: int): State
    requires s.procs[l].waiting != []
  {
    var q := s.procs[l].waiting;
    Put(s, l, s.procs[l].(waiting := Without(q, Pick(q, pid)))).(used := if s.used == 0 then 0 else s.used - 1)
  }

  // ------------------------------------------------------------------ kernel calls

  /** The running process's call returns `v` to user mode. */
  function Return(s: State, v: int): Outcome
    requires s.up.Some?
  {
    var u := s.up.value;
    Outcome(Put(s, u, s.procs[u].(resume := User, r0 := v)), NoCall)
  }

  /** ksend up to its schedule(): the caller is last on p's queue and blocked in PROC_send. */
  function Enqueued(s: State, p: Pid): State
    requires s.up.Some?
  {
    var u := s.up.value;
    var s2 := Queue(Put(s, u, s.procs[u].(waitingOn := Some(p))), p, u);
    Put(s2, u, s2.procs[u].(state := Send, resume := InKsend))
    .(log := s2.log + [Sent(u, p, s2.procs[u].page.mOut)])
  }

  function Ksend(s: State, p: Pid): Outcome
    requires s.up.Some?
  {
    var u := s.up.value;
    if s.procs[p].state == Dead then Return(s, ERR)
    else if MAX_PROC_LISTS <= s.used then
      Return(Put(s, u, s.procs[u].(waitingOn := Some(p))), ERR)
    else
      var s1 := Enqueued(s, p);
      Schedule(s1, if s1.procs[p].state == Recv then Some(p) else None)
  }

  /** The message copy and hand-over of a reply, common to kreply and kreply_recv. */
  function Answer(s: State, p: Pid, ret: int): State
    requires s.up.Some?
  {
    var m := s.procs[s.up.value].page.mOut;
    Put(s, p, s.procs[p].(page := s.procs[p].page.(mIn := m, mRet := ret)))
    .(log := s.log + [Replied(s.up.value, p, ret, m)])
  }

  predicate MayReply(s: State, p: Pid) {
    s.procs[p].state == Reply && s.procs[p].waitingOn == s.up
  }

  /** The answer given, and the caller's way of going on from the schedule() that follows. */
  function Answered(s: State, p: Pid, ret: int, state: PState, resume: Resume): State
    requires s.up.Some?
  {
    var s1 := Answer(s, p, ret);
    Put(s1, s.up.value, s1.procs[s.up.value].(state := state, resume := resume))
  }

  function Kreply(s: State, p: Pid, ret: int): Outcome
    requires s.up.Some?
  {
    if !MayReply(s, p) then Return(s, ERR)
    else Schedule(Answered(s, p, ret, s.procs[s.up.value].state, AfterKreply), Some(p))
  }

  /** A successful proc_list_remove in krecv: message copied in, sender now awaiting the reply. */
  function Taken(s: State, pid: int): State
    requires s.up.Some? && s.procs[s.up.value].waiting != []
  {
    var u := s.up.value;
    var q := s.procs[u].waiting;
    var w := q[Pick(q, pid)];
    var m := s.procs[w].page.mOut;
    var s1 := Unqueue(s, u, pid);
    var s2 := Put(s1, u, s1.procs[u].(page := s1.procs[u].page.(mIn := m)));
    Put(s2, w, s2.procs[w].(state := Reply)).(log := s2.log + [Received(u, w, m)])
  }

  /** One turn of krecv's loop; `starting` when the caller is proc_start, which replies at once. */
  function Krecv(s: State, pid: int, starting: bool): Outcome
    requires s.up.Some?
  {
    var u := s.up.value;
    var q := s.procs[u].waiting;
    if q == [] then
      Schedule(Put(s, u, s.procs[u].(state := Recv, resume := RecvLoop(pid, starting))), None)
    else
      var w := q[Pick(q, pid)];
      if starting then Kreply(Taken(s, pid), w, OK) else Return(Taken(s, pid), w)
  }

  function KreplyRecv(s: State, p: Pid, ret: int, pid: int): Outcome
    requires s.up.Some?
  {
    if !MayReply(s, p) then Return(s, ERR)
    else Schedule(Answered(s, p, ret, Recv, ReplyRecvParked(pid)), Some(p))
  }

  /** proc_new: the process `nextpid` names, zeroed, ready to run proc_start, last on `alive`. */
  function ProcNew(s: State): State
    requires s.nextpid < MAX_PROCS
  {
    s.(procs := s.procs[s.nextpid := ZERO_PROC.(state := Ready)],
       alive := s.alive + [s.nextpid],
       nextpid := (s.nextpid + 1) % MAX_PROCS)
  }

  /** The rest of the call the running process was switched away from. */
  function Resumed(s: State): Outcome
    requires s.up.Some? && s.procs[s.up.value].resume != User
  {
    var u := s.up.value;
    var p := s.procs[u];
    match p.resume
    case Start => Krecv(s, PID_ALL, true)
    case InKsend => Return(s.(log := s.log + [Returned(u, p.page.mRet, p.page.mIn)]), p.page.mRet)
    case RecvLoop(pid, starting) => Krecv(s, pid, starting)
    case ReplyRecvParked(pid) => Krecv(s, pid, false)
    case AfterKreply => Return(s, OK)
  }

  // ------------------------------------------------------------------ runs

  datatype Step =
    | Tick                               // the timer interrupts user code or the idle loop
    | Continue
    | UserWrite(page: Page)              // user code writes its own process page
    | DoSend(to: Pid)
    | DoRecv(from: int)
    | DoReply(to: Pid, ret: int)
    | DoReplyRecv(to: Pid, ret: int, from: int)
    | DoCreate

  predicate InUser(s: State) {
    s.up.Some? && s.procs[s.up.value].resume == User
  }

  predicate Enabled(s: State, step: Step) {
    match step
    case Tick => s.up.None? || InUser(s)
    case Continue => s.up.Some? && !InUser(s)
    case DoCreate => InUser(s) && |s.alive| < MAX_PROCS && s.nextpid < MAX_PROCS
    case _ => InUser(s)
  }

  function Next(s: State, step: Step): Outcome
    requires Enabled(s, step)
  {
    match step
    case Tick => Schedule(s, None)
    case Continue => Resumed(s)
    case UserWrite(page) => Outcome(Put(s, s.up.value, s.procs[s.up.value].(page := page)), NoCall)
    case DoSend(p) => Ksend(s, p)
    case DoRecv(pid) => Krecv(s, pid, false)
    case DoReply(p, ret) => Kreply(s, p, ret)
    case DoReplyRecv(p, ret, pid) => KreplyRecv(s, p, ret, pid)
    case DoCreate => Return(ProcNew(s), s.nextpid)
  }

  /** kmain: process 0 is created, told to start in user mode, and switched to. */
  function Booted(): State {
    var s0 := State(seq(MAX_PROCS, _ => ZERO_PROC), [], None, 0, 0, []);
    var s1 := ProcNew(s0);
    Schedule(Put(s1, 0, s1.procs[0].(resume := User)), Some(0)).s
  }

  predicate Legal(s: State, steps: seq<Step>)
    decreases |steps|
  {
    steps == [] || (Enabled(s, steps[0]) && Legal(Next(s, steps[0]).s, steps[1..]))
  }

  function Final(s: State, steps: seq<Step>): State
    requires Legal(s, steps)
    decreases |steps|
  {
    if steps == [] then s else Final(Next(s, steps[0]).s, steps[1..])
  }

  // ------------------------------------------------------------------ the invariant

  ghost function Senders(t: Table): set<Pid> {
    set q: Pid | t[q].state == Send
  }

  /** pids are handed out in order, and exactly the created processes are not dead. */
  ghost predicate AliveInv(s: State) {
    && |s.alive| <= MAX_PROCS
    && s.nextpid == |s.alive| % MAX_PROCS
    && (forall i :: 0 <= i < |s.alive| ==> s.alive[i] == i)
    && (forall q: Pid :: s.procs[q].state != Dead <==> q < |s.alive|)
  }

  /** q is on p's queue, and then once, exactly when q is blocked sending to p. */
  ghost predicate QueueInv(t: Table) {
    && (forall p: Pid, q: Pid {:trigger q in t[p].waiting} ::
          q in t[p].waiting ==> t[q].state == Send && t[q].waitingOn == Some(p))
    && (forall q: Pid {:trigger t[q].waitingOn} ::
          t[q].state == Send && t[q].waitingOn.Some? ==> q in t[t[q].waitingOn.value].waiting)
    && (forall p: Pid :: NoDup(t[p].waiting))
  }

  /** Only created processes are ever waited on. */
  ghost predicate WaitsInv(s: State) {
    forall q: Pid :: s.procs[q].waitingOn.Some? ==> s.procs[q].waitingOn.value < |s.alive|
  }

  /** What a process in each state is in the middle of. */
  ghost predicate PointInv(p: Proc) {
    match p.state
    case Send => p.resume == InKsend && p.waitingOn.Some?
    case Reply => p.resume == InKsend && p.waitingOn.Some?
    case Recv => p.resume.RecvLoop? || p.resume.ReplyRecvParked?
    case Ready => p.resume == User || p.resume == AfterKreply || p.resume == Start
    case OnCpu => p.resume == InKsend ==> p.waitingOn.Some?
    case Dead => p == ZERO_PROC
  }

  /** A receiver blocked in krecv's own loop has nothing queued; a switched-to one has something. */
  ghost predicate WakeInv(p: Proc) {
    && (p.state == Recv && p.resume.RecvLoop? ==> p.waiting == [])
    && (p.state == OnCpu && (p.resume.RecvLoop? || p.resume.ReplyRecvParked?) ==> p.waiting != [])
  }

  ghost predicate PointsInv(t: Table) {
    forall q: Pid :: PointInv(t[q]) && WakeInv(t[q])
  }

  ghost predicate CpuInv(s: State) {
    && (forall q: Pid :: s.procs[q].state == OnCpu <==> s.up == Some(q))
    && (s.up.None? ==> forall q: Pid :: s.procs[q].state != Ready)
  }

  ghost predicate Inv(s: State) {
    && AliveInv(s)
    && QueueInv(s.procs)
    && CpuInv(s)
    && PointsInv(s.procs)
    && WaitsInv(s)
    && s.used == |Senders(s.procs)|
  }
}
