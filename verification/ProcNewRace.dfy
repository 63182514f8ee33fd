/**
 Any number of callers of proc_new racing: the compare-and-swap loop on `nextpid`, then
 add_to_list_back on `alive`, interleaved one memory access at a time. No process is ever removed.
 */
module ProcNewRace {
  import opened Common
  import opened Ipc

  /** The next memory access of one caller. `pid` is its process once it has one, `pp` its place in the list. */
  datatype Pc =
    | ReadPid
    | CasPid(seen: nat)
    | ClearNext(pid: Pid)
    | ReadHead(pid: Pid)
    | TestNext(pid: Pid, pp: Pid)       // the for loop's test of pp->next
    | Advance(pid: Pid, pp: Pid)        // its pp = pp->next, a second read
    | CasHead(pid: Pid)
    | CasNext(pid: Pid, pp: Pid)
    | Done(pid: Pid)

  type Nexts = ns: seq<Option<Pid>> | |ns| == MAX_PROCS witness seq(MAX_PROCS, _ => None)

  datatype World = World(head: Option<Pid>, next: Nexts, nextpid: nat, callers: seq<Pc>)

  /** One access by caller `i`; a compare-and-swap may also fail `spuriously`. */
  function Access(w: World, i: nat, spuriously: bool): World
    requires i < |w.callers|
  {
    match w.callers[i]
    case ReadPid => Goto(w, i, CasPid(w.nextpid))
    case CasPid(seen) =>
      if w.nextpid == seen && seen < MAX_PROCS && !spuriously
      then Goto(w.(nextpid := (seen + 1) % MAX_PROCS), i, ClearNext(seen))
      else Goto(w, i, ReadPid)
    case ClearNext(pid) => Goto(w.(next := w.next[pid := None]), i, ReadHead(pid))
    case ReadHead(pid) => Goto(w, i, if w.head.None? then CasHead(pid) else TestNext(pid, w.head.value))
    case TestNext(pid, pp) => Goto(w, i, if w.next[pp].None? then CasNext(pid, pp) else Advance(pid, pp))
    case Advance(pid, pp) => Goto(w, i, if w.next[pp].None? then CasHead(pid) else TestNext(pid, w.next[pp].value))
    case CasHead(pid) =>
      if w.head.None? && !spuriously then Goto(w.(head := Some(pid)), i, Done(pid)) else Goto(w, i, ReadHead(pid))
    case CasNext(pid, pp) =>
      if w.next[pp].None? && !spuriously
      then Goto(w.(next := w.next[pp := Some(pid)]), i, Done(pid))
      else Goto(w, i, ReadHead(pid))
    case Done(_) => w
  }

  function Goto(w: World, i: nat, pc: Pc): World
    requires i < |w.callers|
  {
    w.(callers := w.callers[i := pc])
  }

  datatype Move = Move(caller: nat, spuriously: bool)

  predicate Fits(w: World, moves: seq<Move>) {
    forall k :: 0 <= k < |moves| ==> moves[k].caller < |w.callers|
  }

  function Race(w: World, moves: seq<Move>): (r: World)
    requires Fits(w, moves)
    ensures |r.callers| == |w.callers|
  {
    if moves == [] then w
    else Access(Race(w, moves[..|moves| - 1]), moves[|moves| - 1].caller, moves[|moves| - 1].spuriously)
  }

  /** `n` callers about to start on an empty list; the `next` fields hold anything. */
  function Start(n: nat, next: Nexts): World {
    World(None, next, 0, seq(n, _ => ReadPid))
  }

  // ------------------------------------------------------------------ pids

  function Owned(pc: Pc): Option<Pid> {
    match pc
    case ReadPid => None
    case CasPid(_) => None
    case ClearNext(pid) => Some(pid)
    case ReadHead(pid) => Some(pid)
    case TestNext(pid, _) => Some(pid)
    case Advance(pid, _) => Some(pid)
    case CasHead(pid) => Some(pid)
    case CasNext(pid, _) => Some(pid)
    case Done(pid) => Some(pid)
  }

  /** `order` lists the callers in the order in which they got a pid; the k-th got k mod MAX_PROCS. */
  ghost predicate PidInv(w: World, order: seq<nat>) {
    && w.nextpid == |order| % MAX_PROCS
    && NoDup(order)
    && (forall k :: 0 <= k < |order| ==> order[k] < |w.callers| && Owned(w.callers[order[k]]) == Some(k % MAX_PROCS))
    && (forall i :: 0 <= i < |w.callers| && Owned(w.callers[i]).Some? ==> i in order)
  }

  lemma SameOrder(w: World, i: nat, spuriously: bool, order: seq<nat>)
    requires i < |w.callers| && PidInv(w, order)
    requires Owned(w.callers[i]) == Owned(Access(w, i, spuriously).callers[i])
    ensures PidInv(Access(w, i, spuriously), order)
  {
    var r := Access(w, i, spuriously);
    assert r.nextpid == w.nextpid;
    assert forall j :: 0 <= j < |w.callers| ==> Owned(r.callers[j]) == Owned(w.callers[j]);
  }

  lemma OneMoreOwner(w: World, i: nat, spuriously: bool, order: seq<nat>)
    requires i < |w.callers| && PidInv(w, order)
    requires Owned(w.callers[i]).None? && Owned(Access(w, i, spuriously).callers[i]).Some?
    ensures PidInv(Access(w, i, spuriously), order + [i])
  {
    var r, order' := Access(w, i, spuriously), order + [i];
    assert r.callers == w.callers[i := ClearNext(|order| % MAX_PROCS)];
    assert forall k :: 0 <= k < |order| ==> order[k] != i;
    assert order'[|order|] == i;
    assert forall x :: x in order ==> x in order';
    assert i in order';
  }

  lemma AccessKeepsPids(w: World, i: nat, spuriously: bool, order: seq<nat>) returns (order': seq<nat>)
    requires i < |w.callers| && PidInv(w, order)
    ensures PidInv(Access(w, i, spuriously), order') && order <= order'
    ensures Owned(w.callers[i]).Some? ==> order' == order
  {
    if Owned(w.callers[i]).None? && Owned(Access(w, i, spuriously).callers[i]).Some? {
      OneMoreOwner(w, i, spuriously, order);
      order' := order + [i];
    } else {
      SameOrder(w, i, spuriously, order);
      order' := order;
    }
  }

  lemma {:induction false} RaceKeepsPids(n: nat, next: Nexts, moves: seq<Move>) returns (order: seq<nat>)
    requires Fits(Start(n, next), moves)
    ensures PidInv(Race(Start(n, next), moves), order)
  {
    if moves == [] {
      order := [];
    } else {
      var last := moves[|moves| - 1];
      var before := RaceKeepsPids(n, next, moves[..|moves| - 1]);
      order := AccessKeepsPids(Race(Start(n, next), moves[..|moves| - 1]), last.caller, last.spuriously, before);
    }
  }

  /** The pids handed out are all different exactly as long as at most MAX_PROCS were. */
  lemma PidsDistinctIff(w: World, order: seq<nat>)
    requires PidInv(w, order)
    ensures (forall i, j :: 0 <= i < j < |w.callers| && Owned(w.callers[i]).Some? ==>
              Owned(w.callers[i]) != Owned(w.callers[j])) <==> |order| <= MAX_PROCS
  {
    if |order| <= MAX_PROCS {
      forall i, j | 0 <= i < j < |w.callers| && Owned(w.callers[i]).Some?
        ensures Owned(w.callers[i]) != Owned(w.callers[j])
      {
        if Owned(w.callers[j]).Some? {
          var a, b := IndexOf(order, i), IndexOf(order, j);
          assert a != b;
        }
      }
    } else {
      var i, j := order[0], order[MAX_PROCS];
      assert i != j;
      assert Owned(w.callers[i]) == Owned(w.callers[j]) == Some(0);
    }
  }

  // ------------------------------------------------------------------ the list

  /** `head` and the `next` fields link exactly the processes of `l`, and end in nil. */
  ghost predicate Linked(w: World, l: seq<Pid>) {
    && w.head == LinkAt(l, 0)
    && (forall k {:trigger w.next[l[k]]} :: 0 <= k < |l| ==> w.next[l[k]] == LinkAt(l, k + 1))
    && NoDup(l)
  }

  /** Where a caller may stand, given the list. */
  ghost predicate PlaceOk(w: World, l: seq<Pid>, pc: Pc) {
    match pc
    case ReadPid => true
    case CasPid(_) => true
    case ClearNext(pid) => pid !in l
    case ReadHead(pid) => pid !in l && w.next[pid].None?
    case TestNext(pid, pp) => pid !in l && w.next[pid].None? && pp in l
    case Advance(pid, pp) => pid !in l && w.next[pid].None? && pp in l && w.next[pp].Some?
    case CasHead(pid) => pid !in l && w.next[pid].None?
    case CasNext(pid, pp) => pid !in l && w.next[pid].None? && pp in l
    case Done(pid) => pid in l
  }

  ghost predicate ListInv(w: World, l: seq<Pid>, order: seq<nat>) {
    && Linked(w, l)
    && (forall i :: 0 <= i < |w.callers| ==> PlaceOk(w, l, w.callers[i]))
    && (forall p :: p in l ==> p < |order| && order[p] < |w.callers| && w.callers[order[p]] == Done(p))
  }

  lemma OwnerAt(w: World, order: seq<nat>, j: nat)
    requires PidInv(w, order) && |order| <= MAX_PROCS && j < |w.callers| && Owned(w.callers[j]).Some?
    ensures Owned(w.callers[j]).value < |order| && order[Owned(w.callers[j]).value] == j
  {
    var k := IndexOf(order, j);
  }

  /** Storing `pid` in the nil pointer at the end of the list puts it last on the list. */
  lemma StoredLast(w: World, l: seq<Pid>, pid: Pid, pp: Option<Pid>)
    requires Linked(w, l) && pid !in l && w.next[pid].None?
    requires if pp.None? then w.head.None? else pp.value in l && w.next[pp.value].None?
    ensures Linked(if pp.None? then w.(head := Some(pid)) else w.(next := w.next[pp.value := Some(pid)]), l + [pid])
  {
    if pp.Some? {
      var k := IndexOf(l, pp.value);
      assert w.next[l[k]] == LinkAt(l, k + 1);
      assert k == |l| - 1;
    }
  }

  /** An access that does not complete a caller leaves the list as it is. */
  lemma OtherAccess(w: World, i: nat, spuriously: bool, l: seq<Pid>, order: seq<nat>, order': seq<nat>)
    requires i < |w.callers| && PidInv(w, order) && ListInv(w, l, order)
    requires PidInv(Access(w, i, spuriously), order') && order <= order' && |order'| <= MAX_PROCS
    requires !Access(w, i, spuriously).callers[i].Done? || w.callers[i].Done?
    ensures ListInv(Access(w, i, spuriously), l, order')
  {
    var r := Access(w, i, spuriously);
    LinksKept(w, i, spuriously, l);
    forall j | 0 <= j < |r.callers|
      ensures PlaceOk(r, l, r.callers[j])
    {
      if j != i {
        OthersKeepPlace(w, i, spuriously, l, j);
      } else {
        if Owned(w.callers[i]).None? && Owned(r.callers[i]).Some? {
          NewPidIsNotListed(w, l, order, i, r, order');
        }
        MoverFindsPlace(w, i, spuriously, l);
      }
    }
  }

  lemma LinksKept(w: World, i: nat, spuriously: bool, l: seq<Pid>)
    requires i < |w.callers| && Linked(w, l) && PlaceOk(w, l, w.callers[i])
    requires !Access(w, i, spuriously).callers[i].Done? || w.callers[i].Done?
    ensures Linked(Access(w, i, spuriously), l)
  {
  }

  lemma OthersKeepPlace(w: World, i: nat, spuriously: bool, l: seq<Pid>, j: nat)
    requires i < |w.callers| && j < |w.callers| && i != j
    requires PlaceOk(w, l, w.callers[i]) && PlaceOk(w, l, w.callers[j])
    requires !Access(w, i, spuriously).callers[i].Done? || w.callers[i].Done?
    ensures PlaceOk(Access(w, i, spuriously), l, Access(w, i, spuriously).callers[j])
  {
  }

  lemma MoverFindsPlace(w: World, i: nat, spuriously: bool, l: seq<Pid>)
    requires i < |w.callers| && Linked(w, l) && PlaceOk(w, l, w.callers[i])
    requires !Access(w, i, spuriously).callers[i].Done? || w.callers[i].Done?
    requires Owned(w.callers[i]).None? && Owned(Access(w, i, spuriously).callers[i]).Some? ==>
               Owned(Access(w, i, spuriously).callers[i]).value !in l
    ensures PlaceOk(Access(w, i, spuriously), l, Access(w, i, spuriously).callers[i])
  {
    if w.callers[i].Advance? {
      var k := IndexOf(l, w.callers[i].pp);
      assert w.next[l[k]] == LinkAt(l, k + 1);
    }
  }

  lemma NewPidIsNotListed(w: World, l: seq<Pid>, order: seq<nat>, i: nat, r: World, order': seq<nat>)
    requires PidInv(r, order') && order <= order' && |order'| <= MAX_PROCS
    requires i < |w.callers| == |r.callers| && Owned(w.callers[i]).None? && Owned(r.callers[i]).Some?
    requires forall p :: p in l ==> p < |order| && order[p] < |w.callers| && w.callers[order[p]] == Done(p)
    ensures Owned(r.callers[i]).value !in l
  {
    OwnerAt(r, order', i);
  }

  /** An access that completes a caller puts its process last on the list. */
  lemma CompletingAccess(w: World, i: nat, spuriously: bool, l: seq<Pid>, order: seq<nat>) returns (pid: Pid)
    requires i < |w.callers| && PidInv(w, order) && ListInv(w, l, order) && |order| <= MAX_PROCS
    requires Access(w, i, spuriously).callers[i].Done? && !w.callers[i].Done?
    ensures ListInv(Access(w, i, spuriously), l + [pid], order)
    ensures Access(w, i, spuriously).callers[i] == Done(pid)
  {
    var r := Access(w, i, spuriously);
    pid := r.callers[i].pid;
    assert PlaceOk(w, l, w.callers[i]);
    StoredLast(w, l, pid, if w.callers[i].CasHead? then None else Some(w.callers[i].pp));
    OwnerAt(w, order, i);
    forall j | 0 <= j < |r.callers|
      ensures PlaceOk(r, l + [pid], r.callers[j])
    {
      if j != i {
        assert PlaceOk(w, l, w.callers[j]);
        if Owned(w.callers[j]).Some? {
          OwnerAt(w, order, j);
        }
      }
    }
  }

  lemma AccessKeepsList(w: World, i: nat, spuriously: bool, l: seq<Pid>, order: seq<nat>)
    returns (l': seq<Pid>, order': seq<nat>)
    requires i < |w.callers| <= MAX_PROCS && PidInv(w, order) && ListInv(w, l, order)
    ensures var r := Access(w, i, spuriously);
            PidInv(r, order') && ListInv(r, l', order') && l <= l' && order <= order'
  {
    var r := Access(w, i, spuriously);
    order' := AccessKeepsPids(w, i, spuriously, order);
    PigeonHole(order', |w.callers|);
    if r.callers[i].Done? && !w.callers[i].Done? {
      var pid := CompletingAccess(w, i, spuriously, l, order);
      l' := l + [pid];
    } else {
      l' := l;
      OtherAccess(w, i, spuriously, l, order, order');
    }
  }

  lemma {:induction false} LinkedPrefix(w: World, l: seq<Pid>, m: seq<Pid>, k: nat)
    requires Linked(w, l) && Linked(w, m) && k <= |l|
    ensures k <= |m| && l[..k] == m[..k]
  {
    if k > 0 {
      LinkedPrefix(w, l, m, k - 1);
      if k > 1 {
        assert w.next[l[k - 2]] == LinkAt(l, k - 1) && w.next[m[k - 2]] == LinkAt(m, k - 1);
      }
      assert l[k - 1] == m[k - 1];
    }
  }

  /** The list is a function of memory: two lists linked by the same pointers are the same. */
  lemma LinkedUnique(w: World, l: seq<Pid>, m: seq<Pid>)
    requires Linked(w, l) && Linked(w, m)
    ensures l == m
  {
    LinkedPrefix(w, l, m, |l|);
    LinkedPrefix(w, m, l, |m|);
    assert l[..|l|] == l && m[..|m|] == m;
  }

  lemma {:induction false} RaceKeepsList(n: nat, next: Nexts, moves: seq<Move>, m: nat)
    returns (l: seq<Pid>, order: seq<nat>, before: seq<Pid>)
    requires n <= MAX_PROCS && Fits(Start(n, next), moves) && m <= |moves|
    ensures PidInv(Race(Start(n, next), moves), order) && ListInv(Race(Start(n, next), moves), l, order)
    ensures Linked(Race(Start(n, next), moves[..m]), before) && before <= l
    decreases |moves|
  {
    if moves == [] {
      l, order, before := [], [], [];
      assert moves[..m] == moves;
    } else {
      var w := Race(Start(n, next), moves[..|moves| - 1]);
      var last := moves[|moves| - 1];
      if m == |moves| {
        var l0, order0, _ := RaceKeepsList(n, next, moves[..|moves| - 1], 0);
        l, order := AccessKeepsList(w, last.caller, last.spuriously, l0, order0);
        before := l;
        assert moves[..m] == moves;
      } else {
        var l0, order0, before0 := RaceKeepsList(n, next, moves[..|moves| - 1], m);
        l, order := AccessKeepsList(w, last.caller, last.spuriously, l0, order0);
        before := before0;
        assert moves[..|moves| - 1][..m] == moves[..m];
      }
    }
  }

  /**
   Under every interleaving of up to MAX_PROCS callers: `alive` is a nil-terminated list without
   repetition; it holds each finished caller's process once and nobody else's; and every list there
   was at an earlier moment `m` is a prefix of it.
   */
  lemma AppendIsAtomic(n: nat, next: Nexts, moves: seq<Move>, m: nat) returns (l: seq<Pid>, before: seq<Pid>)
    requires n <= MAX_PROCS && Fits(Start(n, next), moves) && m <= |moves|
    ensures var w := Race(Start(n, next), moves);
            && Linked(w, l)
            && Linked(Race(Start(n, next), moves[..m]), before) && before <= l
            && (forall i :: 0 <= i < n && w.callers[i].Done? ==> w.callers[i].pid in l)
            && (forall p :: p in l ==> exists i :: 0 <= i < n && w.callers[i] == Done(p))
            && (forall i, j :: 0 <= i < j < n && Owned(w.callers[i]).Some? ==>
                  Owned(w.callers[i]) != Owned(w.callers[j]))
  {
    var order;
    l, order, before := RaceKeepsList(n, next, moves, m);
    var w := Race(Start(n, next), moves);
    PigeonHole(order, n);
    PidsDistinctIff(w, order);
    forall i | 0 <= i < n && w.callers[i].Done?
      ensures w.callers[i].pid in l
    {
      assert PlaceOk(w, l, w.callers[i]);
    }
  }

  /**
   Past MAX_PROCS creations pids come round again. The one that gets the pid of the first process of
   the list makes that process its own successor: four accesses on, no list at all is linked.
   */
  lemma SecondOwnerMakesLoop(w: World, i: nat)
    requires i < |w.callers| && w.callers[i].ClearNext? && w.head == Some(w.callers[i].pid)
    ensures var r := Access(Access(Access(Access(w, i, false), i, false), i, false), i, false);
            && r.head == Some(w.callers[i].pid) && r.next[w.callers[i].pid] == r.head
            && forall l :: !Linked(r, l)
  {
    var pid := w.callers[i].pid;
    var w1 := Access(w, i, false);
    assert w1.callers[i] == ReadHead(pid) && w1.next[pid].None?;
    var w2 := Access(w1, i, false);
    assert w2.callers[i] == TestNext(pid, pid);
    var w3 := Access(w2, i, false);
    assert w3.callers[i] == CasNext(pid, pid);
    var r := Access(w3, i, false);
    assert r.head == Some(pid) && r.next[pid] == Some(pid);
    hide Access;
    if l :| Linked(r, l) {
      LoopIsNotLinked(r, l);
    }
  }

  lemma LoopIsNotLinked(w: World, l: seq<Pid>)
    requires w.head.Some? && w.next[w.head.value] == w.head
    ensures !Linked(w, l)
  {
    if l != [] {
      assert w.head == LinkAt(l, 0) ==> l[0] == w.head.value;
      assert w.next[l[0]] == LinkAt(l, 1) && |l| > 1 ==> LinkAt(l, 1) == Some(l[1]);
    }
  }

  // ------------------------------------------------------------------ one process too many

  lemma RaceMore(w: World, moves: seq<Move>, i: nat)
    requires Fits(w, moves) && i < |w.callers|
    ensures Fits(w, moves + [Move(i, false)])
    ensures Race(w, moves + [Move(i, false)]) == Access(Race(w, moves), i, false)
  {
    assert (moves + [Move(i, false)])[..|moves|] == moves;
  }

  /** The first `m` callers have claimed their pids, one after the other, and done no more. */
  function Claimed(n: nat, next: Nexts, m: nat): World {
    World(None, next, m % MAX_PROCS, seq(n, j => if j < m then ClearNext(j % MAX_PROCS) else ReadPid))
  }

  lemma ClaimOne(n: nat, next: Nexts, m: nat)
    requires m < n
    ensures Access(Access(Claimed(n, next, m), m, false), m, false) == Claimed(n, next, m + 1)
  {
    var w := Claimed(n, next, m);
    assert w.callers[m] == ReadPid;
    var w1 := Access(w, m, false);
    assert w1.callers[m] == CasPid(m % MAX_PROCS);
    assert (m % MAX_PROCS + 1) % MAX_PROCS == (m + 1) % MAX_PROCS;
    assert Access(w1, m, false).callers == Claimed(n, next, m + 1).callers;
  }

  lemma {:induction false} ClaimInTurn(n: nat, next: Nexts, m: nat) returns (moves: seq<Move>)
    requires m <= n
    ensures Fits(Start(n, next), moves) && Race(Start(n, next), moves) == Claimed(n, next, m)
  {
    if m == 0 {
      moves := [];
      assert Start(n, next).callers == Claimed(n, next, 0).callers;
    } else {
      moves := ClaimInTurn(n, next, m - 1);
      ClaimOne(n, next, m - 1);
      moves := Repeated(Start(n, next), moves, m - 1, 2);
      SomeAccesses(Claimed(n, next, m - 1), m - 1);
    }
  }

  /** `k` accesses in a row by caller `i`. */
  function Accesses(w: World, i: nat, k: nat): (r: World)
    requires i < |w.callers|
    ensures |r.callers| == |w.callers|
  {
    if k == 0 then w else Access(Accesses(w, i, k - 1), i, false)
  }

  lemma {:induction false} Repeated(w: World, moves: seq<Move>, i: nat, k: nat) returns (more: seq<Move>)
    requires Fits(w, moves) && i < |w.callers|
    ensures Fits(w, more) && Race(w, more) == Accesses(Race(w, moves), i, k)
  {
    more := moves;
    if k > 0 {
      more := Repeated(w, moves, i, k - 1);
      RaceMore(w, more, i);
      more := more + [Move(i, false)];
    }
  }

  /** Caller 0, first to claim, is also first to append. */
  lemma FirstAppends(w: World)
    requires |w.callers| > 0 && w.callers[0] == ClearNext(0) && w.head.None?
    ensures Accesses(w, 0, 3).head == Some(0)
    ensures forall j :: 0 < j < |w.callers| ==> Accesses(w, 0, 3).callers[j] == w.callers[j]
  {
    SomeAccesses(w, 0);
    var w1 := Access(w, 0, false);
    assert w1.callers[0] == ReadHead(0);
    assert Access(w1, 0, false).callers[0] == CasHead(0);
  }

  /** With one caller more than there are pids, some interleaving leaves no list. */
  lemma OneTooMany(n: nat, next: Nexts) returns (moves: seq<Move>)
    requires n > MAX_PROCS
    ensures Fits(Start(n, next), moves) && forall l :: !Linked(Race(Start(n, next), moves), l)
  {
    var start := Start(n, next);
    moves := ClaimInTurn(n, next, n);
    var w := Race(start, moves);
    assert w.callers[0] == ClearNext(0) && w.callers[MAX_PROCS] == ClearNext(0) && w.head.None?;
    moves := Repeated(start, moves, 0, 3);
    FirstAppends(w);
    var w1 := Race(start, moves);
    moves := Repeated(start, moves, MAX_PROCS, 4);
    SecondOwnerMakesLoop(w1, MAX_PROCS);
    SomeAccesses(w1, MAX_PROCS);
  }

  lemma SomeAccesses(w: World, i: nat)
    requires i < |w.callers|
    ensures Accesses(w, i, 2) == Access(Access(w, i, false), i, false)
    ensures Accesses(w, i, 3) == Access(Accesses(w, i, 2), i, false)
    ensures Accesses(w, i, 4) == Access(Accesses(w, i, 3), i, false)
  {
    hide Access;
    assert Accesses(w, i, 1) == Access(Accesses(w, i, 0), i, false);
  }

  ghost predicate IsList(w: World) {
    exists l :: Linked(w, l)
  }

  /** `alive` is a list under every interleaving exactly when there are no more callers than pids. */
  lemma AlwaysListIff(n: nat, next: Nexts)
    ensures (forall moves :: Fits(Start(n, next), moves) ==> IsList(Race(Start(n, next), moves))) <==> n <= MAX_PROCS
  {
    if n <= MAX_PROCS {
      forall moves | Fits(Start(n, next), moves)
        ensures IsList(Race(Start(n, next), moves))
      {
        var l, _ := AppendIsAtomic(n, next, moves, 0);
      }
    } else {
      var moves := OneTooMany(n, next);
      assert !IsList(Race(Start(n, next), moves));
    }
  }
}
