/** Handing pages from one address space to another: sys_addr_offer and sys_addr_accept of kern/sys.c. */
module AddrTransfer {
  import opened Common
  import opened PageTable

  datatype Offer = Offer(to: int, start: nat, len: nat, flags: Word)

  class Process {
    const pid: int
    const space: Addr
    var offer: Offer

    constructor (pid: int, space: Addr)
      ensures this.pid == pid && this.space == space && offer == Offer(0, 0, 0, 0)
    {
      this.pid, this.space, offer := pid, space, Offer(0, 0, 0, 0);
    }
  }

  method SysAddrOffer(up: Process, pid: int, start: nat, len: nat, flags: Word) returns (r: int)
    modifies up
    ensures r == OK && up.offer == Offer(pid, start, len, flags)
  {
    up.offer := Offer(pid, start, len, flags);
    r := OK;
  }

  // ------------------------------------------------------------------ the page loop on views

  /** The giver's view when `k` pages from page `p` on have been taken from it. */
  function Given(f: View, p: nat, k: nat): View {
    if k == 0 then f else Unmapped(Given(f, p, k - 1), p + k - 1)
  }

  /** The taker's view when those pages have been mapped from page `q` on. */
  function Got(f: View, t: View, p: nat, q: nat, flags: Word, k: nat): View {
    if k == 0 then t
    else Mapped(Got(f, t, p, q, flags, k - 1), q + k - 1, Encode(FrameAt(f, p + k - 1), flags))
  }

  lemma {:induction false} GivenAt(f: View, p: nat, k: nat, x: nat)
    ensures x in Given(f, p, k) <==> x in f && !(p <= x < p + k)
    ensures x in Given(f, p, k) ==> Given(f, p, k)[x] == f[x]
  {
    if k > 0 {
      GivenAt(f, p, k - 1, x);
    }
  }

  lemma {:induction false} GotAt(f: View, t: View, p: nat, q: nat, flags: Word, k: nat, x: nat)
    ensures x in Got(f, t, p, q, flags, k) <==> x in t || q <= x < q + k
    ensures x in Got(f, t, p, q, flags, k) ==>
              Got(f, t, p, q, flags, k)[x] == if q <= x < q + k then Encode(FrameAt(f, p + (x - q)), flags) else t[x]
  {
    if k > 0 {
      GotAt(f, t, p, q, flags, k - 1, x);
    }
  }

  function Pages(len: nat): nat { (len + 4095) / 4096 }

  lemma TransferNext(f: View, t: View, p: nat, q: nat, flags: Word, k: nat)
    ensures Given(f, p, k + 1) == Unmapped(Given(f, p, k), p + k)
    ensures Got(f, t, p, q, flags, k + 1) == Mapped(Got(f, t, p, q, flags, k), q + k, Encode(FrameAt(f, p + k), flags))
    ensures FrameAt(Given(f, p, k), p + k) == FrameAt(f, p + k)
  {
    GivenAt(f, p, k, p + k);
  }

  /** A successful turn of the loop of sys_addr_accept: page `p` of `from` becomes page `q` of `to`. */
  function Moved(vs: Views, from: Addr, p: nat, to: Addr, q: nat, flags: Word): Views
    requires from in vs && to in vs
  {
    var ws := vs[to := Mapped(vs[to], q, Encode(FrameAt(vs[from], p), flags))];
    ws[from := Unmapped(ws[from], p)]
  }

  method MovePage(m: Mmu, from: Addr, vf: Va, to: Addr, vt: Va, flags: Word, page: Addr) returns (ok: bool)
    requires m.Valid() && from in m.views && to in m.views && to in m.spaces
    requires page != NIL ==> Spare(page, m.spaces, m.tables)
    modifies m
    ensures m.Valid() && m.spaces.Keys == old(m.spaces).Keys && m.tables.Keys <= old(m.tables).Keys + {page}
    ensures m.views == if ok then Moved(old(m.views), from, PageNo(vf), to, PageNo(vt), flags) else old(m.views)
    ensures ok <==> HasTable(old(m.spaces)[to], L1X(vt)) || page != NIL
    ensures forall x: nat :: HasTable(m.spaces[to], x) <==> HasTable(old(m.spaces)[to], x) || (ok && x == L1X(vt))
  {
    hide Mmu.Valid, FrameAt, Encode;
    var pa, _ := m.SpaceFind(from, vf);
    ok := m.Apply(to, Map(vt, pa, flags), page);
    if ok {
      m.SpaceUnmap(from, vf);
    }
  }

  /** `k` turns of that loop. */
  function MovedPages(vs: Views, from: Addr, p: nat, to: Addr, q: nat, flags: Word, k: nat): (ws: Views)
    requires from in vs && to in vs
    ensures from in ws && to in ws
  {
    if k == 0 then vs else Moved(MovedPages(vs, from, p, to, q, flags, k - 1), from, p + k - 1, to, q + k - 1, flags)
  }

  lemma MovedPagesNext(vs: Views, from: Addr, p: nat, to: Addr, q: nat, flags: Word, k: nat)
    requires from in vs && to in vs
    ensures MovedPages(vs, from, p, to, q, flags, 0) == vs
    ensures MovedPages(vs, from, p, to, q, flags, k + 1) ==
            Moved(MovedPages(vs, from, p, to, q, flags, k), from, p + k, to, q + k, flags)
  {
  }

  /** Between different spaces, what the giver and the taker are left with; nobody else is touched. */
  lemma {:induction false} MovedPagesAre(vs: Views, from: Addr, p: nat, to: Addr, q: nat, flags: Word, k: nat)
    requires from in vs && to in vs && from != to
    ensures var ws := MovedPages(vs, from, p, to, q, flags, k);
            && ws.Keys == vs.Keys
            && ws[from] == Given(vs[from], p, k)
            && ws[to] == Got(vs[from], vs[to], p, q, flags, k)
            && forall s :: s in vs && s != from && s != to ==> ws[s] == vs[s]
  {
    if k > 0 {
      MovedPagesAre(vs, from, p, to, q, flags, k - 1);
      TransferNext(vs[from], vs[to], p, q, flags, k - 1);
    }
  }

  /** One of the first `k` pages of the target range lies in first-level slot `x`. */
  ghost predicate Reaches(vt: nat, k: nat, x: nat) {
    exists i :: 0 <= i < k && L1X(vt + 4096 * i) == x
  }

  /** Page `j` of the target range is the first in its slot, the slot has no table, and there is no page for one. */
  ghost predicate Lacking(tab: seq<Word>, vt: nat, pages: seq<Addr>, j: nat)
    requires j < |pages|
  {
    pages[j] == NIL && !HasTable(tab, L1X(vt + 4096 * j)) && !Reaches(vt, j, L1X(vt + 4096 * j))
  }

  lemma ReachesNext(vt: nat, k: nat, x: nat)
    ensures Reaches(vt, k + 1, x) <==> Reaches(vt, k, x) || x == L1X(vt + 4096 * k)
    ensures !Reaches(vt, 0, x)
  {
    hide L1X;
  }

  /** The loop of sys_addr_accept, from `vf` in `from` to `vt` in `to`. It stops at the first lacking page. */
  method MovePages(m: Mmu, from: Addr, vf: nat, to: Addr, vt: nat, len: nat, flags: Word, pages: seq<Addr>)
    returns (r: int, k: nat)
    requires m.Valid() && from in m.views && to in m.views && to in m.spaces
    requires vf + 4096 * Pages(len) <= VA_LIMIT && vt + 4096 * Pages(len) <= VA_LIMIT
    requires |pages| == Pages(len) && Answers(pages, m.spaces, m.tables)
    modifies m
    ensures m.Valid()
    ensures k <= Pages(len) && r == (if k == Pages(len) then OK else ERR)
    ensures forall j :: 0 <= j < k ==> !Lacking(old(m.spaces)[to], vt, pages, j)
    ensures k < Pages(len) ==> Lacking(old(m.spaces)[to], vt, pages, k)
    ensures m.views == MovedPages(old(m.views), from, PageNo(vf), to, PageNo(vt), flags, k)
  {
    hide Mmu.Valid, Moved, MovedPages, HasTable, Reaches, Aligned, L1X;
    ghost var n := Pages(len);
    var l := 0;
    k := 0;
    MovedPagesNext(m.views, from, PageNo(vf), to, PageNo(vt), flags, 0);
    forall x: nat {
      ReachesNext(vt, 0, x);
    }
    while l < len
      invariant k <= n == |pages| && l == 4096 * k && (l < len <==> k < n)
      invariant m.Valid() && m.spaces.Keys == old(m.spaces).Keys && to in m.spaces
      invariant m.views == MovedPages(old(m.views), from, PageNo(vf), to, PageNo(vt), flags, k)
      invariant forall j :: k <= j < n && pages[j] != NIL ==> pages[j] !in m.tables
      invariant forall x: nat :: HasTable(m.spaces[to], x) <==> HasTable(old(m.spaces)[to], x) || Reaches(vt, k, x)
      invariant forall j :: 0 <= j < k ==> !Lacking(old(m.spaces)[to], vt, pages, j)
    {
      MovedPagesNext(old(m.views), from, PageNo(vf), to, PageNo(vt), flags, k);
      assert PageNo(vf + l) == PageNo(vf) + k && PageNo(vt + l) == PageNo(vt) + k;
      forall x: nat {
        ReachesNext(vt, k, x);
      }
      var ok := MovePage(m, from, vf + l, to, vt + l, flags, pages[k]);
      if !ok {
        return ERR, k;
      }
      l := l + 4096;
      k := k + 1;
    }
    r := OK;
  }

  /** With a get_page that always answers nil, nothing is lacking exactly when every slot of the range has a table. */
  lemma AllTablesThere(tab: seq<Word>, vt: nat, pages: seq<Addr>)
    requires forall j :: 0 <= j < |pages| ==> pages[j] == NIL
    ensures (forall j :: 0 <= j < |pages| ==> !Lacking(tab, vt, pages, j)) <==>
            (forall j :: 0 <= j < |pages| ==> HasTable(tab, L1X(vt + 4096 * j)))
  {
    hide HasTable, L1X;
    if j :| 0 <= j < |pages| && !HasTable(tab, L1X(vt + 4096 * j)) {
      var i := FirstInSlot(vt, j);
      assert L1X(vt + 4096 * i) == L1X(vt + 4096 * j) && Lacking(tab, vt, pages, i);
    }
  }

  lemma {:induction false} FirstInSlot(vt: nat, j: nat) returns (i: nat)
    ensures i <= j && L1X(vt + 4096 * i) == L1X(vt + 4096 * j) && !Reaches(vt, i, L1X(vt + 4096 * i))
  {
    hide L1X;
    i := j;
    if Reaches(vt, j, L1X(vt + 4096 * j)) {
      var h :| 0 <= h < j && L1X(vt + 4096 * h) == L1X(vt + 4096 * j);
      i := FirstInSlot(vt, h);
    }
  }

  /** Both sides must ask for the same thing, one of them to take and the other to give. */
  predicate Agreed(o: Offer, me: int, len: nat, flags: Word) {
    o.to == me && o.len == len && OneTakes(flags, o.flags)
  }

  /** The flags differ in the take bit and in no other. */
  predicate OneTakes(mine: Word, theirs: Word) { mine ^ theirs == 1 }

  predicate Takes(flags: Word) { flags & 1 == 1 }
  predicate SameRequest(mine: Word, theirs: Word) { mine >> 1 == theirs >> 1 }

  lemma OneTakesSameRequest(mine: Word, theirs: Word)
    requires OneTakes(mine, theirs)
    ensures SameRequest(mine, theirs) && Takes(mine) != Takes(theirs)
  {
  }

  lemma OppositeSides(mine: Word, theirs: Word)
    requires SameRequest(mine, theirs) && Takes(mine) != Takes(theirs)
    ensures OneTakes(mine, theirs)
  {
  }

  /** The tests of sys_addr_accept: alike above the lowest bit, and on different sides. */
  lemma AgreedTests(o: Offer, me: int, len: nat, flags: Word)
    ensures Agreed(o, me, len, flags) <==>
            me == o.to && len == o.len && SameRequest(flags, o.flags) && Takes(flags) != Takes(o.flags)
  {
    hide OneTakes, SameRequest, Takes;
    if OneTakes(flags, o.flags) {
      OneTakesSameRequest(flags, o.flags);
    } else if SameRequest(flags, o.flags) && Takes(flags) != Takes(o.flags) {
      OppositeSides(flags, o.flags);
    }
  }

  /** Where the pages of an agreed transfer come from and go to: the side whose flags say take receives. */
  datatype Route = Route(from: Addr, vf: nat, to: Addr, vt: nat)

  function RouteOf(up: Process, start: nat, p: Process, flags: Word): Route
    reads p
  {
    if Takes(flags) then Route(p.space, p.offer.start, up.space, start)
    else Route(up.space, start, p.space, p.offer.start)
  }

  /**
   sys_addr_accept by `up` of what `p` offered. Refusals change nothing; otherwise `k` pages are
   moved along the route: those before the first lacking page, or all if none is lacking.
   */
  method SysAddrAccept(m: Mmu, up: Process, p: Process, start: nat, len: nat, flags: Word, pages: seq<Addr>)
    returns (r: int, k: nat)
    requires m.Valid() && up.space in m.views && p.space in m.views && up.space in m.spaces && p.space in m.spaces
    requires start + 4096 * Pages(len) <= VA_LIMIT && p.offer.start + 4096 * Pages(p.offer.len) <= VA_LIMIT
    requires |pages| == Pages(len) && Answers(pages, m.spaces, m.tables)
    modifies m
    ensures m.Valid() && k <= Pages(len)
    ensures r == if Agreed(p.offer, up.pid, len, flags) && k == Pages(len) then OK else ERR
    ensures !Agreed(p.offer, up.pid, len, flags) ==> k == 0 && m.views == old(m.views)
    ensures Agreed(p.offer, up.pid, len, flags) ==>
              var w := RouteOf(up, start, p, flags);
              && m.views == MovedPages(old(m.views), w.from, PageNo(w.vf), w.to, PageNo(w.vt), flags, k)
              && (forall j :: 0 <= j < k ==> !Lacking(old(m.spaces)[w.to], w.vt, pages, j))
              && (k < Pages(len) ==> Lacking(old(m.spaces)[w.to], w.vt, pages, k))
  {
    hide Mmu.Valid, Moved, MovedPages, Agreed, Takes, SameRequest, Lacking;
    AgreedTests(p.offer, up.pid, len, flags);
    if up.pid != p.offer.to {
      return ERR, 0;
    } else if len != p.offer.len {
      return ERR, 0;
    } else if !SameRequest(flags, p.offer.flags) {
      return ERR, 0;
    }
    if !Takes(flags) && Takes(p.offer.flags) {
      r, k := MovePages(m, up.space, start, p.space, p.offer.start, len, flags, pages);
    } else if Takes(flags) && !Takes(p.offer.flags) {
      r, k := MovePages(m, p.space, p.offer.start, up.space, start, len, flags, pages);
    } else {
      return ERR, 0;
    }
  }
}
