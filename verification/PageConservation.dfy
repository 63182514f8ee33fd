/** What a page transfer between two address spaces does to the physical pages. */
module PageConservation {
  import opened PageTable
  import opened AddrTransfer

  /** Page `x` of space `s` is mapped to frame `w`. */
  ghost predicate Maps(vs: Views, s: Addr, x: nat, w: Word) {
    s in vs && x in vs[s] && FrameOf(vs[s][x]) == w
  }

  ghost predicate Held(vs: Views, w: Word) {
    exists s, x :: Maps(vs, s, x, w)
  }

  ghost predicate SameFrames(vs: Views, ws: Views) {
    forall w :: Held(vs, w) <==> Held(ws, w)
  }

  /** No frame is mapped at two places, and none is frame zero. */
  ghost predicate Exclusive(vs: Views) {
    && (forall s, x :: !Maps(vs, s, x, 0))
    && (forall s, x, t, y, w :: Maps(vs, s, x, w) && Maps(vs, t, y, w) ==> s == t && x == y)
  }

  /**
   The transfers that conserve frames: the source range is mapped and the target range is free, where
   within one space a source page may also be one that an earlier turn fills, and a target page one that
   an earlier turn frees. Pages put where they are must not be mapped at all.
   */
  ghost predicate Clean(vs: Views, from: Addr, p: nat, to: Addr, q: nat, k: nat)
    requires from in vs && to in vs
  {
    if from == to && p == q then forall x :: p <= x < p + k ==> x !in vs[from]
    else
      && (forall x :: p <= x < p + k && !(from == to && p < q <= x) ==> x in vs[from])
      && (forall y :: q <= y < q + k && !(from == to && q < p <= y) ==> y !in vs[to])
  }

  ghost predicate SourceMapped(vs: Views, from: Addr, p: nat, k: nat)
    requires from in vs
  {
    forall x :: p <= x < p + k ==> x in vs[from]
  }

  lemma FrameIsAligned(v: Word)
    ensures Aligned(FrameOf(v)) && Aligned(0)
  {
  }

  /** Where the frame seen at page `x` of `s` after the transfer was before it. */
  function Origin(from: Addr, p: nat, to: Addr, q: nat, k: nat, s: Addr, x: nat): (Addr, nat) {
    if s == to && q <= x < q + k then (from, p + (x - q)) else (s, x)
  }

  /** Every page mapped afterwards has the frame of its origin; exactly the pages not given away remain. */
  lemma AfterTransfer(vs: Views, from: Addr, p: nat, to: Addr, q: nat, flags: Word, k: nat, s: Addr, x: nat)
    requires from in vs && to in vs && from != to && s in vs
    ensures var ws := MovedPages(vs, from, p, to, q, flags, k);
            var (s0, x0) := Origin(from, p, to, q, k, s, x);
            && s in ws
            && (x in ws[s] <==> (s == to && q <= x < q + k) || (x in vs[s] && !(s == from && p <= x < p + k)))
            && (x in ws[s] ==> FrameOf(ws[s][x]) == FrameAt(vs[s0], x0))
  {
    MovedPagesAre(vs, from, p, to, q, flags, k);
    if s == from {
      GivenAt(vs[from], p, k, x);
    } else if s == to {
      GotAt(vs[from], vs[to], p, q, flags, k, x);
      if q <= x < q + k {
        var pa := FrameAt(vs[from], p + (x - q));
        if p + (x - q) in vs[from] {
          FrameIsAligned(vs[from][p + (x - q)]);
        } else {
          FrameIsAligned(0);
        }
        DecodeEncode(pa, flags);
      }
    }
  }

  /** What was at page `p + j` of the giver is at page `q + j` of the taker, and no longer at the giver. */
  lemma PagesMove(vs: Views, from: Addr, p: nat, to: Addr, q: nat, flags: Word, k: nat, j: nat)
    requires from in vs && to in vs && from != to && j < k
    ensures var ws := MovedPages(vs, from, p, to, q, flags, k);
            && p + j !in ws[from] && q + j in ws[to]
            && FrameAt(ws[to], q + j) == FrameAt(vs[from], p + j)
  {
    AfterTransfer(vs, from, p, to, q, flags, k, from, p + j);
    AfterTransfer(vs, from, p, to, q, flags, k, to, q + j);
  }

  /** Page `a` of space `s` has become page `b` of space `t`. */
  ghost predicate Became(vs: Views, s: Addr, a: nat, ws: Views, t: Addr, b: nat) {
    && s in vs && t in ws && s in ws
    && b in ws[t] && FrameAt(ws[t], b) == FrameAt(vs[s], a) && a !in ws[s]
  }

  /**
   Which way the pages go that sys_addr_accept moves between two processes: with the take bit in its flags
   the accepting process has the pages offered, and without it the offering one has the accepting one's.
   */
  lemma AcceptedPagesGo(vs: Views, up: Process, p: Process, start: nat, flags: Word, k: nat, j: nat)
    requires up.space in vs && p.space in vs && up.space != p.space && j < k
    ensures var w := RouteOf(up, start, p, flags);
            var ws := MovedPages(vs, w.from, PageNo(w.vf), w.to, PageNo(w.vt), flags, k);
            if flags & ADDR_TAKE != 0
            then Became(vs, p.space, PageNo(p.offer.start) + j, ws, up.space, PageNo(start) + j)
            else Became(vs, up.space, PageNo(start) + j, ws, p.space, PageNo(p.offer.start) + j)
  {
    var w := RouteOf(up, start, p, flags);
    TakeBit(flags);
    MovedPagesAre(vs, w.from, PageNo(w.vf), w.to, PageNo(w.vt), flags, k);
    hide FrameAt, Given, MovedPages, PageNo;
    PagesMove(vs, w.from, PageNo(w.vf), w.to, PageNo(w.vt), flags, k, j);
  }

  lemma TakeBit(flags: Word)
    ensures Takes(flags) <==> flags & ADDR_TAKE != 0
  {
  }

  /** The frame at any page mapped afterwards was at its origin before, where the source range was mapped. */
  lemma ComesFrom(vs: Views, from: Addr, p: nat, to: Addr, q: nat, flags: Word, k: nat, s: Addr, x: nat, w: Word)
    requires from in vs && to in vs && from != to
    requires SourceMapped(vs, from, p, k)
    requires Maps(MovedPages(vs, from, p, to, q, flags, k), s, x, w)
    ensures var (s0, x0) := Origin(from, p, to, q, k, s, x); Maps(vs, s0, x0, w)
    ensures s in vs && !(s == from && p <= x < p + k)
  {
    MovedPagesAre(vs, from, p, to, q, flags, k);
    AfterTransfer(vs, from, p, to, q, flags, k, s, x);
  }

  /** An unmapped source page ends up as a mapping of frame zero: the code tests the wrong pointer. */
  lemma UnmappedSourceMapsZero(vs: Views, from: Addr, p: nat, to: Addr, q: nat, flags: Word, k: nat, j: nat)
    requires from in vs && to in vs && from != to && j < k && p + j !in vs[from]
    ensures Maps(MovedPages(vs, from, p, to, q, flags, k), to, q + j, 0)
  {
    MovedPagesAre(vs, from, p, to, q, flags, k);
    PagesMove(vs, from, p, to, q, flags, k, j);
  }

  /** A frame that was mapped in the target range is mapped nowhere afterwards. */
  lemma OverwrittenIsLost(vs: Views, from: Addr, p: nat, to: Addr, q: nat, flags: Word, k: nat, j: nat)
    requires from in vs && to in vs && from != to && Exclusive(vs)
    requires j < k && q + j in vs[to]
    requires SourceMapped(vs, from, p, k)
    ensures !Held(MovedPages(vs, from, p, to, q, flags, k), FrameOf(vs[to][q + j]))
  {
    var ws, w := MovedPages(vs, from, p, to, q, flags, k), FrameOf(vs[to][q + j]);
    assert Maps(vs, to, q + j, w);
    if s, x :| Maps(ws, s, x, w) {
      ComesFrom(vs, from, p, to, q, flags, k, s, x, w);
    }
  }

  // ------------------------------------------------------------------ turn by turn, in one space or between two

  /** Page `a` of `from` is mapped, and page `b` of `to` is not. */
  ghost predicate TurnClean(vs: Views, from: Addr, a: nat, to: Addr, b: nat)
    requires from in vs && to in vs
  {
    a in vs[from] && b !in vs[to]
  }

  lemma TurnAt(vs: Views, from: Addr, a: nat, to: Addr, b: nat, flags: Word, s: Addr, x: nat)
    requires from in vs && to in vs && s in vs
    ensures var ws := Moved(vs, from, a, to, b, flags);
            && ws.Keys == vs.Keys
            && (x in ws[s] <==> ((s == to && x == b) || x in vs[s]) && !(s == from && x == a))
            && (x in ws[s] ==>
                  FrameOf(ws[s][x]) == if s == to && x == b then FrameAt(vs[from], a) else FrameOf(vs[s][x]))
  {
    var pa := FrameAt(vs[from], a);
    FrameIsAligned(if a in vs[from] then vs[from][a] else 0);
    DecodeEncode(pa, flags);
    hide Encode, FrameOf, Aligned;
  }

  /** The turn in terms of which frame is mapped where. */
  lemma TurnMaps(vs: Views, from: Addr, a: nat, to: Addr, b: nat, flags: Word, s: Addr, x: nat, w: Word)
    requires from in vs && to in vs
    ensures Maps(Moved(vs, from, a, to, b, flags), s, x, w) <==>
            s in vs && !(s == from && x == a) &&
            if s == to && x == b then FrameAt(vs[from], a) == w else Maps(vs, s, x, w)
  {
    if s in vs {
      TurnAt(vs, from, a, to, b, flags, s, x);
    }
    hide FrameOf, FrameAt, Encode;
  }

  lemma FrameAtMaps(vs: Views, s: Addr, x: nat)
    requires s in vs
    ensures x in vs[s] ==> Maps(vs, s, x, FrameAt(vs[s], x))
    ensures x !in vs[s] ==> FrameAt(vs[s], x) == 0
  {
  }

  lemma TurnConserves(vs: Views, from: Addr, a: nat, to: Addr, b: nat, flags: Word)
    requires from in vs && to in vs && Exclusive(vs) && TurnClean(vs, from, a, to, b)
    ensures SameFrames(vs, Moved(vs, from, a, to, b, flags)) && Exclusive(Moved(vs, from, a, to, b, flags))
  {
    var ws := Moved(vs, from, a, to, b, flags);
    FrameAtMaps(vs, from, a);
    forall s, x, w
      ensures Maps(ws, s, x, w) <==>
              s in vs && !(s == from && x == a) &&
              if s == to && x == b then FrameAt(vs[from], a) == w else Maps(vs, s, x, w)
    {
      TurnMaps(vs, from, a, to, b, flags, s, x, w);
    }
    assert !Maps(vs, to, b, FrameAt(vs[from], a));
    hide FrameAt, Moved, Maps;
    forall s, x, w | Maps(vs, s, x, w)
      ensures Held(ws, w)
    {
      if s == from && x == a {
        assert Maps(ws, to, b, w);
      } else {
        NotFree(vs, to, b, s, x, w);
        assert Maps(ws, s, x, w);
      }
    }
  }

  lemma NotFree(vs: Views, to: Addr, b: nat, s: Addr, x: nat, w: Word)
    requires to in vs && b !in vs[to] && Maps(vs, s, x, w)
    ensures !(s == to && x == b) && s in vs
  {
  }

  /** A frame that is mapped nowhere does not come back. */
  lemma TurnBringsNothing(vs: Views, from: Addr, a: nat, to: Addr, b: nat, flags: Word, w: Word)
    requires from in vs && to in vs && w != 0 && !Held(vs, w)
    ensures !Held(Moved(vs, from, a, to, b, flags), w)
  {
    FrameAtMaps(vs, from, a);
    if s, x :| Maps(Moved(vs, from, a, to, b, flags), s, x, w) {
      TurnMaps(vs, from, a, to, b, flags, s, x, w);
    }
  }

  lemma {:induction false} NeverBack(
    vs: Views, from: Addr, p: nat, to: Addr, q: nat, flags: Word, j: nat, k: nat, w: Word)
    requires from in vs && to in vs && w != 0 && j <= k && !Held(MovedPages(vs, from, p, to, q, flags, j), w)
    ensures !Held(MovedPages(vs, from, p, to, q, flags, k), w)
  {
    if j < k {
      NeverBack(vs, from, p, to, q, flags, j, k - 1, w);
      TurnBringsNothing(MovedPages(vs, from, p, to, q, flags, k - 1), from, p + k - 1, to, q + k - 1, flags, w);
    }
  }

  /** The frame of a target page that was mapped is gone after the turn. */
  lemma TurnLoses(vs: Views, from: Addr, a: nat, to: Addr, b: nat, flags: Word)
    requires from in vs && to in vs && Exclusive(vs) && b in vs[to] && !(from == to && a == b)
    ensures var w := FrameOf(vs[to][b]); w != 0 && Held(vs, w) && !Held(Moved(vs, from, a, to, b, flags), w)
  {
    var w := FrameOf(vs[to][b]);
    assert Maps(vs, to, b, w);
    FrameAtMaps(vs, from, a);
    if s, x :| Maps(Moved(vs, from, a, to, b, flags), s, x, w) {
      TurnMaps(vs, from, a, to, b, flags, s, x, w);
    }
  }

  /** Frame zero is mapped below page `end` of the taker. */
  ghost predicate ZeroBelow(vs: Views, to: Addr, end: nat) {
    exists y: nat :: y < end && Maps(vs, to, y, 0)
  }

  lemma TurnZero(vs: Views, from: Addr, a: nat, to: Addr, b: nat, flags: Word)
    requires from in vs && to in vs && !(from == to && a == b)
    requires a !in vs[from] || ZeroBelow(vs, to, b)
    ensures ZeroBelow(Moved(vs, from, a, to, b, flags), to, b + 1)
  {
    var ws := Moved(vs, from, a, to, b, flags);
    FrameAtMaps(vs, from, a);
    TurnMaps(vs, from, a, to, b, flags, to, b, 0);
    if a !in vs[from] {
      assert Maps(ws, to, b, 0);
    } else {
      var y: nat :| y < b && Maps(vs, to, y, 0);
      TurnMaps(vs, from, a, to, b, flags, to, y, 0);
      assert Maps(ws, to, if from == to && y == a then b else y, 0);
    }
  }

  lemma {:induction false} ZeroStays(vs: Views, from: Addr, p: nat, to: Addr, q: nat, flags: Word, j: nat, k: nat)
    requires from in vs && to in vs && !(from == to && p == q) && j <= k
    requires ZeroBelow(MovedPages(vs, from, p, to, q, flags, j), to, q + j)
    ensures ZeroBelow(MovedPages(vs, from, p, to, q, flags, k), to, q + k)
  {
    if j < k {
      ZeroStays(vs, from, p, to, q, flags, j, k - 1);
      TurnZero(MovedPages(vs, from, p, to, q, flags, k - 1), from, p + k - 1, to, q + k - 1, flags);
    }
  }

  /** Turn `j` of the transfer is clean. */
  ghost predicate CleanAt(vs: Views, from: Addr, p: nat, to: Addr, q: nat, flags: Word, j: nat)
    requires from in vs && to in vs
  {
    TurnClean(MovedPages(vs, from, p, to, q, flags, j), from, p + j, to, q + j)
  }

  lemma {:induction false} CleanTurnsConserve(vs: Views, from: Addr, p: nat, to: Addr, q: nat, flags: Word, k: nat)
    requires from in vs && to in vs && Exclusive(vs)
    requires forall j :: 0 <= j < k ==> CleanAt(vs, from, p, to, q, flags, j)
    ensures SameFrames(vs, MovedPages(vs, from, p, to, q, flags, k))
    ensures Exclusive(MovedPages(vs, from, p, to, q, flags, k))
  {
    if k > 0 {
      CleanTurnsConserve(vs, from, p, to, q, flags, k - 1);
      assert CleanAt(vs, from, p, to, q, flags, k - 1);
      TurnConserves(MovedPages(vs, from, p, to, q, flags, k - 1), from, p + k - 1, to, q + k - 1, flags);
    }
  }

  /** The first turn that is not clean loses a frame for good, or brings in frame zero for good. */
  lemma UncleanTurnSpoils(vs: Views, from: Addr, p: nat, to: Addr, q: nat, flags: Word, j: nat, k: nat)
    requires from in vs && to in vs && Exclusive(vs) && !(from == to && p == q) && j < k
    requires forall i :: 0 <= i < j ==> CleanAt(vs, from, p, to, q, flags, i)
    requires !CleanAt(vs, from, p, to, q, flags, j)
    ensures !SameFrames(vs, MovedPages(vs, from, p, to, q, flags, k))
  {
    hide Moved, MovedPages;
    CleanTurnsConserve(vs, from, p, to, q, flags, j);
    var before := MovedPages(vs, from, p, to, q, flags, j);
    MovedPagesNext(vs, from, p, to, q, flags, j);
    if q + j in before[to] {
      var w := FrameOf(before[to][q + j]);
      TurnLoses(before, from, p + j, to, q + j, flags);
      NeverBack(vs, from, p, to, q, flags, j + 1, k, w);
      assert Held(vs, w);
    } else {
      TurnZero(before, from, p + j, to, q + j, flags);
      ZeroStays(vs, from, p, to, q, flags, j + 1, k);
      assert Held(MovedPages(vs, from, p, to, q, flags, k), 0) && !Held(vs, 0);
    }
  }

  // ------------------------------------------------------------------ what is mapped when

  /** Between two spaces a turn finds its source and its target page as they were. */
  lemma BetweenSpaces(vs: Views, from: Addr, p: nat, to: Addr, q: nat, flags: Word, j: nat)
    requires from in vs && to in vs && from != to
    ensures CleanAt(vs, from, p, to, q, flags, j) <==> p + j in vs[from] && q + j !in vs[to]
  {
    MovedPagesAre(vs, from, p, to, q, flags, j);
    GivenAt(vs[from], p, j, p + j);
    GotAt(vs[from], vs[to], p, q, flags, j, q + j);
  }

  lemma {:induction false} WithinSpace(vs: Views, s: Addr, p: nat, q: nat, flags: Word, j: nat, x: nat)
    requires s in vs && p != q
    ensures x in MovedPages(vs, s, p, s, q, flags, j)[s] <==>
            if p < q then (x in vs[s] || q <= x < q + j) && !(p <= x < p + j)
            else (x in vs[s] && !(p <= x < p + j)) || q <= x < q + j
  {
    if j > 0 {
      WithinSpace(vs, s, p, q, flags, j - 1, x);
      var before := MovedPages(vs, s, p, s, q, flags, j - 1);
      assert s in before;
      TurnAt(before, s, p + j - 1, s, q + j - 1, flags, s, x);
    }
  }

  lemma CleanIsCleanTurns(vs: Views, from: Addr, p: nat, to: Addr, q: nat, flags: Word, k: nat)
    requires from in vs && to in vs && !(from == to && p == q)
    ensures Clean(vs, from, p, to, q, k) <==> forall j :: 0 <= j < k ==> CleanAt(vs, from, p, to, q, flags, j)
  {
    forall j | 0 <= j < k
      ensures CleanAt(vs, from, p, to, q, flags, j) <==>
              && (!(from == to && p < q <= p + j) ==> p + j in vs[from])
              && (!(from == to && q < p <= q + j) ==> q + j !in vs[to])
    {
      if from == to {
        WithinSpace(vs, from, p, q, flags, j, p + j);
        WithinSpace(vs, from, p, q, flags, j, q + j);
      } else {
        BetweenSpaces(vs, from, p, to, q, flags, j);
      }
    }
    hide CleanAt;
    if forall j :: 0 <= j < k ==> CleanAt(vs, from, p, to, q, flags, j) {
      forall x | p <= x < p + k && !(from == to && p < q <= x)
        ensures x in vs[from]
      {
        assert CleanAt(vs, from, p, to, q, flags, x - p);
      }
      forall y | q <= y < q + k && !(from == to && q < p <= y)
        ensures y !in vs[to]
      {
        assert CleanAt(vs, from, p, to, q, flags, y - q);
      }
    }
  }

  /** Pages put where they are end up unmapped. */
  lemma {:induction false} SamePlace(vs: Views, s: Addr, p: nat, flags: Word, k: nat, t: Addr, x: nat, w: Word)
    requires s in vs
    ensures Maps(MovedPages(vs, s, p, s, p, flags, k), t, x, w) <==> Maps(vs, t, x, w) && !(t == s && p <= x < p + k)
  {
    if k > 0 {
      SamePlace(vs, s, p, flags, k - 1, t, x, w);
      TurnMaps(MovedPages(vs, s, p, s, p, flags, k - 1), s, p + k - 1, s, p + k - 1, flags, t, x, w);
    }
  }

  lemma SamePlaceConserves(vs: Views, s: Addr, p: nat, flags: Word, k: nat)
    requires s in vs && Exclusive(vs)
    ensures SameFrames(vs, MovedPages(vs, s, p, s, p, flags, k)) <==> Clean(vs, s, p, s, p, k)
    ensures Exclusive(MovedPages(vs, s, p, s, p, flags, k))
  {
    var ws := MovedPages(vs, s, p, s, p, flags, k);
    forall t, x: nat, w
      ensures Maps(ws, t, x, w) <==> Maps(vs, t, x, w) && !(t == s && p <= x < p + k)
    {
      SamePlace(vs, s, p, flags, k, t, x, w);
    }
    hide MovedPages;
    if x :| p <= x < p + k && x in vs[s] {
      assert Maps(vs, s, x, FrameOf(vs[s][x]));
      assert Held(vs, FrameOf(vs[s][x])) && !Held(ws, FrameOf(vs[s][x]));
    } else {
      forall t, x, w | Maps(vs, t, x, w)
        ensures Maps(ws, t, x, w)
      {
      }
    }
  }

  // ------------------------------------------------------------------ the physical pages

  /** A clean transfer, between two spaces or in one, loses no frame, invents none and maps none twice. */
  lemma CleanTransferConserves(vs: Views, from: Addr, p: nat, to: Addr, q: nat, flags: Word, k: nat)
    requires from in vs && to in vs && Exclusive(vs) && Clean(vs, from, p, to, q, k)
    ensures SameFrames(vs, MovedPages(vs, from, p, to, q, flags, k))
    ensures Exclusive(MovedPages(vs, from, p, to, q, flags, k))
  {
    if from == to && p == q {
      SamePlaceConserves(vs, from, p, flags, k);
    } else {
      CleanIsCleanTurns(vs, from, p, to, q, flags, k);
      CleanTurnsConserve(vs, from, p, to, q, flags, k);
    }
  }

  /** Exactly the clean transfers conserve the physical pages. */
  lemma ConservedIffClean(vs: Views, from: Addr, p: nat, to: Addr, q: nat, flags: Word, k: nat)
    requires from in vs && to in vs && Exclusive(vs)
    ensures SameFrames(vs, MovedPages(vs, from, p, to, q, flags, k)) <==> Clean(vs, from, p, to, q, k)
  {
    if from == to && p == q {
      SamePlaceConserves(vs, from, p, flags, k);
    } else if Clean(vs, from, p, to, q, k) {
      CleanTransferConserves(vs, from, p, to, q, flags, k);
    } else {
      CleanIsCleanTurns(vs, from, p, to, q, flags, k);
      var j :| 0 <= j < k && !CleanAt(vs, from, p, to, q, flags, j);
      var i := FirstUnclean(vs, from, p, to, q, flags, j);
      UncleanTurnSpoils(vs, from, p, to, q, flags, i, k);
    }
  }

  /** One page that the giver has not mapped: the transfer succeeds, and the taker has frame zero. */
  lemma UncleanExample()
    ensures var a, b := Addr(0x1000), Addr(0x2000);
            var vs: Views := map[a := map[], b := map[]];
            && Exclusive(vs) && !Clean(vs, a, 0, b, 0, 1)
            && Maps(MovedPages(vs, a, 0, b, 0, ADDR_TAKE, 1), b, 0, 0)
            && !SameFrames(vs, MovedPages(vs, a, 0, b, 0, ADDR_TAKE, 1))
  {
    var a, b := Addr(0x1000), Addr(0x2000);
    var vs: Views := map[a := map[], b := map[]];
    assert a.word != b.word;
    assert 0 !in vs[a];
    hide MovedPages;
    UnmappedSourceMapsZero(vs, a, 0, b, 0, ADDR_TAKE, 1, 0);
    ConservedIffClean(vs, a, 0, b, 0, ADDR_TAKE, 1);
  }

  lemma {:induction false} FirstUnclean(vs: Views, from: Addr, p: nat, to: Addr, q: nat, flags: Word, j: nat)
    returns (i: nat)
    requires from in vs && to in vs && !CleanAt(vs, from, p, to, q, flags, j)
    ensures i <= j && !CleanAt(vs, from, p, to, q, flags, i)
    ensures forall h :: 0 <= h < i ==> CleanAt(vs, from, p, to, q, flags, h)
  {
    hide CleanAt;
    i := j;
    if h :| 0 <= h < j && !CleanAt(vs, from, p, to, q, flags, h) {
      i := FirstUnclean(vs, from, p, to, q, flags, h);
    }
  }

  // ------------------------------------------------------------------ what an acceptance does not check

  /**
   An accepted offer stands, so the offering side's pages can be accepted again. After a clean
   acceptance a second one, from the same source pages or to the same target pages, never conserves.
   */
  lemma SecondAcceptanceSpoils(
    vs: Views, from: Addr, p: nat, to: Addr, q: nat, flags: Word, k: nat, p': nat, q': nat, flags': Word)
    requires from in vs && to in vs && from != to && k > 0 && (p' == p || q' == q)
    requires Exclusive(vs) && Clean(vs, from, p, to, q, k)
    ensures var ws := MovedPages(vs, from, p, to, q, flags, k);
            && !Clean(ws, from, p', to, q', k)
            && !SameFrames(ws, MovedPages(ws, from, p', to, q', flags', k))
  {
    var ws := MovedPages(vs, from, p, to, q, flags, k);
    CleanTransferConserves(vs, from, p, to, q, flags, k);
    PagesMove(vs, from, p, to, q, flags, k, 0);
    assert p !in ws[from] && q in ws[to];
    hide MovedPages, Exclusive;
    ConservedIffClean(ws, from, p', to, q', flags', k);
  }

  /** Page `x` of space `s` is mapped, and may be written. */
  ghost predicate MayWrite(vs: Views, s: Addr, x: nat) {
    s in vs && x in vs[s] && FlagsFromMap(vs[s][x]) & ADDR_WRITE != 0
  }

  /** The transfer of page `j` lets the taker write what the giver could not. */
  ghost predicate Gains(vs: Views, ws: Views, from: Addr, p: nat, to: Addr, q: nat, j: nat) {
    MayWrite(ws, to, q + j) && !MayWrite(vs, from, p + j)
  }

  lemma WritableAt(vs: Views, from: Addr, p: nat, to: Addr, q: nat, flags: Word, k: nat, j: nat)
    requires from in vs && to in vs && from != to && j < k
    ensures MayWrite(MovedPages(vs, from, p, to, q, flags, k), to, q + j) <==> flags & ADDR_WRITE != 0
  {
    MovedPagesAre(vs, from, p, to, q, flags, k);
    GotAt(vs[from], vs[to], p, q, flags, k, q + j);
    FrameIsAligned(if p + j in vs[from] then vs[from][p + j] else 0);
    hide Encode, FlagsFromMap, MovedPages, Got, Aligned, FrameOf;
    DecodeEncode(FrameAt(vs[from], p + j), flags);
  }

  /** Some page of the transfer does. */
  ghost predicate GainsSome(vs: Views, ws: Views, from: Addr, p: nat, to: Addr, q: nat, k: nat) {
    exists j :: 0 <= j < k && Gains(vs, ws, from, p, to, q, j)
  }

  /** The flags of the source pages are not looked at: write permission appears iff asked for and missing. */
  lemma {:induction false} WriteGainedIff(vs: Views, from: Addr, p: nat, to: Addr, q: nat, flags: Word, k: nat)
    requires from in vs && to in vs && from != to
    ensures GainsSome(vs, MovedPages(vs, from, p, to, q, flags, k), from, p, to, q, k) <==>
            flags & ADDR_WRITE != 0 && exists x :: p <= x < p + k && !MayWrite(vs, from, x)
  {
    var ws := MovedPages(vs, from, p, to, q, flags, k);
    forall j | 0 <= j < k
      ensures Gains(vs, ws, from, p, to, q, j) <==> flags & ADDR_WRITE != 0 && !MayWrite(vs, from, p + j)
    {
      WritableAt(vs, from, p, to, q, flags, k, j);
    }
    hide MayWrite, Gains;
    if GainsSome(vs, ws, from, p, to, q, k) {
      var j :| 0 <= j < k && Gains(vs, ws, from, p, to, q, j);
      assert !MayWrite(vs, from, p + j);
    }
    if x :| p <= x < p + k && !MayWrite(vs, from, x) {
      var j := x - p;
      assert x == p + j;
      assert Gains(vs, ws, from, p, to, q, j) <==> flags & ADDR_WRITE != 0;
      assert flags & ADDR_WRITE != 0 ==> GainsSome(vs, ws, from, p, to, q, k);
      assert GainsSome(vs, ws, from, p, to, q, k) ==> flags & ADDR_WRITE != 0;
    }
  }
}
