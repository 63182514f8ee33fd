/**
 Whole runs of proc0's allocator: from the regions the kernel lists, through any requests. A ledger
 adds to the books what they no longer show: the ranges handed out, and those dropped for want of room.
 */
module SectionLedger {
  import opened Common
  import opened SectionBook

  datatype Region = Region(kind: Kind, range: Section)

  datatype Ledger = Ledger(
    book: Book, ramOut: seq<Section>, ramLost: seq<Section>, ioOut: seq<Section>, ioLost: seq<Section>)

  function Gone(l: Ledger, kind: Kind): seq<Section> {
    match kind
    case Ram => l.ramOut + l.ramLost
    case Io => l.ioOut + l.ioLost
  }

  // ------------------------------------------------------------------ initialisation

  /** The regions before the first at address nil. */
  function Listed(rs: seq<Region>): seq<Region> {
    if rs == [] || rs[0].range.start == 0 then [] else [rs[0]] + Listed(rs[1..])
  }

  /** The regions read are those before the first at nil, or all if none is. */
  lemma {:induction false} ListedIsPrefix(rs: seq<Region>) returns (k: nat)
    ensures k <= |rs| && Listed(rs) == rs[..k]
    ensures forall i :: 0 <= i < k ==> rs[i].range.start != 0
    ensures k < |rs| ==> rs[k].range.start == 0
  {
    if rs == [] || rs[0].range.start == 0 {
      k := 0;
    } else {
      var j := ListedIsPrefix(rs[1..]);
      k := j + 1;
      assert rs[..k] == [rs[0]] + rs[1..][..j];
      assert forall i :: 1 <= i < k ==> rs[i] == rs[1..][i - 1];
    }
  }

  function Add(l: Ledger, kind: Kind, x: Section): Ledger {
    var kept := Room(l.book, kind);
    var l' := l.(book := AddrAdd(l.book, kind, x));
    if kept then l'
    else match kind
      case Ram => l'.(ramLost := l.ramLost + [x])
      case Io => l'.(ioLost := l.ioLost + [x])
  }

  /** One turn of init_ram_sections: the first page of the first RAM region is the first holder. */
  function AddRam(l: Ledger, r: Region): Ledger {
    if r.kind != Ram then l
    else if l.book.ram.pages == [] then
      Add(l.(book := l.book.(ram := List([r.range.start], EmptySlots()))), Ram,
          Section(r.range.start + PAGE_SIZE, (r.range.len - PAGE_SIZE) % 0x1_0000_0000))
    else
      Add(l, Ram, r.range)
  }

  function InitRam(rs: seq<Region>): Ledger {
    if rs == [] then Ledger(Book(NO_LIST, NO_LIST), [], [], [], [])
    else AddRam(InitRam(rs[..|rs| - 1]), rs[|rs| - 1])
  }

  /** The start of init_io_sections: its first holder is a page from get_ram. */
  function StartIo(l: Ledger): Ledger {
    var (b, page) := GetRam(l.book, PAGE_SIZE);
    l.(book := b.(io := List([page], EmptySlots())))
  }

  function AddIo(l: Ledger, r: Region): Ledger {
    if r.kind != Io then l else Add(l, Io, r.range)
  }

  function InitIo(l: Ledger, rs: seq<Region>): Ledger {
    if rs == [] then StartIo(l)
    else AddIo(InitIo(l, rs[..|rs| - 1]), rs[|rs| - 1])
  }

  function Init(rs: seq<Region>): Ledger {
    InitIo(InitRam(Listed(rs)), Listed(rs))
  }

  // ------------------------------------------------------------------ requests

  datatype Request = Request(addr: nat, len: nat)

  /** PAGE_ALIGN in 32 bits. */
  function PageAlign(len: nat): nat {
    (len + 4095) % 0x1_0000_0000 / 4096 * 4096
  }

  /** handle_addr_request, up to the offer it then accepts; nil stands for ERR. */
  function Serve(l: Ledger, q: Request): (Ledger, nat) {
    var len := PageAlign(q.len);
    if len == 0 then (l, 0)
    else if q.addr == 0 then
      var (b, r) := GetRam(l.book, len);
      (l.(book := b, ramOut := if r == 0 then l.ramOut else l.ramOut + [Section(r, len)]), r)
    else
      var (b, r) := GetIo(l.book, q.addr, len);
      (l.(book := b,
          ioOut := if r == 0 then l.ioOut else l.ioOut + [Section(r, len)],
          ioLost := if Room(l.book, Io) then l.ioLost else l.ioLost + [Tail(l.book, q.addr, len)]), r)
  }

  /**
   PAGE_ALIGN rounds up to whole pages: the least multiple of a page that covers the length. Only the last
   4095 lengths below 2^32 wrap round, all of them to zero, so what is not zero always covers the request.
   */
  lemma PageAlignCovers(len: nat)
    requires len < WRAP
    ensures PageAlign(len) % PAGE_SIZE == 0 && PageAlign(len) < len + PAGE_SIZE
    ensures PageAlign(len) == 0 <==> len == 0 || WRAP - PAGE_SIZE < len
    ensures PageAlign(len) != 0 ==> len <= PageAlign(len)
  {
    if len + 4095 >= WRAP {
      assert (len + 4095) % 0x1_0000_0000 == len + 4095 - WRAP;
    }
  }

  function ServeAll(l: Ledger, qs: seq<Request>): Ledger {
    if qs == [] then l else Serve(ServeAll(l, qs[..|qs| - 1]), qs[|qs| - 1]).0
  }

  // ------------------------------------------------------------------ what the source needs

  function Ranges(rs: seq<Region>, kind: Kind): seq<Section> {
    if rs == [] then []
    else Ranges(rs[..|rs| - 1], kind) + if rs[|rs| - 1].kind == kind then [rs[|rs| - 1].range] else []
  }

  /** Regions end below the top of the address space. */
  ghost predicate Usable(rs: seq<Region>) {
    forall i :: 0 <= i < |rs| ==> rs[i].range.start > 0 && rs[i].range.End() < WRAP
  }

  /** Room for both first holders: a page in the first RAM region, and then another for I/O. */
  ghost predicate Bootable(rs: seq<Region>) {
    && Usable(Listed(rs))
    && FirstHolds(Listed(rs))
    && GetRam(InitRam(Listed(rs)).book, PAGE_SIZE).1 != 0
  }

  /** The request is for I/O, and its sum wraps round into a match. */
  ghost predicate Wrong(l: Ledger, q: Request) {
    q.addr != 0 && PageAlign(q.len) > 0 && WrongMatch(l.book, q.addr, PageAlign(q.len))
  }

  /** No request of the run is wrong when its turn comes. */
  ghost predicate NeverWrong(l: Ledger, qs: seq<Request>) {
    qs == [] || (NeverWrong(l, qs[..|qs| - 1]) && !Wrong(ServeAll(l, qs[..|qs| - 1]), qs[|qs| - 1]))
  }

  // ------------------------------------------------------------------ conservation

  /** How often `a` is in the ledger: in the books, handed out or dropped. */
  function Total(l: Ledger, kind: Kind, a: nat): nat {
    Held(l.book, kind, a) + Cover(Gone(l, kind), a)
  }

  /** Every address is accounted for as often as the regions of that kind contain it. */
  ghost predicate Accounts(l: Ledger, kind: Kind, rs: seq<Region>) {
    forall a: nat :: Total(l, kind, a) == Cover(Ranges(rs, kind), a)
  }

  ghost predicate Balanced(l: Ledger, rs: seq<Region>) {
    Accounts(l, Ram, rs) && Accounts(l, Io, rs)
  }

  lemma CoverAppend(rs: seq<Section>, x: Section, a: nat)
    ensures Cover(rs + [x], a) == Cover(rs, a) + Count(x, a)
  {
    CoverConcat(rs, [x], a);
    CoverOne(x, a);
  }

  lemma CoverGone(l: Ledger, kind: Kind, a: nat)
    ensures Cover(Gone(l, kind), a) == match kind
            case Ram => Cover(l.ramOut, a) + Cover(l.ramLost, a)
            case Io => Cover(l.ioOut, a) + Cover(l.ioLost, a)
  {
    CoverConcat(l.ramOut, l.ramLost, a);
    CoverConcat(l.ioOut, l.ioLost, a);
  }

  lemma AddBalance(l: Ledger, to: Kind, x: Section, kind: Kind, a: nat)
    requires Bounded(l.book)
    ensures var l' := Add(l, to, x);
            Total(l', kind, a) == Total(l, kind, a) + if kind == to then Count(x, a) else 0
  {
    AddrAddHeld(l.book, to, x, kind, a);
    CoverGone(l, kind, a);
    CoverGone(Add(l, to, x), kind, a);
    CoverAppend(l.ramLost, x, a);
    CoverAppend(l.ioLost, x, a);
  }

  lemma ServeBalance(l: Ledger, q: Request, kind: Kind, a: nat)
    requires Bounded(l.book) && !Wrong(l, q)
    ensures var l' := Serve(l, q).0;
            Total(l', kind, a) == Total(l, kind, a)
  {
    var len := PageAlign(q.len);
    hide PageAlign, Cover, Held, Room, Tail, Gone, GetIo, GetRam;
    if len > 0 {
      CoverGone(l, kind, a);
      CoverGone(Serve(l, q).0, kind, a);
      if q.addr == 0 {
        GetRamHeld(l.book, len, kind, a);
        CoverAppend(l.ramOut, Section(GetRam(l.book, len).1, len), a);
      } else {
        GetIoHeld(l.book, q.addr, len, a);
        GetIoRamHeld(l.book, q.addr, len, a);
        CoverAppend(l.ioOut, Section(GetIo(l.book, q.addr, len).1, len), a);
        CoverAppend(l.ioLost, Tail(l.book, q.addr, len), a);
      }
    }
  }

  lemma ServeBounded(l: Ledger, q: Request)
    requires Bounded(l.book) && !Wrong(l, q)
    ensures Bounded(Serve(l, q).0.book)
  {
    var len := PageAlign(q.len);
    if len > 0 {
      GetRamBounded(l.book, len);
      if q.addr != 0 {
        GetIoBounded(l.book, q.addr, len);
      }
    }
  }

  /** A run without a wrong request keeps the balance. */
  lemma {:induction false} ServeAllBalanced(l: Ledger, qs: seq<Request>, rs: seq<Region>)
    requires Bounded(l.book) && Balanced(l, rs) && NeverWrong(l, qs)
    ensures Bounded(ServeAll(l, qs).book) && Balanced(ServeAll(l, qs), rs)
  {
    if qs != [] {
      var before, last := ServeAll(l, qs[..|qs| - 1]), qs[|qs| - 1];
      ServeAllBalanced(l, qs[..|qs| - 1], rs);
      ServeBounded(before, last);
      forall a: nat
        ensures Total(ServeAll(l, qs), Ram, a) == Total(before, Ram, a)
        ensures Total(ServeAll(l, qs), Io, a) == Total(before, Io, a)
      {
        ServeBalance(before, last, Ram, a);
        ServeBalance(before, last, Io, a);
      }
    }
  }

  lemma AddBounded(l: Ledger, to: Kind, x: Section)
    requires Bounded(l.book) && x.End() < WRAP && NotNil(x)
    ensures Bounded(Add(l, to, x).book)
    ensures |Of(Add(l, to, x).book, to).pages| >= |Of(l.book, to).pages|
    ensures to == Ram ==>
              var l' := Add(l, to, x); l'.book.io == l.book.io && l'.ioOut == l.ioOut && l'.ioLost == l.ioLost
    ensures to == Io ==> |Add(l, to, x).book.ram.pages| == |l.book.ram.pages|
  {
    AddrAddBounded(l.book, to, x);
  }

  /** The ledger after the RAM regions: nothing for I/O yet, and no list until there is a RAM region. */
  ghost predicate RamStage(l: Ledger, rs: seq<Region>) {
    && Bounded(l.book) && l.book.io == NO_LIST && l.ioOut == [] && l.ioLost == []
    && (l.book.ram.pages == [] <==> Ranges(rs, Ram) == [])
    && (l.book.ram.pages == [] ==> l.book.ram == NO_LIST)
    && Accounts(l, Ram, rs)
  }

  lemma EmptyBookHolds(start: nat, a: nat)
    ensures Held(Book(List([start], EmptySlots()), NO_LIST), Ram, a) == Count(Section(start, PAGE_SIZE), a)
    ensures Held(Book(NO_LIST, NO_LIST), Ram, a) == 0
  {
    CoverNothing(EmptySlots(), a);
    CoverHolder([], start, a);
    assert [] + [start] == [start];
  }

  lemma RangesMore(rs: seq<Region>, r: Region, kind: Kind, a: nat)
    ensures Cover(Ranges(rs + [r], kind), a) ==
            Cover(Ranges(rs, kind), a) + if r.kind == kind then Count(r.range, a) else 0
    ensures Ranges(rs + [r], kind) == [] <==> Ranges(rs, kind) == [] && r.kind != kind
  {
    assert (rs + [r])[..|rs|] == rs;
    CoverAppend(Ranges(rs, kind), r.range, a);
    assert Ranges(rs, kind) + [] == Ranges(rs, kind);
  }

  /** The ledger with its first RAM holder, at the start of `r`, and what follows the holder there. */
  function FirstHolder(l: Ledger, r: Region): Ledger {
    l.(book := l.book.(ram := List([r.range.start], EmptySlots())))
  }

  function AfterHolder(r: Region): Section
    requires r.range.len >= PAGE_SIZE
  {
    Section(r.range.start + PAGE_SIZE, r.range.len - PAGE_SIZE)
  }

  lemma FirstRamIs(l: Ledger, r: Region)
    requires l.book.ram.pages == [] && r.kind == Ram && PAGE_SIZE <= r.range.len < WRAP
    ensures AddRam(l, r) == Add(FirstHolder(l, r), Ram, AfterHolder(r))
    ensures Room(FirstHolder(l, r).book, Ram)
  {
    assert Free()(EmptySlots()[0]) && First(EmptySlots(), Free()) == 0;
  }

  /** The first holder's page joins the books. */
  lemma FirstHolderTotal(l: Ledger, r: Region, a: nat)
    requires l.book == Book(NO_LIST, NO_LIST)
    ensures Total(FirstHolder(l, r), Ram, a) == Total(l, Ram, a) + Count(Section(r.range.start, PAGE_SIZE), a)
  {
    EmptyBookHolds(r.range.start, a);
    hide Held, Cover;
  }

  lemma FirstRamBalance(l: Ledger, r: Region, rs: seq<Region>, a: nat)
    requires RamStage(l, rs) && l.book.ram.pages == [] && r.kind == Ram
    requires PAGE_SIZE <= r.range.len < WRAP && Bounded(FirstHolder(l, r).book)
    ensures Total(AddRam(l, r), Ram, a) == Cover(Ranges(rs + [r], Ram), a)
  {
    hide Total, Cover, Ranges, FirstHolder, Add, AddRam, Room, Bounded;
    FirstRamIs(l, r);
    FirstHolderTotal(l, r, a);
    AddBalance(FirstHolder(l, r), Ram, AfterHolder(r), Ram, a);
    RangesMore(rs, r, Ram, a);
  }

  lemma FirstHolderBounded(l: Ledger, r: Region)
    requires l.book.ram.pages == [] && l.book.io == NO_LIST
    requires PAGE_SIZE <= r.range.len && 0 < r.range.start && r.range.End() < WRAP
    ensures Bounded(FirstHolder(l, r).book) && NotNil(AfterHolder(r)) && AfterHolder(r).End() < WRAP
    ensures FirstHolder(l, r).book.io == l.book.io && |FirstHolder(l, r).book.ram.pages| == 1
    ensures FirstHolder(l, r).ioOut == l.ioOut && FirstHolder(l, r).ioLost == l.ioLost
  {
  }

  lemma FirstRam(l: Ledger, r: Region, rs: seq<Region>)
    requires RamStage(l, rs) && l.book.ram.pages == [] && r.kind == Ram
    requires r.range.start > 0 && r.range.End() < WRAP && r.range.len >= PAGE_SIZE
    ensures RamStage(AddRam(l, r), rs + [r])
  {
    hide Add, AddRam, Total, Ranges, FirstHolder, AfterHolder, Bounded;
    FirstRamIs(l, r);
    FirstHolderBounded(l, r);
    AddBounded(FirstHolder(l, r), Ram, AfterHolder(r));
    RangesMore(rs, r, Ram, 0);
    forall a: nat {
      FirstRamBalance(l, r, rs, a);
    }
  }

  lemma NextRam(l: Ledger, r: Region, rs: seq<Region>)
    requires RamStage(l, rs) && (l.book.ram.pages != [] || r.kind != Ram)
    requires r.range.start > 0 && r.range.End() < WRAP
    ensures RamStage(AddRam(l, r), rs + [r])
  {
    RangesMore(rs, r, Ram, 0);
    if r.kind == Ram {
      AddBounded(l, Ram, r.range);
    }
    forall a: nat
      ensures Total(AddRam(l, r), Ram, a) == Cover(Ranges(rs + [r], Ram), a)
    {
      AddBalance(l, Ram, r.range, Ram, a);
      RangesMore(rs, r, Ram, a);
    }
  }

  /** Each region that starts the RAM list has room for its first holder. */
  ghost predicate FirstHolds(rs: seq<Region>) {
    forall i :: 0 <= i < |rs| && rs[i].kind == Ram && Ranges(rs[..i], Ram) == [] ==> rs[i].range.len >= PAGE_SIZE
  }

  lemma {:induction false} RamStages(rs: seq<Region>)
    requires Usable(rs) && FirstHolds(rs)
    ensures RamStage(InitRam(rs), rs)
  {
    if rs == [] {
      forall a: nat {
        EmptyBookHolds(0, a);
      }
    } else {
      var before, r := rs[..|rs| - 1], rs[|rs| - 1];
      assert rs == before + [r];
      forall i | 0 <= i < |before|
        ensures before[..i] == rs[..i]
      {
      }
      RamStages(before);
      if InitRam(before).book.ram.pages == [] && r.kind == Ram {
        FirstRam(InitRam(before), r, before);
      } else {
        NextRam(InitRam(before), r, before);
      }
    }
  }

  /** The ledger when the I/O regions `ks` have been added to what all of `rs` gave. */
  ghost predicate IoStage(l: Ledger, rs: seq<Region>, ks: seq<Region>) {
    && Bounded(l.book) && l.book.ram.pages != [] && l.book.io.pages != []
    && Accounts(l, Ram, rs) && Accounts(l, Io, ks)
  }

  lemma StartIoTotal(l: Ledger, rs: seq<Region>, a: nat)
    requires RamStage(l, rs) && GetRam(l.book, PAGE_SIZE).1 != 0
    ensures Total(StartIo(l), Ram, a) == Total(l, Ram, a) && Total(StartIo(l), Io, a) == 0
  {
    var (_, page) := GetRam(l.book, PAGE_SIZE);
    GetRamHeld(l.book, PAGE_SIZE, Ram, a);
    CoverHolder([], page, a);
    assert [] + [page] == [page];
    CoverNothing(EmptySlots(), a);
  }

  lemma StartIoStage(l: Ledger, rs: seq<Region>)
    requires RamStage(l, rs) && GetRam(l.book, PAGE_SIZE).1 != 0
    ensures IoStage(StartIo(l), rs, [])
  {
    GetRamBounded(l.book, PAGE_SIZE);
    forall a: nat {
      StartIoTotal(l, rs, a);
    }
    hide Total, GetRam;
  }

  lemma {:induction false} IoStages(l: Ledger, rs: seq<Region>, ks: seq<Region>)
    requires RamStage(l, rs) && GetRam(l.book, PAGE_SIZE).1 != 0 && Usable(ks)
    ensures IoStage(InitIo(l, ks), rs, ks)
  {
    if ks == [] {
      StartIoStage(l, rs);
    } else {
      var before, r := ks[..|ks| - 1], ks[|ks| - 1];
      assert ks == before + [r];
      IoStages(l, rs, before);
      AddIoStage(InitIo(l, before), rs, before, r);
    }
  }

  lemma AddIoStage(l: Ledger, rs: seq<Region>, ks: seq<Region>, r: Region)
    requires IoStage(l, rs, ks) && r.range.start > 0 && r.range.End() < WRAP
    ensures IoStage(AddIo(l, r), rs, ks + [r])
  {
    if r.kind == Io {
      AddBounded(l, Io, r.range);
    }
    forall a: nat
      ensures Total(AddIo(l, r), Ram, a) == Cover(Ranges(rs, Ram), a)
      ensures Total(AddIo(l, r), Io, a) == Cover(Ranges(ks + [r], Io), a)
    {
      AddBalance(l, Io, r.range, Ram, a);
      AddBalance(l, Io, r.range, Io, a);
      RangesMore(ks, r, Io, a);
    }
  }

  /** After initialisation every address of the regions is accounted for, and nothing else is. */
  lemma InitBalanced(rs: seq<Region>)
    requires Bootable(rs)
    ensures var l := Init(rs);
            Bounded(l.book) && l.book.ram.pages != [] && l.book.io.pages != [] && Balanced(l, Listed(rs))
  {
    RamStages(Listed(rs));
    IoStages(InitRam(Listed(rs)), Listed(rs), Listed(rs));
  }

  // ------------------------------------------------------------------ what the balance means

  /** Every range there is after a run: free, given out, dropped, or a page of a list. */
  function Everything(l: Ledger): seq<Section> {
    l.book.ram.slots + Holders(l.book.ram.pages) + Holders(l.book.io.pages) + l.book.io.slots
    + Gone(l, Ram) + Gone(l, Io)
  }

  ghost predicate Disjoint(xs: seq<Section>) {
    forall i, j, a: nat :: 0 <= i < j < |xs| && xs[i].Has(a) ==> !xs[j].Has(a)
  }

  lemma {:induction false} DisjointCover(xs: seq<Section>, a: nat)
    requires Disjoint(xs)
    ensures Cover(xs, a) <= 1
  {
    if xs != [] {
      forall i, j, c: nat | 0 <= i < j < |xs[1..]| && xs[1..][i].Has(c)
        ensures !xs[1..][j].Has(c)
      {
        assert xs[i + 1].Has(c);
      }
      DisjointCover(xs[1..], a);
      if xs[0].Has(a) {
        forall j | 0 <= j < |xs[1..]|
          ensures !xs[1..][j].Has(a)
        {
          assert xs[j + 1] == xs[1..][j];
        }
        CoverOutside(xs[1..], a);
      }
    }
  }

  lemma EverythingCover(l: Ledger, a: nat)
    ensures Cover(Everything(l), a) == Total(l, Ram, a) + Total(l, Io, a)
  {
    var s, h, i, f := l.book.ram.slots, Holders(l.book.ram.pages), Holders(l.book.io.pages), l.book.io.slots;
    CoverConcat(s, h, a);
    CoverConcat(s + h, i, a);
    CoverConcat(s + h + i, f, a);
    CoverConcat(s + h + i + f, Gone(l, Ram), a);
    CoverConcat(s + h + i + f + Gone(l, Ram), Gone(l, Io), a);
  }

  ghost predicate Runs(rs: seq<Region>, qs: seq<Request>) {
    Bootable(rs) && NeverWrong(Init(rs), qs)
  }

  /** All the memory the kernel listed. */
  function Memory(rs: seq<Region>): seq<Section> {
    Ranges(Listed(rs), Ram) + Ranges(Listed(rs), Io)
  }

  // ------------------------------------------------------------------ answers

  /**
   What a request gets. None for length zero or one that does not fit in 32 bits when rounded up. Otherwise
   `size`, the length in whole pages: from RAM iff a section is long enough, from I/O at the very address
   asked for iff a single section contains it all. What is handed out goes into the ledger of its kind.
   */
  lemma ServeAnswers(l: Ledger, q: Request) returns (size: nat)
    requires Bounded(l.book) && q.addr < WRAP && q.len < WRAP && !Wrong(l, q)
    ensures size % PAGE_SIZE == 0 && size < q.len + PAGE_SIZE
    ensures q.len == 0 || WRAP - PAGE_SIZE < q.len ==> Serve(l, q) == (l, 0)
    ensures 0 < q.len <= WRAP - PAGE_SIZE ==>
              var r, l' := Serve(l, q).1, Serve(l, q).0;
              && q.len <= size
              && (q.addr == 0 ==>
                    && (r != 0 <==> exists i :: 0 <= i < |l.book.ram.slots| && l.book.ram.slots[i].len >= size)
                    && l'.ramOut == (if r != 0 then l.ramOut + [Section(r, size)] else l.ramOut)
                    && l'.ioOut == l.ioOut)
              && (q.addr != 0 ==>
                    && r == (if Contained(l.book, q.addr, size) then q.addr else 0)
                    && l'.ioOut == (if r != 0 then l.ioOut + [Section(q.addr, size)] else l.ioOut)
                    && l'.ramOut == l.ramOut)
  {
    size := PageAlign(q.len);
    PageAlignCovers(q.len);
    if size > 0 {
      hide PageAlign, GetRam, GetIo, Tail, Contained, Room;
      if q.addr == 0 {
        var i := GetRamFirstFit(l.book, size);
        assert i < |l.book.ram.slots| ==> GetRam(l.book, size).1 != 0;
      } else {
        IoNilIff(l.book, q.addr, size);
      }
    }
  }

  // ------------------------------------------------------------------ runs that keep the balance

  /** The last address of all has been handed out as I/O. */
  ghost predicate TopOut(l: Ledger) {
    exists i :: 0 <= i < |l.ioOut| && l.ioOut[i].Has(WRAP - 1)
  }

  lemma OutStays(l: Ledger, q: Request)
    ensures l.ioOut <= Serve(l, q).0.ioOut
  {
    hide GetIo, GetRam, Tail, PageAlign;
  }

  lemma WrongTakesTop(l: Ledger, q: Request)
    requires Wrong(l, q) && q.addr < WRAP
    ensures TopOut(Serve(l, q).0)
  {
    var len := PageAlign(q.len);
    assert GetIo(l.book, q.addr, len).1 == q.addr;
    var out := Serve(l, q).0.ioOut;
    assert out == l.ioOut + [Section(q.addr, len)];
    assert out[|l.ioOut|].Has(WRAP - 1);
  }

  lemma {:induction false} TopOutAtEnd(l: Ledger, qs: seq<Request>)
    requires !NeverWrong(l, qs) && forall i :: 0 <= i < |qs| ==> qs[i].addr < WRAP
    ensures TopOut(ServeAll(l, qs))
  {
    var before, q := ServeAll(l, qs[..|qs| - 1]), qs[|qs| - 1];
    OutStays(before, q);
    if NeverWrong(l, qs[..|qs| - 1]) {
      WrongTakesTop(before, q);
    } else {
      TopOutAtEnd(l, qs[..|qs| - 1]);
      var i :| 0 <= i < |before.ioOut| && before.ioOut[i].Has(WRAP - 1);
      assert Serve(before, q).0.ioOut[i].Has(WRAP - 1);
    }
  }

  /** A run of 32-bit requests ends with every address of the regions accounted for iff none of them was wrong. */
  lemma {:induction false} BalancedIffNeverWrong(rs: seq<Region>, qs: seq<Request>)
    requires Bootable(rs) && forall i :: 0 <= i < |qs| ==> qs[i].addr < WRAP
    ensures Balanced(ServeAll(Init(rs), qs), Listed(rs)) <==> NeverWrong(Init(rs), qs)
  {
    InitBalanced(rs);
    if NeverWrong(Init(rs), qs) {
      ServeAllBalanced(Init(rs), qs, Listed(rs));
    } else {
      TopOutAtEnd(Init(rs), qs);
      TopIsNotListed(ServeAll(Init(rs), qs), Listed(rs));
    }
  }

  lemma TopIsNotListed(l: Ledger, rs: seq<Region>)
    requires TopOut(l) && Usable(rs)
    ensures !Accounts(l, Io, rs)
  {
    var top := WRAP - 1;
    var i :| 0 <= i < |l.ioOut| && l.ioOut[i].Has(top);
    CoverAtLeast(l.ioOut, i, top);
    CoverGone(l, Io, top);
    if Cover(Ranges(rs, Io), top) > 0 {
      CoveredIsListed(rs, Io, top);
    }
    assert Total(l, Io, top) > Cover(Ranges(rs, Io), top);
  }

  /** One RAM region of a megabyte: proc0 grants the last page of the address space, which nobody listed. */
  lemma WrongMatchExample()
    ensures var l := Init([Region(Ram, Section(0x8000_0000, 0x10_0000))]);
            && Bootable([Region(Ram, Section(0x8000_0000, 0x10_0000))])
            && Wrong(l, Request(0xFFFF_F000, 0x1000)) && Serve(l, Request(0xFFFF_F000, 0x1000)).1 == 0xFFFF_F000
  {
    var r := Region(Ram, Section(0x8000_0000, 0x10_0000));
    OneRegionBoots(r);
    EmptyIoGrants(Init([r]), 0xFFFF_F000, 0x1000);
  }

  lemma OneRegionBoots(r: Region)
    requires r.kind == Ram && 0 < r.range.start && r.range.End() < WRAP && 2 * PAGE_SIZE <= r.range.len
    ensures Listed([r]) == [r] && Bootable([r]) && Init([r]).book.io.slots == EmptySlots()
  {
    assert Listed([r]) == [r];
    assert [r][..0] == [];
    var l := InitRam([]);
    FirstRamIs(l, r);
    assert InitRam([r]) == AddRam(l, r);
    assert First(EmptySlots(), Free()) == 0;
    assert InitRam([r]).book.ram.slots[0] == AfterHolder(r);
    assert First(InitRam([r]).book.ram.slots, Fits(PAGE_SIZE)) == 0;
    assert InitIo(InitRam([r]), [r]) == AddIo(InitIo(InitRam([r]), []), r);
  }

  /** An empty I/O slot, at nil, passes for a match when the sum wraps to nil. */
  lemma EmptyIoGrants(l: Ledger, addr: nat, len: nat)
    requires l.book.io.slots == EmptySlots() && 0 < addr && 0 < len && addr + len == WRAP && PageAlign(len) == len
    ensures Wrong(l, Request(addr, len)) && Serve(l, Request(addr, len)).1 == addr
  {
    assert Holds(addr, len)(l.book.io.slots[0]);
    assert First(l.book.io.slots, Holds(addr, len)) == 0;
  }

  /** Whatever the regions contain, and however often, is what there is after any run. */
  lemma NothingLostOrInvented(rs: seq<Region>, qs: seq<Request>, a: nat)
    requires Runs(rs, qs)
    ensures Cover(Everything(ServeAll(Init(rs), qs)), a) == Cover(Memory(rs), a)
  {
    InitBalanced(rs);
    hide Listed, Init, Total;
    ServeAllBalanced(Init(rs), qs, Listed(rs));
    EverythingCover(ServeAll(Init(rs), qs), a);
    CoverConcat(Ranges(Listed(rs), Ram), Ranges(Listed(rs), Io), a);
  }

  /** If the regions do not overlap, nothing handed out, free, dropped or used for a list ever does. */
  lemma NothingOverlaps(rs: seq<Region>, qs: seq<Request>)
    requires Runs(rs, qs) && Disjoint(Memory(rs))
    ensures Disjoint(Everything(ServeAll(Init(rs), qs)))
  {
    var xs := Everything(ServeAll(Init(rs), qs));
    forall i, j, a: nat | 0 <= i < j < |xs| && xs[i].Has(a)
      ensures !xs[j].Has(a)
    {
      NothingLostOrInvented(rs, qs, a);
      DisjointCover(Memory(rs), a);
      if xs[j].Has(a) {
        CoverTwice(xs, i, j, a);
      }
    }
  }

  /** RAM that a run hands out is RAM the kernel listed, and I/O is listed I/O. */
  lemma HandedOutIsListed(rs: seq<Region>, qs: seq<Request>, kind: Kind, i: nat, a: nat)
    requires Runs(rs, qs)
    requires var out := Gone(ServeAll(Init(rs), qs), kind); i < |out| && out[i].Has(a)
    ensures exists k :: 0 <= k < |Listed(rs)| && Listed(rs)[k].kind == kind && Listed(rs)[k].range.Has(a)
  {
    InitBalanced(rs);
    ServeAllBalanced(Init(rs), qs, Listed(rs));
    var l := ServeAll(Init(rs), qs);
    CoverAtLeast(Gone(l, kind), i, a);
    assert Total(l, kind, a) == Cover(Ranges(Listed(rs), kind), a);
    CoveredIsListed(Listed(rs), kind, a);
  }

  lemma {:induction false} CoveredIsListed(rs: seq<Region>, kind: Kind, a: nat)
    requires Cover(Ranges(rs, kind), a) > 0
    ensures exists k :: 0 <= k < |rs| && rs[k].kind == kind && rs[k].range.Has(a)
  {
    if rs != [] {
      var before, r := rs[..|rs| - 1], rs[|rs| - 1];
      assert rs == before + [r];
      RangesMore(before, r, kind, a);
      if Cover(Ranges(before, kind), a) > 0 {
        CoveredIsListed(before, kind, a);
      }
    }
  }

  // ------------------------------------------------------------------ alignment

  predicate Paged(s: Section) { s.start % 4096 == 0 && s.len % 4096 == 0 }

  ghost predicate AllPaged(xs: seq<Section>) {
    forall i :: 0 <= i < |xs| ==> Paged(xs[i])
  }

  ghost predicate RamPaged(l: Ledger) {
    && AllPaged(l.book.ram.slots) && AllPaged(l.ramOut)
    && AllPaged(Holders(l.book.ram.pages)) && AllPaged(Holders(l.book.io.pages))
  }

  lemma GetRamPaged(b: Book, len: nat)
    requires AllPaged(b.ram.slots) && len % 4096 == 0
    ensures var (b', r) := GetRam(b, len);
            AllPaged(b'.ram.slots) && r % 4096 == 0 && b'.ram.pages == b.ram.pages && b'.io == b.io
  {
  }

  lemma AddPaged(l: Ledger, kind: Kind, x: Section)
    requires RamPaged(l) && (kind == Ram ==> Paged(x))
    ensures RamPaged(Add(l, kind, x))
  {
    GetRamPaged(l.book, PAGE_SIZE);
    var page := GetRam(l.book, PAGE_SIZE).1;
    var pages := Of(l.book, kind).pages;
    assert Holders(pages + [page]) == Holders(pages) + [Section(page, PAGE_SIZE)];
  }

  lemma ServePaged(l: Ledger, q: Request)
    requires RamPaged(l)
    ensures RamPaged(Serve(l, q).0)
  {
    var len := PageAlign(q.len);
    GetRamPaged(l.book, len);
    var i := First(l.book.io.slots, Holds(q.addr, len));
    if i < |l.book.io.slots| {
      var sum := (q.addr + len) % 0x1_0000_0000;
      AddPaged(l, Io, Section(sum, l.book.io.slots[i].End() - sum));
    }
  }

  lemma AddRamPaged(l: Ledger, r: Region)
    requires RamPaged(l) && (r.kind == Ram ==> Paged(r.range))
    requires l.book.ram.pages == [] && r.kind == Ram ==> PAGE_SIZE <= r.range.len < WRAP
    ensures RamPaged(AddRam(l, r))
  {
    if r.kind == Ram {
      if l.book.ram.pages == [] {
        FirstRamIs(l, r);
        AddPaged(FirstHolder(l, r), Ram, AfterHolder(r));
      } else {
        AddPaged(l, Ram, r.range);
      }
    }
  }

  ghost predicate PagedRegions(rs: seq<Region>) {
    forall i :: 0 <= i < |rs| && rs[i].kind == Ram ==> Paged(rs[i].range)
  }

  lemma {:induction false} InitRamPaged(rs: seq<Region>)
    requires Usable(rs) && FirstHolds(rs) && PagedRegions(rs)
    ensures RamPaged(InitRam(rs))
  {
    if rs != [] {
      var before, r := rs[..|rs| - 1], rs[|rs| - 1];
      forall i | 0 <= i < |before|
        ensures before[..i] == rs[..i]
      {
      }
      RamStages(before);
      InitRamPaged(before);
      AddRamPaged(InitRam(before), r);
    }
  }

  lemma {:induction false} InitIoPaged(l: Ledger, ks: seq<Region>)
    requires RamPaged(l) && l.book.io == NO_LIST
    ensures RamPaged(InitIo(l, ks))
  {
    if ks == [] {
      GetRamPaged(l.book, PAGE_SIZE);
    } else {
      InitIoPaged(l, ks[..|ks| - 1]);
      AddPaged(InitIo(l, ks[..|ks| - 1]), Io, ks[|ks| - 1].range);
    }
  }

  /** RAM regions of whole pages: all RAM ever handed out, kept free or used for lists is whole pages. */
  lemma {:induction false} RamStaysPaged(rs: seq<Region>, qs: seq<Request>)
    requires Bootable(rs) && PagedRegions(Listed(rs))
    ensures RamPaged(ServeAll(Init(rs), qs))
  {
    if qs == [] {
      RamStages(Listed(rs));
      InitRamPaged(Listed(rs));
      InitIoPaged(InitRam(Listed(rs)), Listed(rs));
    } else {
      RamStaysPaged(rs, qs[..|qs| - 1]);
      ServePaged(ServeAll(Init(rs), qs[..|qs| - 1]), qs[|qs| - 1]);
    }
  }
}
