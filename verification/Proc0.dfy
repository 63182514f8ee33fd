/** The allocator as proc0 runs it (am335x/proc0/main.c): lists of holders, searched and changed in place. */
module Proc0 {
  import opened Common
  import opened PageTable
  import opened SectionBook
  import opened SectionLedger

  /** Holder `h` of a list keeps its section `i` here. */
  function At(h: nat, i: nat): nat { PER_PAGE * h + i }

  /** The arguments of addr_accept. */
  datatype Accept = Accept(pid: int, start: nat, len: nat, flags: Word)

  /** Readable and writable, not taking, and cached exactly for RAM. */
  function GrantFlags(ram: bool): (flags: Word)
    ensures flags & ADDR_READ != 0 && flags & ADDR_WRITE != 0 && flags & ADDR_TAKE == 0
    ensures flags & ADDR_CACHE != 0 <==> ram
  {
    if ram then 14 else 6
  }

  class Allocator {
    var ram: List
    var io: List
    ghost var ledger: Ledger

    /** Holders are pages of 511 sections, and the ledger is about these books. */
    ghost predicate Valid()
      reads this
    {
      Shaped() && ledger.book == Books()
    }

    ghost predicate Shaped()
      reads this
    {
      |ram.slots| == PER_PAGE * |ram.pages| && |io.slots| == PER_PAGE * |io.pages|
    }

    function Books(): Book
      reads this
    {
      Book(ram, io)
    }

    method GetRam(len: nat) returns (r: nat)
      requires Shaped()
      modifies this`ram
      ensures Shaped() && (Books(), r) == SectionBook.GetRam(old(Books()), len)
    {
      var h := 0;
      while h < |ram.pages|
        invariant h <= |ram.pages| && ram == old(ram)
        invariant forall j :: 0 <= j < At(h, 0) ==> !Fits(len)(ram.slots[j])
      {
        var i := 0;
        while i < PER_PAGE
          invariant i <= PER_PAGE && ram == old(ram)
          invariant forall j :: 0 <= j < At(h, i) ==> !Fits(len)(ram.slots[j])
        {
          var s := ram.slots[At(h, i)];
          if s.len >= len {
            FirstIs(ram.slots, Fits(len), At(h, i));
            ram := ram.(slots := ram.slots[At(h, i) := Section(s.start, s.len - len)]);
            return s.start + (s.len - len);
          }
          i := i + 1;
        }
        h := h + 1;
      }
      FirstIs(ram.slots, Fits(len), |ram.slots|);
      return 0;
    }

    /** Where the code has a pointer to a list. */
    method SetList(kind: Kind, l: List)
      modifies this`ram, this`io
      ensures Books() == With(old(Books()), kind, l)
    {
      match kind
      case Ram => ram := l;
      case Io => io := l;
    }

    method AddrAdd(kind: Kind, start: nat, len: nat)
      requires Shaped() && Of(Books(), kind).pages != []
      modifies this`ram, this`io
      ensures Shaped() && Books() == SectionBook.AddrAdd(old(Books()), kind, Section(start, len))
      ensures Of(Books(), kind).pages != []
    {
      var h := 0;
      ghost var grown := false;
      while h < |Of(Books(), kind).pages|
        invariant Shaped() && h <= |Of(Books(), kind).pages|
        invariant !grown ==> Books() == old(Books()) && h < |Of(Books(), kind).pages|
        invariant !grown ==> forall j :: 0 <= j < At(h, 0) ==> !Free()(Of(Books(), kind).slots[j])
        invariant grown ==> h + 1 == |Of(Books(), kind).pages| && Of(Books(), kind).slots[At(h, 0)].len == 0
        invariant grown ==>
                    var l := Of(Books(), kind);
                    With(Books(), kind, l.(slots := l.slots[At(h, 0) := Section(start, len)]))
                    == SectionBook.AddrAdd(old(Books()), kind, Section(start, len))
        decreases if grown then 0 else 1, |Of(Books(), kind).pages| - h
      {
        var l := Of(Books(), kind);
        var i := 0;
        while i < PER_PAGE
          invariant i <= PER_PAGE && Of(Books(), kind) == l
          invariant grown ==> i == 0
          invariant !grown ==> forall j :: 0 <= j < At(h, i) ==> !Free()(l.slots[j])
        {
          if l.slots[At(h, i)].len == 0 {
            if !grown {
              FirstIs(l.slots, Free(), At(h, i));
            }
            SetList(kind, l.(slots := l.slots[At(h, i) := Section(start, len)]));
            return;
          }
          i := i + 1;
        }
        if h + 1 == |l.pages| {
          FirstIs(l.slots, Free(), |l.slots|);
          var page := GetRam(PAGE_SIZE);
          if page == 0 {
            return;
          }
          l := Of(Books(), kind);
          Grown(l, page, Section(start, len));
          SetList(kind, List(l.pages + [page], l.slots + EmptySlots()));
          grown := true;
        }
        h := h + 1;
      }
    }
  
    /** The branch of get_io that found section `k`: what follows `sum` in it becomes a section of its own. */
    method Carve(k: nat, sum: nat, addr: nat)
      requires Shaped() && io.pages != [] && k < |io.slots|
      modifies this`ram, this`io
      ensures Shaped() && k < |AddRest(old(Books()), sum, old(io).slots[k].End()).io.slots|
      ensures Books() == CutAt(AddRest(old(Books()), sum, old(io).slots[k].End()), k, addr) && io.pages != []
    {
      hide SectionBook.AddrAdd;
      var s := io.slots[k];
      AddRestKeepsSlots(Books(), sum, s.End());
      if sum < s.End() {
        AddrAdd(Io, sum, s.End() - sum);
      }
      var t := io.slots[k];
      io := io.(slots := io.slots[k := Section(t.start, (addr - t.start) % 0x1_0000_0000)]);
    }

    method GetIo(addr: nat, len: nat) returns (r: nat)
      requires Shaped() && io.pages != []
      modifies this`ram, this`io
      ensures Shaped() && (Books(), r) == SectionBook.GetIo(old(Books()), addr, len) && io.pages != []
    {
      hide AddRest, CutAt;
      var h := 0;
      while h < |io.pages|
        invariant h <= |io.pages| && Books() == old(Books())
        invariant forall j :: 0 <= j < At(h, 0) ==> !Holds(addr, len)(io.slots[j])
      {
        var i := 0;
        while i < PER_PAGE
          invariant i <= PER_PAGE && Books() == old(Books())
          invariant forall j :: 0 <= j < At(h, i) ==> !Holds(addr, len)(io.slots[j])
        {
          var k := At(h, i);
          var s := io.slots[k];
          var sum := (addr + len) % 0x1_0000_0000;
          if s.start <= addr && sum <= s.End() {
            FirstIs(io.slots, Holds(addr, len), k);
            Carve(k, sum, addr);
            return addr;
          }
          i := i + 1;
        }
        h := h + 1;
      }
      FirstIs(io.slots, Holds(addr, len), |io.slots|);
      return 0;
    }

    /** The list to start with in the page at `page`. */
    method StartList(kind: Kind, page: nat)
      requires Shaped()
      modifies this`ram, this`io
      ensures Shaped() && Books() == With(old(Books()), kind, List([page], EmptySlots()))
    {
      SetList(kind, List([page], EmptySlots()));
    }

    method AddRamSection(r: Region)
      requires Valid()
      modifies this
      ensures Valid() && ledger == AddRam(old(ledger), r)
    {
      hide SectionBook.AddrAdd;
      ledger := AddRam(ledger, r);
      if r.kind == Ram {
        if ram.pages == [] {
          StartList(Ram, r.range.start);
          AddrAdd(Ram, r.range.start + PAGE_SIZE, (r.range.len - PAGE_SIZE) % 0x1_0000_0000);
        } else {
          AddrAdd(Ram, r.range.start, r.range.len);
        }
      }
    }

    method InitRamSections(rs: seq<Region>)
      requires Books() == Book(NO_LIST, NO_LIST)
      modifies this
      ensures Valid() && ledger == InitRam(Listed(rs))
    {
      ledger := InitRam([]);
      var i := 0;
      while i < |rs| && rs[i].range.start != 0
        invariant i <= |rs| && i <= |Listed(rs)| && Valid() && ledger == InitRam(Listed(rs)[..i])
      {
        ListedAt(rs, i);
        InitMore(Listed(rs), i);
        AddRamSection(rs[i]);
        i := i + 1;
      }
      ListedEnds(rs, i);
      assert Listed(rs)[..i] == Listed(rs);
    }

    method InitIoSections(rs: seq<Region>)
      requires Valid() && SectionBook.GetRam(Books(), PAGE_SIZE).1 != 0
      modifies this
      ensures Valid() && ledger == InitIo(old(ledger), Listed(rs)) && io.pages != []
    {
      hide SectionBook.AddrAdd, SectionBook.GetRam;
      ledger := StartIo(ledger);
      var page := GetRam(PAGE_SIZE);
      StartList(Io, page);
      var i := 0;
      while i < |rs| && rs[i].range.start != 0
        invariant i <= |rs| && i <= |Listed(rs)| && Valid() && io.pages != []
        invariant ledger == InitIo(old(ledger), Listed(rs)[..i])
      {
        ListedAt(rs, i);
        InitMore(Listed(rs), i);
        ledger := AddIo(ledger, rs[i]);
        if rs[i].kind == Io {
          AddrAdd(Io, rs[i].range.start, rs[i].range.len);
        }
        i := i + 1;
      }
      ListedEnds(rs, i);
      assert Listed(rs)[..i] == Listed(rs);
    }

    /** What init_sections leaves, for regions that have room for the first holders. */
    constructor (rs: seq<Region>)
      requires Bootable(rs)
      ensures Valid() && ledger == Init(rs) && Bounded(ledger.book) && ram.pages != [] && io.pages != []
    {
      ram, io := NO_LIST, NO_LIST;
      ledger := InitRam([]);
      new;
      InitRamSections(rs);
      InitIoSections(rs);
      InitBalanced(rs);
    }

    /**
     handle_addr_request. `answer` is what addr_accept returns, if it is called; `sent` is what it is
     called with: the range taken out of the books, given by proc0, cached if it is RAM. It is the length
     asked for, rounded up to whole pages, and of I/O the very address asked for.
     */
    method HandleAddrRequest(pid: int, addr: nat, len: nat, answer: int) returns (ret: int, sent: Option<Accept>)
      requires Valid() && io.pages != []
      modifies this
      ensures Valid() && io.pages != []
      ensures (ledger, if sent.Some? then sent.value.start else 0) == Serve(old(ledger), Request(addr, len))
      ensures sent.Some? ==>
                && sent.value.start != 0
                && sent.value == Accept(pid, sent.value.start, PageAlign(len), GrantFlags(addr == 0))
      ensures sent.Some? && len < WRAP ==>
                0 < len <= sent.value.len < len + PAGE_SIZE && sent.value.len % PAGE_SIZE == 0
      ensures sent.Some? && addr != 0 ==> sent.value.start == addr
      ensures 0 < len <= WRAP - PAGE_SIZE && sent.None? && Bounded(old(Books())) ==>
                NoRoom(old(Books()), addr, PageAlign(len))
      ensures ret == if sent.Some? then answer else ERR
    {
      hide SectionBook.GetRam, SectionBook.GetIo;
      if len < WRAP {
        PageAlignCovers(len);
      }
      hide PageAlign;
      ledger := Serve(ledger, Request(addr, len)).0;
      var size := PageAlign(len);
      if size == 0 {
        return ERR, None;
      }
      var flags := ADDR_READ | ADDR_WRITE | ADDR_GIVE;
      var start;
      if addr != 0 {
        start := GetIo(addr, size);
      } else {
        start := GetRam(size);
        flags := flags | ADDR_CACHE;
      }
      Refusals(old(Books()), addr, size);
      if start == 0 {
        return ERR, None;
      }
      return answer, Some(Accept(pid, start, size, flags));
    }
  }

  /** Nil is answered for want of room alone. */
  lemma Refusals(b: Book, addr: nat, size: nat)
    requires size > 0
    ensures addr == 0 && Bounded(b) && SectionBook.GetRam(b, size).1 == 0 ==> NoRoom(b, addr, size)
    ensures addr != 0 ==> SectionBook.GetIo(b, addr, size).1 in {0, addr}
    ensures addr != 0 && SectionBook.GetIo(b, addr, size).1 == 0 ==> NoRoom(b, addr, size)
  {
    if addr == 0 && Bounded(b) {
      var i := GetRamFirstFit(b, size);
    }
  }

  lemma InitMore(rs: seq<Region>, i: nat)
    requires i < |rs|
    ensures InitRam(rs[..i + 1]) == AddRam(InitRam(rs[..i]), rs[i])
    ensures forall l :: InitIo(l, rs[..i + 1]) == AddIo(InitIo(l, rs[..i]), rs[i])
  {
    assert rs[..i + 1][..i] == rs[..i];
  }

  lemma {:induction false} ListedAt(rs: seq<Region>, i: nat)
    requires i < |rs| && i <= |Listed(rs)| && rs[i].range.start != 0
    ensures i < |Listed(rs)| && Listed(rs)[i] == rs[i]
  {
    if i > 0 {
      ListedAt(rs[1..], i - 1);
    }
  }

  lemma {:induction false} ListedEnds(rs: seq<Region>, i: nat)
    requires i <= |rs| && i <= |Listed(rs)| && (i < |rs| ==> rs[i].range.start == 0)
    ensures |Listed(rs)| == i
  {
    if i > 0 {
      ListedEnds(rs[1..], i - 1);
    }
  }

  lemma Grown(l: List, page: nat, x: Section)
    requires |l.slots| == PER_PAGE * |l.pages|
    ensures (l.slots + EmptySlots())[|l.slots| := x] == l.slots + EmptySlots()[0 := x]
    ensures (l.slots + EmptySlots())[|l.slots|].len == 0
  {
  }
}
