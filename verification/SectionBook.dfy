/**
 The books that proc0 (am335x/proc0/main.c) keeps of free memory: a list of RAM sections and a list
 of I/O sections, each in pages that hold 511 sections, and what each operation does to them.
 */
module SectionBook {
  import opened Common

  const PER_PAGE: nat := 511     // (PAGE_SIZE - sizeof(struct section_holder)) / sizeof(struct section)

  datatype Section = Section(start: nat, len: nat) {
    function End(): nat { start + len }
    predicate Has(a: nat) { start <= a < start + len }
  }

  /** The holders of one list, first to last: their pages, and their sections one after the other. */
  datatype List = List(pages: seq<nat>, slots: seq<Section>)

  datatype Book = Book(ram: List, io: List)

  datatype Kind = Ram | Io

  /** The empty list has no page. The code's nil. */
  const NO_LIST := List([], [])

  function Of(b: Book, kind: Kind): List {
    match kind
    case Ram => b.ram
    case Io => b.io
  }

  function With(b: Book, kind: Kind, l: List): Book {
    match kind
    case Ram => b.(ram := l)
    case Io => b.(io := l)
  }

  function EmptySlots(): (s: seq<Section>)
    ensures |s| == PER_PAGE && forall i :: 0 <= i < |s| ==> s[i] == Section(0, 0)
  {
    seq(PER_PAGE, _ => Section(0, 0))
  }

  predicate BoundedList(l: List) {
    && |l.slots| == PER_PAGE * |l.pages|
    && forall i :: 0 <= i < |l.slots| ==> l.slots[i].End() < WRAP
  }

  /** Holders are whole pages, no section runs past the last address, and no RAM is at address nil. */
  predicate Bounded(b: Book) {
    BoundedList(b.ram) && BoundedList(b.io) && forall i :: 0 <= i < |b.ram.slots| ==> NotNil(b.ram.slots[i])
  }

  predicate NotNil(s: Section) {
    s.len > 0 ==> s.start > 0
  }

  // ------------------------------------------------------------------ the three searches

  /** The index of the first slot that satisfies `p`, or the number of slots. */
  function First(slots: seq<Section>, p: Section -> bool): (k: nat)
    ensures k <= |slots| && (k < |slots| ==> p(slots[k]))
    ensures forall j :: 0 <= j < k ==> !p(slots[j])
  {
    if slots == [] || p(slots[0]) then 0
    else
      var k := First(slots[1..], p);
      assert forall j :: 0 < j < k + 1 ==> slots[j] == slots[1..][j - 1];
      k + 1
  }

  lemma {:induction false} FirstIs(slots: seq<Section>, p: Section -> bool, k: nat)
    requires k <= |slots| && (k < |slots| ==> p(slots[k]))
    requires forall j :: 0 <= j < k ==> !p(slots[j])
    ensures First(slots, p) == k
  {
    if slots != [] && k > 0 {
      assert !p(slots[0]);
      forall j | 0 <= j < k - 1
        ensures !p(slots[1..][j])
      {
        assert !p(slots[j + 1]);
      }
      FirstIs(slots[1..], p, k - 1);
    }
  }

  function Fits(len: nat): Section -> bool { (s: Section) => s.len >= len }
  function Free(): Section -> bool { (s: Section) => s.len == 0 }

  /** The code adds in 32 bits. */
  function Holds(addr: nat, len: nat): Section -> bool {
    (s: Section) => s.start <= addr && (addr + len) % 0x1_0000_0000 <= s.End()
  }

  // ------------------------------------------------------------------ the operations

  /** get_ram: the tail of the first RAM section that is long enough; nil if there is none. */
  function GetRam(b: Book, len: nat): (Book, nat) {
    var i := First(b.ram.slots, Fits(len));
    if i == |b.ram.slots| then (b, 0)
    else
      var s := b.ram.slots[i];
      (b.(ram := b.ram.(slots := b.ram.slots[i := Section(s.start, s.len - len)])), s.start + (s.len - len))
  }

  /** addr_add: the first empty slot, else the first of a new holder, for which it needs a RAM page. */
  function AddrAdd(b: Book, kind: Kind, x: Section): Book {
    var l := Of(b, kind);
    var i := First(l.slots, Free());
    if i < |l.slots| then With(b, kind, l.(slots := l.slots[i := x]))
    else
      var (b', page) := GetRam(b, PAGE_SIZE);
      if page == 0 then b'
      else With(b', kind, List(Of(b', kind).pages + [page], Of(b', kind).slots + EmptySlots()[0 := x]))
  }

  /** There is an empty slot, or a page for a new holder. */
  predicate Room(b: Book, kind: Kind) {
    First(Of(b, kind).slots, Free()) < |Of(b, kind).slots| || GetRam(b, PAGE_SIZE).1 != 0
  }

  /** The I/O book when the bytes from `from` to `end`, if any, have been added to it. */
  function AddRest(b: Book, from: nat, end: nat): Book {
    if from < end then AddrAdd(b, Io, Section(from, end - from)) else b
  }

  /** The I/O book when slot `i` has been cut off at `addr`. */
  function CutAt(b: Book, i: nat, addr: nat): Book
    requires i < |b.io.slots|
  {
    var s := b.io.slots[i];
    b.(io := b.io.(slots := b.io.slots[i := Section(s.start, (addr - s.start) % 0x1_0000_0000)]))
  }

  /** get_io: cut `len` bytes at `addr` out of the first section found to hold them. */
  function GetIo(b: Book, addr: nat, len: nat): (Book, nat) {
    var i := First(b.io.slots, Holds(addr, len));
    if i == |b.io.slots| then (b, 0)
    else
      AddRestKeepsSlots(b, (addr + len) % 0x1_0000_0000, b.io.slots[i].End());
      (CutAt(AddRest(b, (addr + len) % 0x1_0000_0000, b.io.slots[i].End()), i, addr), addr)
  }

  lemma AddRestKeepsSlots(b: Book, from: nat, end: nat)
    ensures |b.io.slots| <= |AddRest(b, from, end).io.slots|
    ensures forall i :: 0 <= i < |b.io.slots| && b.io.slots[i].len > 0 ==>
              AddRest(b, from, end).io.slots[i] == b.io.slots[i]
  {
  }

  // ------------------------------------------------------------------ counting

  function Count(s: Section, a: nat): nat { if s.Has(a) then 1 else 0 }

  /** How many of the ranges contain address `a`. */
  function Cover(rs: seq<Section>, a: nat): nat {
    if rs == [] then 0 else Count(rs[0], a) + Cover(rs[1..], a)
  }

  lemma {:induction false} CoverConcat(rs: seq<Section>, ts: seq<Section>, a: nat)
    ensures Cover(rs + ts, a) == Cover(rs, a) + Cover(ts, a)
  {
    if rs == [] {
      assert rs + ts == ts;
    } else {
      assert (rs + ts)[1..] == rs[1..] + ts;
      CoverConcat(rs[1..], ts, a);
    }
  }

  lemma {:induction false} CoverUpdate(rs: seq<Section>, i: nat, x: Section, a: nat)
    requires i < |rs|
    ensures Cover(rs[i := x], a) + Count(rs[i], a) == Cover(rs, a) + Count(x, a)
  {
    if i > 0 {
      assert rs[i := x][1..] == rs[1..][i - 1 := x];
      CoverUpdate(rs[1..], i - 1, x, a);
    } else {
      assert rs[i := x][1..] == rs[1..];
    }
  }

  lemma {:induction false} CoverNothing(rs: seq<Section>, a: nat)
    requires forall i :: 0 <= i < |rs| ==> rs[i].len == 0
    ensures Cover(rs, a) == 0
  {
    if rs != [] {
      CoverNothing(rs[1..], a);
    }
  }

  lemma {:induction false} CoverOutside(rs: seq<Section>, a: nat)
    requires forall i :: 0 <= i < |rs| ==> !rs[i].Has(a)
    ensures Cover(rs, a) == 0
  {
    if rs != [] {
      CoverOutside(rs[1..], a);
    }
  }

  lemma {:induction false} CoverAtLeast(rs: seq<Section>, i: nat, a: nat)
    requires i < |rs| && rs[i].Has(a)
    ensures Cover(rs, a) >= 1
  {
    if i > 0 {
      CoverAtLeast(rs[1..], i - 1, a);
    }
  }

  lemma {:induction false} CoverTwice(rs: seq<Section>, i: nat, j: nat, a: nat)
    requires i < j < |rs| && rs[i].Has(a) && rs[j].Has(a)
    ensures Cover(rs, a) >= 2
  {
    if i > 0 {
      CoverTwice(rs[1..], i - 1, j - 1, a);
    } else {
      CoverAtLeast(rs[1..], j - 1, a);
    }
  }

  lemma CoverOne(x: Section, a: nat)
    ensures Cover([x], a) == Count(x, a)
  {
    assert [x][1..] == [];
  }

  lemma CoverEmptySlots(x: Section, a: nat)
    ensures Cover(EmptySlots()[0 := x], a) == Count(x, a)
  {
    CoverNothing(EmptySlots(), a);
    CoverUpdate(EmptySlots(), 0, x, a);
  }

  /** The pages that hold a list, as ranges. */
  function Holders(pages: seq<nat>): (rs: seq<Section>)
    ensures |rs| == |pages| && forall i :: 0 <= i < |pages| ==> rs[i] == Section(pages[i], PAGE_SIZE)
  {
    seq(|pages|, i requires 0 <= i < |pages| => Section(pages[i], PAGE_SIZE))
  }

  lemma CoverHolder(pages: seq<nat>, page: nat, a: nat)
    ensures Cover(Holders(pages + [page]), a) == Cover(Holders(pages), a) + Count(Section(page, PAGE_SIZE), a)
  {
    assert Holders(pages + [page]) == Holders(pages) + [Section(page, PAGE_SIZE)];
    CoverConcat(Holders(pages), [Section(page, PAGE_SIZE)], a);
    CoverOne(Section(page, PAGE_SIZE), a);
  }

  /** How often `a` is in the books of that kind: free, or in a page that holds sections. */
  function Held(b: Book, kind: Kind, a: nat): nat {
    match kind
    case Ram => Cover(b.ram.slots, a) + Cover(Holders(b.ram.pages), a) + Cover(Holders(b.io.pages), a)
    case Io => Cover(b.io.slots, a)
  }

  /** What a call that returned `r` handed out. */
  function Handed(r: nat, len: nat): Section {
    if r == 0 then Section(0, 0) else Section(r, len)
  }

  /** get_ram takes what it returns, and nothing else, out of the RAM book. */
  lemma GetRamHeld(b: Book, len: nat, kind: Kind, a: nat)
    requires len > 0 && Bounded(b)
    ensures var (b', r) := GetRam(b, len);
            Held(b', kind, a) + (if kind == Ram then Count(Handed(r, len), a) else 0) == Held(b, kind, a)
  {
    var i := First(b.ram.slots, Fits(len));
    if i < |b.ram.slots| {
      var s := b.ram.slots[i];
      CoverUpdate(b.ram.slots, i, Section(s.start, s.len - len), a);
    }
  }

  /** First fit, from the tail: nil iff no section is long enough; else the end of the first one that is. */
  lemma GetRamFirstFit(b: Book, len: nat) returns (i: nat)
    requires Bounded(b) && len > 0
    ensures i <= |b.ram.slots| && forall j :: 0 <= j < i ==> b.ram.slots[j].len < len
    ensures GetRam(b, len).1 == 0 <==> i == |b.ram.slots|
    ensures GetRam(b, len).1 == 0 ==> GetRam(b, len).0 == b
    ensures GetRam(b, len).1 != 0 ==>
              var s, s' := b.ram.slots, GetRam(b, len).0.ram.slots;
              && GetRam(b, len).1 + len == s[i].End() && |s'| == |s|
              && s'[i].start == s[i].start && s'[i].len + len == s[i].len
              && forall j :: 0 <= j < |s| && j != i ==> s'[j] == s[j]
  {
    i := First(b.ram.slots, Fits(len));
    if i < |b.ram.slots| {
      assert NotNil(b.ram.slots[i]);
    }
  }

  /** addr_add adds what it is given, unless it has no room. */
  lemma AddrAddHeld(b: Book, to: Kind, x: Section, kind: Kind, a: nat)
    requires Bounded(b)
    ensures Held(AddrAdd(b, to, x), kind, a) ==
            Held(b, kind, a) + if kind == to && Room(b, to) then Count(x, a) else 0
  {
    var l := Of(b, to);
    var i := First(l.slots, Free());
    if i < |l.slots| {
      CoverUpdate(l.slots, i, x, a);
    } else {
      var (b', page) := GetRam(b, PAGE_SIZE);
      GetRamHeld(b, PAGE_SIZE, kind, a);
      if page != 0 {
        CoverHolder(Of(b', to).pages, page, a);
        CoverConcat(Of(b', to).slots, EmptySlots()[0 := x], a);
        CoverEmptySlots(x, a);
      }
    }
  }

  lemma GetRamBounded(b: Book, len: nat)
    requires Bounded(b)
    ensures var (b', r) := GetRam(b, len);
            Bounded(b') && r + (if r == 0 then 0 else len) < WRAP
  {
  }

  lemma AddrAddBounded(b: Book, kind: Kind, x: Section)
    requires Bounded(b) && x.End() < WRAP && NotNil(x)
    ensures Bounded(AddrAdd(b, kind, x))
  {
    GetRamBounded(b, PAGE_SIZE);
  }

  // ------------------------------------------------------------------ get_io

  /** Some section, alone, contains the request. */
  ghost predicate Contained(b: Book, addr: nat, len: nat) {
    exists i :: 0 <= i < |b.io.slots| && b.io.slots[i].start <= addr && addr + len <= b.io.slots[i].End()
  }

  /** The sum of the request wraps round and the wrapped sum still passes for a match somewhere. */
  ghost predicate WrongMatch(b: Book, addr: nat, len: nat) {
    addr + len >= WRAP && First(b.io.slots, Holds(addr, len)) < |b.io.slots|
  }

  /** No section can serve `size` bytes, of RAM or, with an address, of I/O. */
  ghost predicate NoRoom(b: Book, addr: nat, size: nat) {
    if addr == 0 then forall i :: 0 <= i < |b.ram.slots| ==> b.ram.slots[i].len < size
    else forall i :: 0 <= i < |b.io.slots| ==> !Holds(addr, size)(b.io.slots[i])
  }

  /** What is left over beyond the request in the section it was found in. */
  function Tail(b: Book, addr: nat, len: nat): Section {
    var i := First(b.io.slots, Holds(addr, len));
    if i < |b.io.slots| && addr + len < b.io.slots[i].End()
    then Section(addr + len, b.io.slots[i].End() - (addr + len))
    else Section(0, 0)
  }

  /** get_io moves the request out of the I/O book; its tail is lost only if there is no room for it. */
  ghost predicate IoConserved(b: Book, addr: nat, len: nat) {
    var (b', r) := GetIo(b, addr, len);
    forall a: nat ::
      Held(b', Io, a) + Count(Handed(r, len), a) + (if Room(b, Io) then 0 else Count(Tail(b, addr, len), a)) ==
      Held(b, Io, a)
  }

  lemma AddRestHeld(b: Book, from: nat, end: nat, a: nat)
    requires Bounded(b)
    ensures Held(AddRest(b, from, end), Io, a) ==
            Held(b, Io, a) + if Room(b, Io) && from <= a < end then 1 else 0
    ensures Held(AddRest(b, from, end), Ram, a) == Held(b, Ram, a)
  {
    if from < end {
      AddrAddHeld(b, Io, Section(from, end - from), Io, a);
      AddrAddHeld(b, Io, Section(from, end - from), Ram, a);
    }
  }

  lemma CutAtHeld(b: Book, i: nat, addr: nat, a: nat)
    requires i < |b.io.slots| && b.io.slots[i].start <= addr <= b.io.slots[i].End() < WRAP
    ensures Held(CutAt(b, i, addr), Io, a) + (if addr <= a < b.io.slots[i].End() then 1 else 0) == Held(b, Io, a)
  {
    CoverUpdate(b.io.slots, i, Section(b.io.slots[i].start, addr - b.io.slots[i].start), a);
  }

  /** Without wrap-around the section found contains the request. */
  lemma FoundContains(b: Book, addr: nat, len: nat)
    requires addr + len < WRAP && First(b.io.slots, Holds(addr, len)) < |b.io.slots|
    ensures var s := b.io.slots[First(b.io.slots, Holds(addr, len))];
            s.start <= addr && addr + len <= s.End() && (addr + len) % 0x1_0000_0000 == addr + len
  {
  }

  lemma GetIoFound(b: Book, addr: nat, len: nat)
    requires len > 0 && addr + len < WRAP && First(b.io.slots, Holds(addr, len)) < |b.io.slots|
    ensures var i := First(b.io.slots, Holds(addr, len));
            var s, c := b.io.slots[i], AddRest(b, addr + len, b.io.slots[i].End());
            && i < |c.io.slots| && c.io.slots[i] == s && s.start <= addr && addr + len <= s.End()
            && GetIo(b, addr, len) == (CutAt(c, i, addr), addr)
  {
    var i := First(b.io.slots, Holds(addr, len));
    FoundContains(b, addr, len);
    hide Holds;
    AddRestKeepsSlots(b, addr + len, b.io.slots[i].End());
  }

  lemma GetIoHeld(b: Book, addr: nat, len: nat, a: nat)
    requires Bounded(b) && 0 < addr && len > 0 && !WrongMatch(b, addr, len)
    ensures var (b', r) := GetIo(b, addr, len);
            Held(b', Io, a) + Count(Handed(r, len), a) + (if Room(b, Io) then 0 else Count(Tail(b, addr, len), a)) ==
            Held(b, Io, a)
  {
    var i := First(b.io.slots, Holds(addr, len));
    if i < |b.io.slots| {
      hide AddRest, CutAt, Held, Room, GetIo, Holds;
      GetIoFound(b, addr, len);
      var s := b.io.slots[i];
      AddRestHeld(b, addr + len, s.End(), a);
      CutAtHeld(AddRest(b, addr + len, s.End()), i, addr, a);
    }
  }

  /** A wrapped match hands out addresses that were never in the book. */
  lemma WrongMatchInvents(b: Book, addr: nat, len: nat)
    requires Bounded(b) && 0 < addr < WRAP && WrongMatch(b, addr, len)
    ensures !IoConserved(b, addr, len)
  {
    var last := WRAP - 1;
    CoverOutside(b.io.slots, last);
    assert Count(Handed(GetIo(b, addr, len).1, len), last) == 1;
  }

  /** Address space is conserved by exactly the calls whose sum does not wrap into a match. */
  lemma IoConservedIff(b: Book, addr: nat, len: nat)
    requires Bounded(b) && 0 < addr < WRAP && 0 < len < WRAP
    ensures IoConserved(b, addr, len) <==> !WrongMatch(b, addr, len)
  {
    if WrongMatch(b, addr, len) {
      WrongMatchInvents(b, addr, len);
    } else {
      forall a: nat {
        GetIoHeld(b, addr, len, a);
      }
    }
  }

  /** Likewise get_io answers nil exactly when no single section contains the request. */
  lemma IoNilIff(b: Book, addr: nat, len: nat)
    requires Bounded(b) && 0 < addr < WRAP && 0 < len < WRAP
    ensures GetIo(b, addr, len).1 in {0, addr}
    ensures (GetIo(b, addr, len).1 == 0 <==> !Contained(b, addr, len)) <==> !WrongMatch(b, addr, len)
  {
    var i := First(b.io.slots, Holds(addr, len));
    if addr + len < WRAP && i < |b.io.slots| {
      assert b.io.slots[i].start <= addr && addr + len <= b.io.slots[i].End();
    }
  }

  /** get_io leaves RAM to itself, but for a page it may need for a holder. */
  lemma GetIoRamHeld(b: Book, addr: nat, len: nat, a: nat)
    requires Bounded(b)
    ensures Held(GetIo(b, addr, len).0, Ram, a) == Held(b, Ram, a)
  {
    var i := First(b.io.slots, Holds(addr, len));
    if i < |b.io.slots| {
      AddRestHeld(b, (addr + len) % 0x1_0000_0000, b.io.slots[i].End(), a);
    }
  }

  lemma AddRestBounded(b: Book, from: nat, end: nat)
    requires Bounded(b) && 0 < from && end < WRAP
    ensures Bounded(AddRest(b, from, end))
  {
    if from < end {
      AddrAddBounded(b, Io, Section(from, end - from));
    }
  }

  lemma CutAtBounded(b: Book, i: nat, addr: nat)
    requires Bounded(b) && i < |b.io.slots| && b.io.slots[i].start <= addr < WRAP
    ensures Bounded(CutAt(b, i, addr))
  {
  }

  lemma GetIoBounded(b: Book, addr: nat, len: nat)
    requires Bounded(b) && len > 0 && !WrongMatch(b, addr, len)
    ensures Bounded(GetIo(b, addr, len).0)
  {
    var i := First(b.io.slots, Holds(addr, len));
    if i < |b.io.slots| {
      hide AddRest, CutAt, GetIo, Holds;
      GetIoFound(b, addr, len);
      AddRestBounded(b, addr + len, b.io.slots[i].End());
      CutAtBounded(AddRest(b, addr + len, b.io.slots[i].End()), i, addr);
    }
  }
}
