/**
 The two-level page tables of am335x/kern/mem.c. Descriptors are ARMv7-A short descriptors
 (section B3.5.1 of the ARM Architecture Reference Manual DDI 0406C), as 32-bit words.
 */
module PageTable {
  import opened Common

  type Word = bv32

  const ADDR_GIVE: Word := 0
  const ADDR_TAKE: Word := 1
  const ADDR_READ: Word := 2
  const ADDR_WRITE: Word := 4
  const ADDR_CACHE: Word := 8

  const AP_RW_RO: Word := 2
  const AP_RW_RW: Word := 3
  const L1_COARSE: Word := 1
  const L2_SMALL: Word := 2
  const PAGE_MASK: Word := 0xFFFF_F000

  const L1_SLOTS: nat := 1024       // words in the first-level array
  const L2_SLOTS: nat := 256        // pages one second-level table covers
  const TABLE_WORDS: nat := 1024    // words in the page a second-level table lives in
  const PAGES: nat := 0x4_0000

  /** Virtual addresses that the 1024-entry first level can hold. */
  const VA_LIMIT: nat := 0x4000_0000

  type Va = v: nat | v < VA_LIMIT

  function L1X(va: nat): nat { va / 0x10_0000 }
  function L2X(va: nat): nat { va / 4096 % 256 }
  function PageNo(va: nat): nat { va / 4096 }

  lemma PageNoSplits(va: Va)
    ensures L1X(va) < L1_SLOTS && L2X(va) < L2_SLOTS && PageNo(va) < PAGES
    ensures PageNo(va) / 256 == L1X(va) && PageNo(va) % 256 == L2X(va)
  {
  }

  // ------------------------------------------------------------------ descriptors

  /** The second-level descriptor that space_map and l2_map write. */
  function Encode(pa: Word, flags: Word): Word {
    var c: Word := if flags & ADDR_CACHE != 0 then 1 else 0;
    var ap := if flags & ADDR_WRITE != 0 then AP_RW_RW else AP_RW_RO;
    var tex: Word := if c == 1 then 7 else 0;
    var b: Word := if c == 1 then 0 else 1;
    pa | L2_SMALL | (tex << 6) | (ap << 4) | (c << 3) | (b << 2)
  }

  function FlagsFromMap(v: Word): Word {
    ADDR_READ
    | (if (v >> 4) & 3 == AP_RW_RW then ADDR_WRITE else 0)
    | (if (v >> 2) & 1 == 1 then ADDR_CACHE else 0)
  }

  function FrameOf(v: Word): Word {
    v & PAGE_MASK
  }

  predicate Aligned(pa: Word) {
    pa & 0xFFF == 0
  }

  /** The attribute bits that Encode adds to the frame, all of them below bit 12. */
  function Attributes(flags: Word): Word {
    (if flags & ADDR_WRITE != 0 then 0x30 else 0x20) | (if flags & ADDR_CACHE != 0 then 0x1CA else 0x6)
  }

  lemma EncodeBits(pa: Word, flags: Word)
    ensures Encode(pa, flags) == pa | Attributes(flags)
  {
  }

  lemma FrameBits(pa: Word, flags: Word)
    ensures pa | Attributes(flags) != 0
    ensures FrameOf(pa | Attributes(flags)) == pa <==> Aligned(pa)
  {
  }

  lemma FlagBits(pa: Word, flags: Word)
    requires Aligned(pa)
    ensures ((pa | Attributes(flags)) >> 4) & 3 == AP_RW_RW <==> flags & ADDR_WRITE != 0
    ensures ((pa | Attributes(flags)) >> 2) & 1 == 1 <==> flags & ADDR_CACHE == 0
  {
  }

  lemma DecodedFlags(v: Word)
    ensures FlagsFromMap(v) & ADDR_WRITE != 0 <==> (v >> 4) & 3 == AP_RW_RW
    ensures FlagsFromMap(v) & ADDR_CACHE != 0 <==> (v >> 2) & 1 == 1
    ensures FlagsFromMap(v) & ADDR_READ != 0 && FlagsFromMap(v) & ADDR_TAKE == 0
  {
  }

  /**
   Decoding what was encoded: the frame comes back exactly when it was page-aligned; for an aligned
   frame the write permission comes back, and the cache flag comes back negated, because the decoder
   looks at bit 2, which the encoder sets for uncached pages.
   */
  lemma DecodeEncode(pa: Word, flags: Word)
    ensures Encode(pa, flags) != 0
    ensures FrameOf(Encode(pa, flags)) == pa <==> Aligned(pa)
    ensures Aligned(pa) ==>
              var f := FlagsFromMap(Encode(pa, flags));
              && (f & ADDR_WRITE != 0 <==> flags & ADDR_WRITE != 0)
              && (f & ADDR_CACHE != 0 <==> flags & ADDR_CACHE == 0)
              && f & ADDR_READ != 0 && f & ADDR_TAKE == 0
  {
    EncodeBits(pa, flags);
    FrameBits(pa, flags);
    DecodedFlags(Encode(pa, flags));
    if Aligned(pa) {
      FlagBits(pa, flags);
    }
  }

  /**
   The fields of a small-page descriptor for an aligned frame: type 2, AP by the write flag, TEX and C
   set for cached pages, B for the others, and APX, S and nG clear.
   */
  lemma DescriptorFields(pa: Word, flags: Word)
    requires Aligned(pa)
    ensures var d := Encode(pa, flags);
            && d & 3 == L2_SMALL
            && (d >> 2) & 1 == (if flags & ADDR_CACHE != 0 then 0 else 1)
            && (d >> 3) & 1 == (if flags & ADDR_CACHE != 0 then 1 else 0)
            && (d >> 4) & 3 == (if flags & ADDR_WRITE != 0 then AP_RW_RW else AP_RW_RO)
            && (d >> 6) & 7 == (if flags & ADDR_CACHE != 0 then 7 else 0)
            && (d >> 9) & 7 == 0
  {
    EncodeBits(pa, flags);
    hide Encode;
  }

  // ------------------------------------------------------------------ the partial map

  /** The physical address of a page that holds a second-level table. */
  datatype Addr = Addr(word: Word)

  const NIL: Addr := Addr(0)

  /** The page a first-level descriptor points to, and the descriptor for a table page. */
  function TableOf(e: Word): Addr { Addr(e & 0xFFFF_FFFC) }
  function CoarseEntry(table: Addr): Word { table.word | L1_COARSE }

  /** A page-table descriptor of domain 0 for a table that starts a page. */
  predicate IsCoarse(e: Word) { e & 0xFFF == 1 }

  lemma CoarseEntryTable(table: Addr)
    requires Aligned(table.word)
    ensures CoarseEntry(table) != 0 && TableOf(CoarseEntry(table)) == table && IsCoarse(CoarseEntry(table))
  {
  }

  type Tables = map<Addr, seq<Word>>

  /** The second-level descriptor of page `p`, zero where there is none. */
  function Descriptor(tab: seq<Word>, tables: Tables, p: nat): Word {
    if p / 256 < |tab| && tab[p / 256] != 0 && TableOf(tab[p / 256]) in tables &&
       p % 256 < |tables[TableOf(tab[p / 256])]|
    then tables[TableOf(tab[p / 256])][p % 256]
    else 0
  }

  /** What an address space maps: page number to descriptor. */
  type View = map<nat, Word>

  function ViewOf(tab: seq<Word>, tables: Tables): View {
    map p: nat | p < PAGES && Descriptor(tab, tables, p) != 0 :: Descriptor(tab, tables, p)
  }

  /** Second-level tables are whole pages, named by every entry that is not a fault, each by one. */
  ghost predicate TabOk(tab: seq<Word>, tables: Tables) {
    && |tab| == L1_SLOTS
    && (forall i :: 0 <= i < |tab| && tab[i] != 0 ==>
          TableOf(tab[i]) in tables && TableOf(tab[i]) != NIL && IsCoarse(tab[i]))
    && (forall i, j :: 0 <= i < j < |tab| && tab[i] != 0 && tab[j] != 0 ==> TableOf(tab[i]) != TableOf(tab[j]))
    && WholePages(tables)
  }

  ghost predicate WholePages(tables: Tables) {
    forall a :: a in tables ==> |tables[a]| == TABLE_WORDS
  }

  /** A store into a second-level table changes the descriptor of one page. */
  lemma StoreInTable(tab: seq<Word>, tables: Tables, p: nat, d: Word, q: nat)
    requires TabOk(tab, tables) && p < PAGES && q < PAGES && tab[p / 256] != 0
    ensures var table := TableOf(tab[p / 256]);
            Descriptor(tab, tables[table := tables[table][p % 256 := d]], q) ==
            if q == p then d else Descriptor(tab, tables, q)
  {
    var i, j := p / 256, q / 256;
    assert p == L2_SLOTS * i + p % 256 && q == L2_SLOTS * j + q % 256;
    assert i < |tab| && j < |tab|;
    if i != j && tab[j] != 0 {
      assert TableOf(tab[i]) != TableOf(tab[j]);
    }
  }

  lemma StoreInView(tab: seq<Word>, tables: Tables, p: nat, d: Word)
    requires TabOk(tab, tables) && p < PAGES && tab[p / 256] != 0
    ensures var table := TableOf(tab[p / 256]);
            var tables' := tables[table := tables[table][p % 256 := d]];
            TabOk(tab, tables') &&
            ViewOf(tab, tables') == if d == 0 then ViewOf(tab, tables) - {p} else ViewOf(tab, tables)[p := d]
  {
    var table := TableOf(tab[p / 256]);
    var tables' := tables[table := tables[table][p % 256 := d]];
    forall q: nat | q < PAGES
      ensures Descriptor(tab, tables', q) == if q == p then d else Descriptor(tab, tables, q)
    {
      StoreInTable(tab, tables, p, d, q);
    }
  }

  /** A table that no entry names is nobody's business. */
  lemma StoreElsewhere(tab: seq<Word>, tables: Tables, table: Addr, words: seq<Word>)
    requires TabOk(tab, tables) && |words| == TABLE_WORDS
    requires forall i :: 0 <= i < |tab| && tab[i] != 0 ==> TableOf(tab[i]) != table
    ensures TabOk(tab, tables[table := words]) && ViewOf(tab, tables[table := words]) == ViewOf(tab, tables)
  {
    forall q: nat | q < PAGES
      ensures Descriptor(tab, tables[table := words], q) == Descriptor(tab, tables, q)
    {
    }
  }

  /** No entry of `tab` leads to `page`. */
  ghost predicate Unnamed(tab: seq<Word>, page: Addr) {
    forall i :: 0 <= i < |tab| && tab[i] != 0 ==> TableOf(tab[i]) != page
  }

  /** No table serves entries of both. */
  ghost predicate Apart(tab: seq<Word>, other: seq<Word>) {
    forall i, j ::
      0 <= i < |tab| && 0 <= j < |other| && tab[i] != 0 && other[j] != 0 ==> TableOf(tab[i]) != TableOf(other[j])
  }

  lemma StaysApart(tab: seq<Word>, other: seq<Word>, i: nat, page: Addr)
    requires Apart(tab, other) && i < |tab| && Unnamed(other, page) && Aligned(page.word)
    ensures Apart(tab[i := CoarseEntry(page)], other) && Apart(other, tab[i := CoarseEntry(page)])
  {
    CoarseEntryTable(page);
  }

  /** A zeroed table that no entry named, put in an empty slot, maps nothing. */
  lemma FreshTable(tab: seq<Word>, tables: Tables, i: nat, page: Addr)
    requires TabOk(tab, tables) && i < L1_SLOTS && tab[i] == 0 && Unnamed(tab, page)
    requires Aligned(page.word) && page != NIL && page in tables
    requires forall j :: 0 <= j < |tables[page]| ==> tables[page][j] == 0
    ensures TabOk(tab[i := CoarseEntry(page)], tables)
    ensures ViewOf(tab[i := CoarseEntry(page)], tables) == ViewOf(tab, tables)
  {
    FreshTabOk(tab, tables, i, page);
    hide CoarseEntry, TabOk, Aligned, Unnamed;
    forall q: nat | q < PAGES
      ensures Descriptor(tab[i := CoarseEntry(page)], tables, q) == Descriptor(tab, tables, q)
    {
      FreshDescriptor(tab, tables, i, page, q);
    }
  }

  lemma FreshTabOk(tab: seq<Word>, tables: Tables, i: nat, page: Addr)
    requires TabOk(tab, tables) && i < L1_SLOTS && Unnamed(tab, page)
    requires Aligned(page.word) && page != NIL && page in tables
    ensures TabOk(tab[i := CoarseEntry(page)], tables)
  {
    CoarseEntryTable(page);
    hide CoarseEntry, IsCoarse, TableOf, Aligned;
  }

  lemma FreshDescriptor(tab: seq<Word>, tables: Tables, i: nat, page: Addr, q: nat)
    requires i < |tab| && tab[i] == 0 && Aligned(page.word) && page in tables
    requires forall j :: 0 <= j < |tables[page]| ==> tables[page][j] == 0
    ensures Descriptor(tab[i := CoarseEntry(page)], tables, q) == Descriptor(tab, tables, q)
  {
    CoarseEntryTable(page);
    hide CoarseEntry, IsCoarse, TableOf, Aligned;
  }

  function Mapped(v: View, p: nat, d: Word): View { v[p := d] }
  function Unmapped(v: View, p: nat): View { v - {p} }

  /** The frame that space_find reports for page `p`: nil where nothing is mapped. */
  function FrameAt(v: View, p: nat): Word {
    if p in v then FrameOf(v[p]) else 0
  }

  lemma FindReadsView(tab: seq<Word>, tables: Tables, p: nat)
    requires p < PAGES
    ensures FrameAt(ViewOf(tab, tables), p) == FrameOf(Descriptor(tab, tables, p))
  {
    if Descriptor(tab, tables, p) == 0 {
      NothingHasNoFrame();
    }
  }

  lemma NothingHasNoFrame()
    ensures FrameOf(0) == 0 && TableOf(0) == NIL
  {
  }

  lemma EmptySpace(tab: seq<Word>, tables: Tables)
    requires |tab| == L1_SLOTS && forall i :: 0 <= i < |tab| ==> tab[i] == 0
    requires WholePages(tables)
    ensures TabOk(tab, tables) && ViewOf(tab, tables) == map[]
  {
  }

  type Spaces = map<Addr, seq<Word>>
  type Views = map<Addr, View>

  /**
   No page is both a first-level array and a table. Tables are whole pages, no table serves two slots,
   of one space or of two, and `views` is what is mapped.
   */
  ghost predicate Stands(spaces: Spaces, tables: Tables, views: Views) {
    && WholePages(tables)
    && spaces.Keys == views.Keys && spaces.Keys !! tables.Keys
    && (forall s :: s in spaces ==> Shows(spaces[s], tables, views[s]))
    && AllApart(spaces)
  }

  ghost predicate Shows(tab: seq<Word>, tables: Tables, view: View) {
    TabOk(tab, tables) && view == ViewOf(tab, tables)
  }

  ghost predicate AllApart(spaces: Spaces) {
    forall s, t :: s in spaces && t in spaces && s != t ==> Apart(spaces[s], spaces[t])
  }

  lemma ApartUpdate(spaces: Spaces, s: Addr, tab: seq<Word>)
    requires AllApart(spaces)
    requires forall t :: t in spaces && t != s ==> Apart(tab, spaces[t]) && Apart(spaces[t], tab)
    ensures AllApart(spaces[s := tab])
  {
  }

  /** A page that get_page may answer: aligned, and in use neither as a table nor as an address space. */
  predicate Spare(page: Addr, spaces: Spaces, tables: Tables) {
    Aligned(page.word) && page !in tables && page !in spaces
  }

  /** Answers of get_page to successive calls: nil, or spare pages, all different. */
  ghost predicate Answers(pages: seq<Addr>, spaces: Spaces, tables: Tables) {
    && (forall j :: 0 <= j < |pages| && pages[j] != NIL ==> Spare(pages[j], spaces, tables))
    && (forall i, j :: 0 <= i < j < |pages| && pages[i] != NIL ==> pages[i] != pages[j])
  }

  predicate HasTable(tab: seq<Word>, i: nat) {
    i < |tab| && tab[i] != 0
  }

  lemma SlotFilled(tab: seq<Word>, i: nat, page: Addr)
    requires i < |tab| && Aligned(page.word)
    ensures forall x: nat :: HasTable(tab[i := CoarseEntry(page)], x) <==> HasTable(tab, x) || x == i
  {
    CoarseEntryTable(page);
    hide CoarseEntry;
    var tab' := tab[i := CoarseEntry(page)];
    forall x: nat
      ensures HasTable(tab', x) <==> HasTable(tab, x) || x == i
    {
      if x < |tab| && x != i {
        assert tab'[x] == tab[x];
      }
    }
  }

  function Stored(v: View, p: nat, d: Word): View {
    if d == 0 then Unmapped(v, p) else Mapped(v, p, d)
  }

  /** A store into a table of `s` leaves the other spaces alone. */
  lemma StoreKeepsOther(spaces: Spaces, tables: Tables, views: Views, s: Addr, i: nat, words: seq<Word>, t: Addr)
    requires Stands(spaces, tables, views) && s in spaces && t in spaces && t != s
    requires i < |spaces[s]| && spaces[s][i] != 0 && |words| == TABLE_WORDS
    ensures Shows(spaces[t], tables[TableOf(spaces[s][i]) := words], views[t])
  {
    assert Shows(spaces[s], tables, views[s]);
    assert Apart(spaces[s], spaces[t]);
    StoreElsewhere(spaces[t], tables, TableOf(spaces[s][i]), words);
  }

  lemma StoreStands(spaces: Spaces, tables: Tables, views: Views, s: Addr, p: nat, d: Word)
    requires Stands(spaces, tables, views) && s in spaces && p < PAGES
    requires p / 256 < |spaces[s]| && spaces[s][p / 256] != 0
    ensures var table := TableOf(spaces[s][p / 256]);
            table in tables && p % 256 < |tables[table]| &&
            Stands(spaces, tables[table := tables[table][p % 256 := d]], views[s := Stored(views[s], p, d)])
  {
    assert Shows(spaces[s], tables, views[s]);
    var table := TableOf(spaces[s][p / 256]);
    StoreInView(spaces[s], tables, p, d);
    assert Shows(spaces[s], tables[table := tables[table][p % 256 := d]], Stored(views[s], p, d));
    forall t | t in spaces && t != s
      ensures Shows(spaces[t], tables[table := tables[table][p % 256 := d]], views[t])
    {
      StoreKeepsOther(spaces, tables, views, s, p / 256, tables[table][p % 256 := d], t);
    }
  }

  function ZeroedPage(): seq<Word> { seq(TABLE_WORDS, _ => 0) }

  /** A page that holds no table yet can be cleared to hold one: nobody names it. */
  lemma ZeroingStands(spaces: Spaces, tables: Tables, views: Views, page: Addr)
    requires Stands(spaces, tables, views) && page !in tables && page !in spaces
    ensures Stands(spaces, tables[page := ZeroedPage()], views)
    ensures forall t :: t in spaces ==> Unnamed(spaces[t], page)
  {
    forall t | t in spaces
      ensures Unnamed(spaces[t], page)
      ensures Shows(spaces[t], tables[page := ZeroedPage()], views[t])
    {
      assert Shows(spaces[t], tables, views[t]);
      StoreElsewhere(spaces[t], tables, page, ZeroedPage());
    }
  }

  /** A cleared page that nobody names can serve an empty slot. */
  lemma NewTableStands(spaces: Spaces, tables: Tables, views: Views, s: Addr, i: nat, page: Addr)
    requires Stands(spaces, tables, views) && s in spaces && i < |spaces[s]| && spaces[s][i] == 0
    requires page != NIL && Aligned(page.word) && page in tables && tables[page] == ZeroedPage()
    requires forall t :: t in spaces ==> Unnamed(spaces[t], page)
    ensures Stands(spaces[s := spaces[s][i := CoarseEntry(page)]], tables, views) && CoarseEntry(page) != 0
  {
    CoarseEntryTable(page);
    assert Unnamed(spaces[s], page) && Shows(spaces[s], tables, views[s]);
    FreshTable(spaces[s], tables, i, page);
    forall t | t in spaces && t != s
      ensures Apart(spaces[s][i := CoarseEntry(page)], spaces[t]) && Apart(spaces[t], spaces[s][i := CoarseEntry(page)])
    {
      assert Unnamed(spaces[t], page);
      StaysApart(spaces[s], spaces[t], i, page);
    }
    ApartUpdate(spaces, s, spaces[s][i := CoarseEntry(page)]);
  }

  lemma NewSpaceStands(spaces: Spaces, tables: Tables, views: Views, s: Addr)
    requires Stands(spaces, tables, views) && s !in views && s !in tables
    ensures Stands(spaces[s := ZeroedPage()], tables, views[s := map[]])
  {
    hide TabOk, ViewOf, Apart, AllApart;
    assert forall i :: 0 <= i < |ZeroedPage()| ==> ZeroedPage()[i] == 0;
    hide ZeroedPage;
    EmptySpace(ZeroedPage(), tables);
    forall t | t in spaces && t != s
      ensures Apart(ZeroedPage(), spaces[t]) && Apart(spaces[t], ZeroedPage())
    {
      EmptyIsApart(ZeroedPage(), spaces[t]);
    }
    ApartUpdate(spaces, s, ZeroedPage());
  }

  lemma EmptyIsApart(tab: seq<Word>, other: seq<Word>)
    requires forall i :: 0 <= i < |tab| ==> tab[i] == 0
    ensures Apart(tab, other) && Apart(other, tab)
  {
  }

  lemma FaultMapsNothing(tab: seq<Word>, tables: Tables, p: nat)
    requires p < PAGES && p / 256 < |tab|
    ensures tab[p / 256] == 0 ==> Unmapped(ViewOf(tab, tables), p) == ViewOf(tab, tables)
  {
  }

  /** The pages of first-level and of second-level descriptors, by physical address. */
  class Mmu {
    var spaces: Spaces
    var tables: Tables
    ghost var views: Views   // what each address space maps

    ghost predicate Valid()
      reads this
    {
      Stands(spaces, tables, views)
    }

    constructor ()
      ensures Valid() && views == map[] && tables == map[]
    {
      spaces, tables, views := map[], map[], map[];
    }

    /** The page at `s`, zeroed by sys_proc_create, becomes the first-level array of a new process. */
    method NewSpace(s: Addr)
      requires Valid() && s !in views && s !in tables
      modifies this`spaces, this`views
      ensures Valid() && views == old(views)[s := map[]]
    {
      hide Stands;
      NewSpaceStands(spaces, tables, views, s);
      spaces, views := spaces[s := ZeroedPage()], views[s := map[]];
    }

    /** space_find: the frame and, where there is a second-level table, the flags. */
    method SpaceFind(s: Addr, va: Va) returns (pa: Word, flags: Option<Word>)
      requires Valid() && s in views
      ensures pa == FrameAt(views[s], PageNo(va))
      ensures s in spaces && L1X(va) < |spaces[s]|
      ensures flags == if spaces[s][L1X(va)] == 0 then None
                       else Some(FlagsFromMap(if PageNo(va) in views[s] then views[s][PageNo(va)] else 0))
    {
      PageNoSplits(va);
      NothingHasNoFrame();
      assert Shows(spaces[s], tables, views[s]);
      FindReadsView(spaces[s], tables, PageNo(va));
      var tab := TableOf(spaces[s][L1X(va)]);
      if tab == NIL {
        return 0, None;
      }
      var d := tables[tab][L2X(va)];
      return FrameOf(d), Some(FlagsFromMap(d));
    }

    /** tab[L2X(va)] = d, in the second-level table that serves `va`. */
    method StoreDescriptor(s: Addr, va: Va, d: Word)
      requires Valid() && s in spaces && L1X(va) < |spaces[s]| && spaces[s][L1X(va)] != 0
      modifies this`tables, this`views
      ensures Valid() && tables.Keys == old(tables).Keys
      ensures s in old(views) && views == old(views)[s := Stored(old(views)[s], PageNo(va), d)]
    {
      PageNoSplits(va);
      StoreStands(spaces, tables, views, s, PageNo(va), d);
      hide Shows, AllApart, WholePages, Stored;
      var table := TableOf(spaces[s][L1X(va)]);
      tables := tables[table := tables[table][L2X(va) := d]];
      views := views[s := Stored(views[s], PageNo(va), d)];
    }

    /** space_unmap: the page, and no other, is no longer mapped. */
    method SpaceUnmap(s: Addr, va: Va)
      requires Valid() && s in views
      modifies this`tables, this`views
      ensures Valid() && tables.Keys == old(tables).Keys
      ensures views == old(views)[s := Unmapped(old(views)[s], PageNo(va))]
    {
      PageNoSplits(va);
      assert Shows(spaces[s], tables, views[s]);
      NothingHasNoFrame();
      FaultMapsNothing(spaces[s], tables, PageNo(va));
      if TableOf(spaces[s][L1X(va)]) != NIL {
        StoreDescriptor(s, va, 0);
      }
    }

    /** The branch of space_map that starts a second-level table in the page `page`. */
    method NewTable(s: Addr, i: nat, page: Addr)
      requires Valid() && s in spaces && i < |spaces[s]| && spaces[s][i] == 0
      requires page != NIL && Spare(page, spaces, tables)
      modifies this`tables, this`spaces
      ensures Valid() && tables.Keys == old(tables).Keys + {page}
      ensures spaces == old(spaces)[s := old(spaces)[s][i := CoarseEntry(page)]] && CoarseEntry(page) != 0
    {
      hide Stands, CoarseEntry;
      ZeroingStands(spaces, tables, views, page);
      tables := tables[page := ZeroedPage()];
      NewTableStands(spaces, tables, views, s, i, page);
      spaces := spaces[s := spaces[s][i := CoarseEntry(page)]];
    }

    /**
     space_map. `page` is what get_page answers if asked: nil, or the address of an unused page.
     It fails, changing nothing, exactly when it has to ask and gets nil.
     */
    method SpaceMap(s: Addr, pa: Word, va: Va, flags: Word, page: Addr) returns (ok: bool)
      requires Valid() && s in views
      requires page != NIL ==> Spare(page, spaces, tables)
      modifies this
      ensures Valid() && s in old(spaces) && L1X(va) < |old(spaces)[s]|
      ensures ok <==> old(spaces)[s][L1X(va)] != 0 || page != NIL
      ensures tables.Keys == old(tables).Keys + if ok && old(spaces)[s][L1X(va)] == 0 then {page} else {}
      ensures views == if ok then old(views)[s := Mapped(old(views)[s], PageNo(va), Encode(pa, flags))] else old(views)
      ensures spaces == if ok && old(spaces)[s][L1X(va)] == 0
                        then old(spaces)[s := old(spaces)[s][L1X(va) := CoarseEntry(page)]] else old(spaces)
    {
      PageNoSplits(va);
      assert Shows(spaces[s], tables, views[s]);
      if spaces[s][L1X(va)] == 0 {
        if page == NIL {
          return false;
        }
        NewTable(s, L1X(va), page);
      }
      DecodeEncode(pa, flags);
      StoreDescriptor(s, va, Encode(pa, flags));
      ok := true;
    }

    /** One operation. A map fails exactly when there is no table for it and no page to be had. */
    method Apply(s: Addr, op: MapOp, page: Addr) returns (ok: bool)
      requires Valid() && s in views && s in spaces
      requires page != NIL ==> Spare(page, spaces, tables)
      modifies this
      ensures Valid() && spaces.Keys == old(spaces).Keys && tables.Keys <= old(tables).Keys + {page}
      ensures ok <==> op.Unmap? || HasTable(old(spaces)[s], L1X(op.va)) || page != NIL
      ensures views == old(views)[s := After(old(views)[s], op, ok)]
      ensures forall x: nat :: HasTable(spaces[s], x) <==>
                               HasTable(old(spaces)[s], x) || (op.Map? && ok && x == L1X(op.va))
    {
      hide Stands;
      match op
      case Map(va, pa, flags) =>
        ok := SpaceMap(s, pa, va, flags, page);
        if page != NIL {
          SlotFilled(old(spaces)[s], L1X(va), page);
        }
      case Unmap(va) =>
        SpaceUnmap(s, va);
        ok := true;
    }

    /** Operations one after the other on one address space; `pages[j]` is get_page's answer to number `j`. */
    method Execute(s: Addr, ops: seq<MapOp>, pages: seq<Addr>) returns (oks: seq<bool>)
      requires Valid() && s in views && s in spaces
      requires |pages| == |ops| && Answers(pages, spaces, tables)
      modifies this
      ensures Valid() && spaces.Keys == old(spaces).Keys
      ensures |oks| == |ops| && forall j :: 0 <= j < |ops| ==> oks[j] == !Fails(old(spaces)[s], ops, pages, j)
      ensures views == old(views)[s := Perform(old(views)[s], ops, oks)]
    {
      hide Valid, After, HasTable, Aligned, Fails;
      oks := [];
      var j := 0;
      assert views[s := views[s]] == views;
      while j < |ops|
        invariant j <= |ops| == |pages| && |oks| == j && Valid()
        invariant spaces.Keys == old(spaces).Keys && s in spaces && s in views
        invariant views == old(views)[s := Perform(old(views)[s], ops[..j], oks)]
        invariant forall i :: j <= i < |ops| && pages[i] != NIL ==> pages[i] !in tables
        invariant forall x: nat :: HasTable(spaces[s], x) <==> HasTable(old(spaces)[s], x) || Started(ops, pages, j, x)
        invariant forall i :: 0 <= i < j ==> oks[i] == !Fails(old(spaces)[s], ops, pages, i)
      {
        FailsIff(old(spaces)[s], ops, pages, j);
        PerformNext(old(views)[s], ops, oks, j);
        var ok := Apply(s, ops[j], pages[j]);
        oks := oks + [ok];
        j := j + 1;
      }
      assert ops[..j] == ops;
    }
  }

  // ------------------------------------------------------------------ sequences of operations

  datatype MapOp = Map(va: Va, pa: Word, flags: Word) | Unmap(va: Va)

  function After(v: View, op: MapOp, ok: bool): View {
    if !ok then v
    else match op
      case Map(va, pa, flags) => Mapped(v, PageNo(va), Encode(pa, flags))
      case Unmap(va) => Unmapped(v, PageNo(va))
  }

  /** What space_map and space_unmap calls do to the view, first to last, given which of them succeeded. */
  function Perform(v: View, ops: seq<MapOp>, oks: seq<bool>): View
    requires |oks| == |ops|
  {
    if ops == [] then v
    else After(Perform(v, ops[..|ops| - 1], oks[..|ops| - 1]), ops[|ops| - 1], oks[|ops| - 1])
  }

  lemma PerformNext(v: View, ops: seq<MapOp>, oks: seq<bool>, j: nat)
    requires |oks| == j < |ops|
    ensures forall ok :: Perform(v, ops[..j + 1], oks + [ok]) == After(Perform(v, ops[..j], oks), ops[j], ok)
  {
    assert ops[..j + 1][..j] == ops[..j];
    forall ok
      ensures (oks + [ok])[..j] == oks
    {
    }
  }

  /** A map before number `j` in first-level slot `x` got a page for its table. */
  ghost predicate Started(ops: seq<MapOp>, pages: seq<Addr>, j: nat, x: nat)
    requires j <= |ops| == |pages|
  {
    exists i :: 0 <= i < j && ops[i].Map? && L1X(ops[i].va) == x && pages[i] != NIL
  }

  /** Operation `j` finds no table in its slot and gets no page, and no map before it got one there. */
  ghost predicate Fails(tab: seq<Word>, ops: seq<MapOp>, pages: seq<Addr>, j: nat)
    requires j < |ops| == |pages|
  {
    && ops[j].Map? && !HasTable(tab, L1X(ops[j].va)) && pages[j] == NIL
    && !Started(ops, pages, j, L1X(ops[j].va))
  }

  /** Which slots have tables after operation `j`, given which had before it. */
  lemma FailsIff(tab: seq<Word>, ops: seq<MapOp>, pages: seq<Addr>, j: nat)
    requires j < |ops| == |pages|
    ensures Fails(tab, ops, pages, j) <==>
            !(ops[j].Unmap? || HasTable(tab, L1X(ops[j].va)) || Started(ops, pages, j, L1X(ops[j].va)) ||
              pages[j] != NIL)
    ensures forall x: nat :: HasTable(tab, x) || Started(ops, pages, j + 1, x) <==>
              HasTable(tab, x) || Started(ops, pages, j, x)
              || (ops[j].Map? && !Fails(tab, ops, pages, j) && x == L1X(ops[j].va))
  {
    hide HasTable;
    forall x: nat
      ensures Started(ops, pages, j + 1, x) <==>
              Started(ops, pages, j, x) || (ops[j].Map? && L1X(ops[j].va) == x && pages[j] != NIL)
    {
    }
  }

  /** What space_find owes for page `p` after `ops`: the frame last mapped there with success, if it still is. */
  function LastFrame(v: View, ops: seq<MapOp>, oks: seq<bool>, p: nat): Word
    requires |oks| == |ops|
  {
    if ops == [] then FrameAt(v, p)
    else if PageNo(ops[|ops| - 1].va) != p || !oks[|ops| - 1] then LastFrame(v, ops[..|ops| - 1], oks[..|ops| - 1], p)
    else if ops[|ops| - 1].Map? then ops[|ops| - 1].pa
    else 0
  }

  lemma {:induction false} FindReturnsLastMapped(v: View, ops: seq<MapOp>, oks: seq<bool>, p: nat)
    requires |oks| == |ops| && forall k :: 0 <= k < |ops| && ops[k].Map? ==> Aligned(ops[k].pa)
    ensures FrameAt(Perform(v, ops, oks), p) == LastFrame(v, ops, oks, p)
  {
    if ops != [] {
      FindReturnsLastMapped(v, ops[..|ops| - 1], oks[..|ops| - 1], p);
      var last := ops[|ops| - 1];
      if last.Map? {
        DecodeEncode(last.pa, last.flags);
      }
    }
  }

  /** Two pages served by the same second-level table do not interfere. */
  lemma {:induction false} OtherPagesUntouched(v: View, ops: seq<MapOp>, oks: seq<bool>, p: nat)
    requires |oks| == |ops| && forall k :: 0 <= k < |ops| ==> PageNo(ops[k].va) != p
    ensures var w := Perform(v, ops, oks); (p in w <==> p in v) && (p in v ==> w[p] == v[p])
  {
    if ops != [] {
      OtherPagesUntouched(v, ops[..|ops| - 1], oks[..|ops| - 1], p);
    }
  }
}
