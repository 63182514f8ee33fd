/**
 What the MMU makes of the tables: the walk over short descriptors of section B3.5 of the ARM Architecture
 Reference Manual (DDI 0406C), written down apart from the code that fills them.
 */
module Translation {
  import opened Common
  import opened PageTable

  /** A page is at `frame`; AP and APX say who may access it, TEX, C and B how it is cached. */
  datatype Translation =
    | Fault
    | Page(frame: Word, offset: nat, ap: Word, apx: Word, tex: Word, c: Word, b: Word)
    | Elsewhere                              // sections, large pages and tables that are not there

  /** First-level descriptor by bits 31 to 20 of the address, second-level one by bits 19 to 12. */
  function Walk(tab: seq<Word>, tables: Tables, va: nat): Translation
    requires va / 0x10_0000 < |tab|
  {
    var d := tab[va / 0x10_0000];
    if d & 3 == 0 then Fault
    else if d & 3 != 1 || Addr(d & 0xFFFF_FC00) !in tables then Elsewhere
    else Second(tables[Addr(d & 0xFFFF_FC00)], va)
  }

  function Second(words: seq<Word>, va: nat): Translation {
    var i := va % 0x10_0000 / 0x1000;
    if i >= |words| then Elsewhere
    else
      var d := words[i];
      if d & 3 == 0 then Fault
      else if d & 2 == 0 then Elsewhere
      else
        Page(d & 0xFFFF_F000, va % 0x1000, (d >> 4) & 3, (d >> 9) & 1, (d >> 6) & 7, (d >> 3) & 1, (d >> 2) & 1)
  }

  /** Access from user mode, with AP[2] clear: reads with AP 2 and 3, writes with AP 3 alone. */
  predicate UserReads(t: Translation) { t.Page? && t.apx == 0 && (t.ap == 2 || t.ap == 3) }
  predicate UserWrites(t: Translation) { t.Page? && t.apx == 0 && t.ap == 3 }

  /** Normal memory that the caches may hold, by TEX, C and B; what is not is device memory. */
  predicate Cacheable(t: Translation) { t.Page? && t.tex == 7 && t.c == 1 && t.b == 0 }
  predicate Device(t: Translation) { t.Page? && t.tex == 0 && t.c == 0 && t.b == 1 }

  lemma CoarseBits(e: Word)
    ensures IsCoarse(e) ==> e & 3 == 1 && Addr(e & 0xFFFF_FC00) == TableOf(e)
    ensures e == 0 ==> e & 3 == 0
  {
  }

  lemma SplitAddress(va: Va)
    ensures va / 0x10_0000 == PageNo(va) / 256 && va % 0x10_0000 / 0x1000 == PageNo(va) % 256
  {
  }

  /** The walk reads the descriptor that the view has for the page. */
  lemma WalkReadsDescriptor(tab: seq<Word>, tables: Tables, va: Va)
    requires TabOk(tab, tables)
    ensures va / 0x10_0000 < |tab|
    ensures Walk(tab, tables, va) == Second(seq(256, _ => Descriptor(tab, tables, PageNo(va))), va)
  {
    hide Second, TableOf, IsCoarse;
    SplitAddress(va);
    PageNoSplits(va);
    var e, one := tab[va / 0x10_0000], seq(256, _ => Descriptor(tab, tables, PageNo(va)));
    CoarseBits(e);
    if e == 0 {
      NoDescriptor(one, va);
    } else {
      var words := tables[TableOf(e)];
      assert |words| == TABLE_WORDS && Descriptor(tab, tables, PageNo(va)) == words[PageNo(va) % 256];
      assert Walk(tab, tables, va) == Second(words, va);
      SameDescriptor(words, one, va);
    }
  }

  lemma NoDescriptor(words: seq<Word>, va: nat)
    requires va % 0x10_0000 / 0x1000 < |words| && words[va % 0x10_0000 / 0x1000] == 0
    ensures Second(words, va) == Fault
  {
  }

  lemma SameDescriptor(words: seq<Word>, others: seq<Word>, va: nat)
    requires va % 0x10_0000 / 0x1000 < |words| && va % 0x10_0000 / 0x1000 < |others|
    requires words[va % 0x10_0000 / 0x1000] == others[va % 0x10_0000 / 0x1000]
    ensures Second(words, va) == Second(others, va)
  {
  }

  /** What a successful map is for: the frame, writable and cached as its flags ask, readable always. */
  ghost predicate Reaches(t: Translation, pa: Word, flags: Word, va: nat) {
    && t.Page? && t.frame == pa && t.offset == va % 4096 && UserReads(t)
    && (UserWrites(t) <==> flags & ADDR_WRITE != 0)
    && (if flags & ADDR_CACHE != 0 then Cacheable(t) else Device(t))
  }

  lemma EncodedReaches(words: seq<Word>, pa: Word, flags: Word, va: nat)
    requires Aligned(pa) && va % 0x10_0000 / 0x1000 < |words|
    requires words[va % 0x10_0000 / 0x1000] == Encode(pa, flags)
    ensures Reaches(Second(words, va), pa, flags, va)
  {
    DescriptorFields(pa, flags);
    DecodeEncode(pa, flags);
    SmallType(Encode(pa, flags));
    hide Encode, Aligned;
  }

  lemma SmallType(d: Word)
    ensures d & 3 == 2 ==> d & 2 != 0
    ensures (d >> 9) & 7 == 0 ==> (d >> 9) & 1 == 0
  {
  }

  // ------------------------------------------------------------------ runs of operations

  /** The frame and flags last mapped at page `p` with success, if it has not been unmapped since. */
  function LastMap(ops: seq<MapOp>, oks: seq<bool>, p: nat): Option<MapOp>
    requires |oks| == |ops|
  {
    if ops == [] then None
    else
      var last := ops[|ops| - 1];
      if last.va / 4096 != p || !oks[|ops| - 1] then LastMap(ops[..|ops| - 1], oks[..|ops| - 1], p)
      else if last.Map? then Some(last)
      else None
  }

  lemma {:induction false} PerformsLastMap(ops: seq<MapOp>, oks: seq<bool>, p: nat)
    requires |oks| == |ops|
    ensures var v, last := Perform(map[], ops, oks), LastMap(ops, oks, p);
            && (p in v <==> last.Some?)
            && (last.Some? ==> last.value.Map? && last.value in ops && v[p] == Encode(last.value.pa, last.value.flags))
  {
    hide Encode;
    if ops != [] {
      PerformsLastMap(ops[..|ops| - 1], oks[..|ops| - 1], p);
    }
  }

  /**
   After any sequence of maps and unmaps, failing ones included, on a new address space: an access at `va`
   goes to the frame last mapped there, at the same offset in the page and with the rights and the caching
   that map asked for, and faults if there is none.
   */
  lemma AccessReachesLastMapped(
    spaces: Spaces, tables: Tables, views: Views, s: Addr, ops: seq<MapOp>, oks: seq<bool>, va: Va)
    requires Stands(spaces, tables, views) && s in spaces
    requires |oks| == |ops| && views[s] == Perform(map[], ops, oks)
    requires forall k :: 0 <= k < |ops| && ops[k].Map? ==> Aligned(ops[k].pa)
    ensures va / 0x10_0000 < |spaces[s]|
    ensures var t, last := Walk(spaces[s], tables, va), LastMap(ops, oks, va / 4096);
            if last.Some? then last.value.Map? && Reaches(t, last.value.pa, last.value.flags, va) else t == Fault
  {
    assert Shows(spaces[s], tables, views[s]);
    var d := Descriptor(spaces[s], tables, PageNo(va));
    var words := seq(256, _ => d);
    PageNoSplits(va);
    PerformsLastMap(ops, oks, PageNo(va));
    assert PageNo(va) in views[s] <==> d != 0;
    hide Encode, Reaches, Stands, LastMap, Perform, Descriptor, Aligned;
    WalkReadsDescriptor(spaces[s], tables, va);
    var last := LastMap(ops, oks, va / 4096);
    if last.Some? {
      EncodedReaches(words, last.value.pa, last.value.flags, va);
    }
  }
}
