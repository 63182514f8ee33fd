/**
 The regions that am335x/kern/mem.c lists for proc0, and what proc0 does with them: the entry for MMCHS0
 repeats the one for GPIO3, so the registers of GPIO3 are granted to two processes.
 */
module Board {
  import opened Common
  import opened SectionBook
  import opened SectionLedger

  const GPIO3: Section := Section(0x481A_E000, 0x1000)

  /** In the order of the listing: USB, DMTimer1, UART0, GPIO0 to GPIO3, what stands for MMCHS0, and MMCHS2. */
  function IoRanges(): seq<Section> {
    [Section(0x4740_0000, 0x4000), Section(0x44E3_1000, 0x1000), Section(0x44E0_9000, 0x1000),
     Section(0x44E0_7000, 0x1000), Section(0x4804_C000, 0x1000), Section(0x481A_C000, 0x1000),
     GPIO3, Section(0x481A_E000, 0x1000), Section(0x4781_0000, 0x1_0000)]
  }

  function Devices(xs: seq<Section>): (rs: seq<Region>)
    ensures |rs| == |xs| && forall i :: 0 <= i < |xs| ==> rs[i] == Region(Io, xs[i])
  {
    seq(|xs|, i requires 0 <= i < |xs| => Region(Io, xs[i]))
  }

  /** RAM below the kernel and above it, then the devices. */
  function Listing(low: Section, high: Section): seq<Region> {
    [Region(Ram, low), Region(Ram, high)] + Devices(IoRanges())
  }

  /** What the linker gives: neither range is at nil or reaches the top, and the first has room for the holders. */
  predicate Linked(low: Section, high: Section) {
    0 < low.start && low.End() < WRAP && 0 < high.start && high.End() < WRAP && 2 * PAGE_SIZE <= low.len
  }

  lemma {:induction false} ListedAll(rs: seq<Region>)
    requires forall i :: 0 <= i < |rs| ==> rs[i].range.start != 0
    ensures Listed(rs) == rs
  {
    if rs != [] {
      assert rs[0].range.start != 0;
      forall i | 0 <= i < |rs[1..]|
        ensures rs[1..][i].range.start != 0
      {
        assert rs[1..][i] == rs[i + 1];
      }
      ListedAll(rs[1..]);
      assert rs == [rs[0]] + rs[1..];
    }
  }

  lemma RangesStep(rs: seq<Region>, r: Region, kind: Kind)
    ensures Ranges(rs + [r], kind) == if r.kind == kind then Ranges(rs, kind) + [r.range] else Ranges(rs, kind)
  {
    assert (rs + [r])[..|rs|] == rs;
    assert Ranges(rs, kind) + [] == Ranges(rs, kind);
  }

  lemma {:induction false} RangesOfDevices(rs: seq<Region>, xs: seq<Section>)
    ensures Ranges(rs + Devices(xs), Io) == Ranges(rs, Io) + xs
    ensures Ranges(rs + Devices(xs), Ram) == Ranges(rs, Ram)
    decreases |xs|
  {
    if xs == [] {
      assert rs + Devices(xs) == rs && Ranges(rs, Io) + xs == Ranges(rs, Io);
    } else {
      var before, x := xs[..|xs| - 1], xs[|xs| - 1];
      hide Ranges, Devices;
      assert xs == before + [x];
      RangesOfDevices(rs, before);
      DevicesMore(rs, before, x);
      RangesStep(rs + Devices(before), Region(Io, x), Io);
      RangesStep(rs + Devices(before), Region(Io, x), Ram);
      Regroup(Ranges(rs, Io), before, x);
    }
  }

  lemma DevicesMore(rs: seq<Region>, xs: seq<Section>, x: Section)
    ensures rs + Devices(xs + [x]) == rs + Devices(xs) + [Region(Io, x)]
  {
    assert Devices(xs + [x]) == Devices(xs) + [Region(Io, x)];
  }

  lemma Regroup(a: seq<Section>, b: seq<Section>, x: Section)
    ensures a + b + [x] == a + (b + [x])
  {
  }

  /** As long as the first holder has room, the I/O regions stand in it in their order, and nothing else does. */
  lemma {:induction false} FirstHolderSlots(l: Ledger, ks: seq<Region>)
    requires |Ranges(ks, Io)| <= PER_PAGE
    requires forall i :: 0 <= i < |ks| && ks[i].kind == Io ==> ks[i].range.len > 0
    ensures InitIo(l, ks).book.io.slots == Ranges(ks, Io) + EmptySlots()[|Ranges(ks, Io)|..]
    ensures forall i :: 0 <= i < |Ranges(ks, Io)| ==> Ranges(ks, Io)[i].len > 0
  {
    if ks == [] {
      assert EmptySlots()[0..] == EmptySlots();
    } else {
      var before, r := ks[..|ks| - 1], ks[|ks| - 1];
      FirstHolderSlots(l, before);
      var xs := Ranges(before, Io);
      if r.kind == Io {
        var slots := xs + EmptySlots()[|xs|..];
        FirstIs(slots, Free(), |xs|);
        assert slots[|xs| := r.range] == xs + [r.range] + EmptySlots()[|xs| + 1..];
      } else {
        assert Ranges(ks, Io) == xs;
      }
    }
  }

  lemma {:induction false} DevicesAreNoRam(rs: seq<Region>, xs: seq<Section>)
    ensures InitRam(rs + Devices(xs)) == InitRam(rs)
    decreases |xs|
  {
    var all := rs + Devices(xs);
    if xs == [] {
      assert all == rs;
    } else {
      DevicesAreNoRam(rs, xs[..|xs| - 1]);
      assert all[..|all| - 1] == rs + Devices(xs[..|xs| - 1]);
      assert all[|all| - 1] == Region(Io, xs[|xs| - 1]);
    }
  }

  lemma TwoRanges(low: Section, high: Section)
    ensures var two := [Region(Ram, low), Region(Ram, high)];
            Ranges(two, Io) == [] && Ranges(two, Ram) == [low, high] && Ranges(two[..0], Ram) == []
            && Ranges(two[..1], Ram) == [low]
  {
    var one, two := [Region(Ram, low)], [Region(Ram, low), Region(Ram, high)];
    assert one == [] + [one[0]] && two == one + [two[1]] && two[..1] == one && two[..0] == [];
    RangesStep([], one[0], Io);
    RangesStep([], one[0], Ram);
    RangesStep(one, two[1], Io);
    RangesStep(one, two[1], Ram);
    assert Ranges([], Io) == [] && Ranges([], Ram) == [];
    hide Ranges;
  }

  lemma TwoRams(low: Section, high: Section)
    requires Linked(low, high)
    ensures var two := [Region(Ram, low), Region(Ram, high)];
            && Ranges(two, Io) == [] && GetRam(InitRam(two).book, PAGE_SIZE).1 != 0
            && FirstHolds(two)
  {
    var one, two := [Region(Ram, low)], [Region(Ram, low), Region(Ram, high)];
    TwoRanges(low, high);
    hide Ranges;
    assert two[..1] == one && one[..0] == [];
    FirstRamIs(InitRam([]), one[0]);
    var slots := InitRam(one).book.ram.slots;
    assert InitRam(one) == AddRam(InitRam([]), one[0]);
    FirstIs(EmptySlots(), Free(), 0);
    assert slots == EmptySlots()[0 := AfterHolder(one[0])];
    FirstIs(slots, Free(), 1);
    assert InitRam(two).book.ram.slots == slots[1 := high];
    FirstIs(slots[1 := high], Fits(PAGE_SIZE), 0);
  }

  lemma IoRangesSound()
    ensures |IoRanges()| == 9 && IoRanges()[6] == IoRanges()[7] == GPIO3
    ensures forall k :: 0 <= k < 9 ==> IoRanges()[k].start > 0 && IoRanges()[k].len > 0 && IoRanges()[k].End() < WRAP
    ensures forall k :: 0 <= k < 6 ==> !Holds(0x481A_E000, 0x1000)(IoRanges()[k])
  {
  }

  lemma ListingSound(low: Section, high: Section)
    requires Linked(low, high)
    ensures var rs := Listing(low, high);
            forall i :: 0 <= i < |rs| ==>
              rs[i].range.start > 0 && rs[i].range.End() < WRAP && (rs[i].kind == Io ==> rs[i].range.len > 0)
  {
    IoRangesSound();
    hide IoRanges;
    var rs := Listing(low, high);
    assert forall i :: 2 <= i < |rs| ==> rs[i] == Region(Io, IoRanges()[i - 2]);
  }

  lemma BoardBoots(low: Section, high: Section)
    requires Linked(low, high)
    ensures Bootable(Listing(low, high)) && Listed(Listing(low, high)) == Listing(low, high)
    ensures Ranges(Listing(low, high), Io) == IoRanges()
  {
    hide InitRam, GetRam, Ranges, IoRanges, Listed;
    var rs, two := Listing(low, high), [Region(Ram, low), Region(Ram, high)];
    ListingSound(low, high);
    ListedAll(rs);
    TwoRams(low, high);
    RangesOfDevices(two, IoRanges());
    DevicesAreNoRam(two, IoRanges());
    forall i | 0 <= i < |rs| && rs[i].kind == Ram && Ranges(rs[..i], Ram) == []
      ensures rs[i].range.len >= PAGE_SIZE
    {
      assert rs[..i] == two[..i];
    }
  }

  /** A request for the registers of GPIO3. */
  const FOR_GPIO3: Request := Request(0x481A_E000, 0x1000)

  lemma SecondGrant(b: Book, i: nat, addr: nat, len: nat)
    requires i < |b.io.slots| && b.io.slots[i] == Section(addr, len) && 0 < addr && 0 < len && addr + len < WRAP
    requires forall j :: 0 <= j < i ==> !Holds(addr, len)(b.io.slots[j])
    ensures GetIo(b, addr, len) == (b.(io := b.io.(slots := b.io.slots[i := Section(addr, 0)])), addr)
  {
    FirstIs(b.io.slots, Holds(addr, len), i);
  }

  /** Booted on this listing, proc0 grants the same registers to whoever asks for them first and second. */
  lemma SameDeviceTwice(low: Section, high: Section)
    requires Linked(low, high)
    ensures var rs := Listing(low, high);
            var l := Init(rs);
            && Bootable(rs) && !Disjoint(Memory(rs))
            && Serve(l, FOR_GPIO3).1 == 0x481A_E000
            && Serve(Serve(l, FOR_GPIO3).0, FOR_GPIO3).1 == 0x481A_E000
            && Serve(Serve(l, FOR_GPIO3).0, FOR_GPIO3).0.ioOut == [GPIO3, GPIO3]
  {
    var rs := Listing(low, high);
    var l := Init(rs);
    BoardBoots(low, high);
    GpioSlots(low, high);
    BootsWithNothingOut(low, high);
    ListedTwice(Ranges(rs, Ram));
    hide Bootable, Listed, Init, InitRam, InitIo, Ranges, Disjoint, GetIo, GetRam, Listing, IoRanges;
    assert PageAlign(0x1000) == 0x1000;
    SecondGrant(l.book, 6, 0x481A_E000, 0x1000);
    var l1 := Serve(l, FOR_GPIO3).0;
    assert l1.book.io.slots == l.book.io.slots[6 := Section(0x481A_E000, 0)];
    SecondGrant(l1.book, 7, 0x481A_E000, 0x1000);
  }

  lemma BootsWithNothingOut(low: Section, high: Section)
    requires Linked(low, high)
    ensures Init(Listing(low, high)).ioOut == []
  {
    hide Listing, InitIo, InitRam;
    BoardBoots(low, high);
    var rs := Listing(low, high);
    RamStages(rs);
    NothingOutYet(InitRam(rs), rs);
  }

  lemma GpioSlots(low: Section, high: Section)
    requires Linked(low, high)
    ensures var slots := Init(Listing(low, high)).book.io.slots;
            && |slots| > 7 && slots[6] == slots[7] == GPIO3
            && forall j :: 0 <= j < 6 ==> !Holds(0x481A_E000, 0x1000)(slots[j])
  {
    hide Bootable, Listed, InitRam, InitIo, Ranges, Listing, IoRanges, Holds;
    var rs := Listing(low, high);
    BoardBoots(low, high);
    IoRangesSound();
    ListingSound(low, high);
    FirstHolderSlots(InitRam(rs), rs);
    var slots := Init(rs).book.io.slots;
    assert forall j :: 0 <= j < 9 ==> slots[j] == IoRanges()[j];
  }

  lemma {:induction false} NothingOutYet(l: Ledger, ks: seq<Region>)
    ensures InitIo(l, ks).ioOut == l.ioOut
  {
    if ks != [] {
      NothingOutYet(l, ks[..|ks| - 1]);
    }
  }

  lemma ListedTwice(ram: seq<Section>)
    ensures !Disjoint(ram + IoRanges())
  {
    var all := ram + IoRanges();
    assert all[|ram| + 6] == GPIO3 && all[|ram| + 7] == GPIO3;
    assert all[|ram| + 6].Has(0x481A_E000);
  }
}
