/** When the image of module ElfImage is what memory will hold, wherever in the headers the first segment is. */
module ElfFaithful {
  import opened Common
  import opened ImageWriter
  import opened ElfImage

  /** The same file without the headers before its first segment. */
  function Trimmed(elf: Elf): Elf {
    elf.(phdrs := elf.phdrs[FirstLoad(elf.phdrs)..])
  }

  /** The gap that the emit pass sees before the first segment. */
  function FirstGap(f: Format, elf: Elf): nat
    requires FirstLoad(elf.phdrs) < |elf.phdrs|
  {
    if FirstLoad(elf.phdrs) == 0 then 0 else Size(elf.phdrs[FirstLoad(elf.phdrs)].vaddr - EsymVal(f, elf))
  }

  lemma {:induction false} TrimmedLastEnd(f: Format, elf: Elf, n: nat)
    requires FirstLoad(elf.phdrs) <= n <= |elf.phdrs|
    ensures LastEnd(f, elf.phdrs, n) == LastEnd(f, Trimmed(elf).phdrs, n - FirstLoad(elf.phdrs))
  {
    hide End;
    if n > 0 {
      if n > FirstLoad(elf.phdrs) {
        TrimmedLastEnd(f, elf, n - 1);
      } else {
        NoLastEnd(f, elf.phdrs, n);
      }
    }
  }

  lemma {:induction false} NoLastEnd(f: Format, phdrs: seq<Phdr>, n: nat)
    requires n <= |phdrs| && forall k :: 0 <= k < n ==> !IsLoad(phdrs[k])
    ensures LastEnd(f, phdrs, n) == 0
  {
    if n > 0 {
      NoLastEnd(f, phdrs, n - 1);
    }
  }

  lemma {:induction false} SameLayout(f: Format, elf: Elf, trimmed: Elf, j: nat)
    requires j <= |elf.shdrs| && trimmed.shdrs == elf.shdrs
    ensures SymOffset(f, trimmed, j) == SymOffset(f, elf, j)
  {
    if j > 0 {
      SameLayout(f, elf, trimmed, j - 1);
    }
  }

  lemma TrimmedEsymVal(f: Format, elf: Elf)
    ensures EsymVal(f, Trimmed(elf)) == EsymVal(f, elf) && ImageEnd(f, Trimmed(elf)) == ImageEnd(f, elf)
  {
    TrimmedLastEnd(f, elf, |elf.phdrs|);
    SameLayout(f, elf, Trimmed(elf), |elf.shdrs|);
    hide Wrap, LastEnd, SymOffset;
  }

  lemma TrimmedSegment(f: Format, elf: Elf, p: Phdr, a: nat)
    ensures SegmentBytes(f, Trimmed(elf), p) == SegmentBytes(f, elf, p)
    ensures LoadedByte(f, Trimmed(elf), p, a) == LoadedByte(f, elf, p, a)
  {
    TrimmedEsymVal(f, elf);
    hide EsymVal, Wrap, Size, Cut, FirstLoad, ImageEnd;
  }

  lemma EmitNext(f: Format, elf: Elf, n: nat)
    requires 1 < n <= |elf.phdrs|
    ensures var p, s, r := elf.phdrs[n - 1], Emit(f, elf, n - 1), Emit(f, elf, n);
            if IsLoad(p) then
              && r.out == s.out + Zeroes(Size(p.vaddr - s.vaddr)) + SegmentBytes(f, elf, p)
              && r.vaddr == End(f, p) && r.ovaddr == (if p.filesz != 0 then End(f, p) else p.vaddr)
            else r == s
  {
    hide SegmentBytes, Size, End, Zeroes;
  }

  /** What the headers before the first segment do to the output: the gap, and nothing else. */
  lemma {:induction false} TrimmedEmit(f: Format, elf: Elf, n: nat)
    requires FirstLoad(elf.phdrs) < n <= |elf.phdrs|
    ensures var s, t := Emit(f, elf, n), Emit(f, Trimmed(elf), n - FirstLoad(elf.phdrs));
            s.out == Zeroes(FirstGap(f, elf)) + t.out && s.vaddr == t.vaddr && s.ovaddr == t.ovaddr
  {
    var i := FirstLoad(elf.phdrs);
    if n == i + 1 {
      FirstEmit(f, elf);
    } else {
      assert |Trimmed(elf).phdrs| == |elf.phdrs| - i && Trimmed(elf).phdrs[n - 1 - i] == elf.phdrs[n - 1];
      TrimmedEmit(f, elf, n - 1);
      TrimmedStep(f, elf, Trimmed(elf), i, n, Zeroes(FirstGap(f, elf)));
    }
  }

  lemma TrimmedStep(f: Format, elf: Elf, trimmed: Elf, i: nat, n: nat, gap: seq<Byte>)
    requires trimmed == Trimmed(elf) && i + 1 < n <= |elf.phdrs| && n - i <= |trimmed.phdrs|
    requires trimmed.phdrs[n - 1 - i] == elf.phdrs[n - 1]
    requires var s, t := Emit(f, elf, n - 1), Emit(f, trimmed, n - 1 - i);
             s.out == gap + t.out && s.vaddr == t.vaddr && s.ovaddr == t.ovaddr
    ensures var s, t := Emit(f, elf, n), Emit(f, trimmed, n - i);
            s.out == gap + t.out && s.vaddr == t.vaddr && s.ovaddr == t.ovaddr
  {
    hide Emit, SegmentBytes, Size, End, Trimmed;
    var p := elf.phdrs[n - 1];
    TrimmedSegment(f, elf, p, 0);
    EmitNext(f, elf, n);
    EmitNext(f, trimmed, n - i);
    var s, t := Emit(f, elf, n - 1), Emit(f, trimmed, n - 1 - i);
    Assoc4(gap, t.out, Zeroes(Size(p.vaddr - s.vaddr)), SegmentBytes(f, elf, p));
  }

  lemma Assoc4(a: seq<Byte>, b: seq<Byte>, c: seq<Byte>, d: seq<Byte>)
    ensures a + b + c + d == a + (b + c + d)
  {
  }

  lemma EmitStart(f: Format, elf: Elf, i: nat)
    requires i < |elf.phdrs| && IsLoad(elf.phdrs[i]) && forall k :: 0 <= k < i ==> !IsLoad(elf.phdrs[k])
    ensures Emit(f, elf, i + 1) == Segment(f, elf, Pass([], EsymVal(f, elf), 0), i)
  {
    NothingYet(f, elf, i);
    hide Segment, EsymVal;
  }

  lemma FirstSegment(f: Format, elf: Elf, i: nat)
    requires i < |elf.phdrs|
    ensures var p, r := elf.phdrs[i], Segment(f, elf, Pass([], EsymVal(f, elf), 0), i);
            && r.out == Zeroes(if i == 0 then 0 else Size(p.vaddr - EsymVal(f, elf))) + SegmentBytes(f, elf, p)
            && r.vaddr == End(f, p) && r.ovaddr == (if p.filesz != 0 then End(f, p) else p.vaddr)
  {
    var gap := Zeroes(if i == 0 then 0 else Size(elf.phdrs[i].vaddr - EsymVal(f, elf)));
    hide SegmentBytes, Size, End, EsymVal, Zeroes;
    assert [] + gap == gap;
  }

  lemma NoZeroes(xs: seq<Byte>)
    ensures Zeroes(0) + xs == xs
  {
  }

  lemma TrimmedHeader(elf: Elf, n: nat)
    requires FirstLoad(elf.phdrs) <= n <= |elf.phdrs|
    ensures |Trimmed(elf).phdrs| == |elf.phdrs| - FirstLoad(elf.phdrs)
    ensures n > FirstLoad(elf.phdrs) ==> Trimmed(elf).phdrs[n - FirstLoad(elf.phdrs) - 1] == elf.phdrs[n - 1]
  {
  }

  lemma FirstGapIs(f: Format, elf: Elf)
    requires FirstLoad(elf.phdrs) < |elf.phdrs|
    ensures var i := FirstLoad(elf.phdrs);
            FirstGap(f, elf) == if i == 0 then 0 else Size(elf.phdrs[i].vaddr - EsymVal(f, elf))
  {
  }

  lemma FirstEmit(f: Format, elf: Elf)
    requires FirstLoad(elf.phdrs) < |elf.phdrs| && |Trimmed(elf).phdrs| > 0
    ensures var i := FirstLoad(elf.phdrs);
            var s, t := Emit(f, elf, i + 1), Emit(f, Trimmed(elf), 1);
            s.out == Zeroes(FirstGap(f, elf)) + t.out && s.vaddr == t.vaddr && s.ovaddr == t.ovaddr
  {
    hide *;
    var i := FirstLoad(elf.phdrs);
    var p := elf.phdrs[i];
    TrimmedHeader(elf, i + 1);
    FirstGapIs(f, elf);
    EmitStart(f, elf, i);
    FirstSegment(f, elf, i);
    EmitStart(f, Trimmed(elf), 0);
    FirstSegment(f, Trimmed(elf), 0);
    TrimmedSegment(f, elf, p, 0);
    NoZeroes(SegmentBytes(f, elf, p));
  }

  lemma TrimmedBody(f: Format, elf: Elf)
    requires FirstLoad(elf.phdrs) < |elf.phdrs|
    ensures Body(f, elf) == Zeroes(FirstGap(f, elf)) + Body(f, Trimmed(elf))
  {
    assert |Trimmed(elf).phdrs| == |elf.phdrs| - FirstLoad(elf.phdrs);
    hide Emit, FirstGap, Wrap, Size, Roundup, Trimmed, FirstLoad, Zeroes;
    TrimmedEmit(f, elf, |elf.phdrs|);
  }

  lemma {:induction false} TrimmedLoaded(f: Format, elf: Elf, n: nat, a: nat)
    requires FirstLoad(elf.phdrs) <= n <= |elf.phdrs| && n - FirstLoad(elf.phdrs) <= |Trimmed(elf).phdrs|
    ensures Loaded(f, elf, n, a) == Loaded(f, Trimmed(elf), n - FirstLoad(elf.phdrs), a)
  {
    hide *;
    var i := FirstLoad(elf.phdrs);
    TrimmedHeader(elf, n);
    if n > i {
      TrimmedLoaded(f, elf, n - 1, a);
      TrimmedSegment(f, elf, elf.phdrs[n - 1], a);
      LoadedStep(f, elf, n, a);
      LoadedStep(f, Trimmed(elf), n - i, a);
    } else {
      NothingLoaded(f, elf, n, a);
      NothingLoaded(f, Trimmed(elf), 0, a);
    }
  }

  lemma LoadedStep(f: Format, elf: Elf, n: nat, a: nat)
    requires 0 < n <= |elf.phdrs|
    ensures var p := elf.phdrs[n - 1];
            Loaded(f, elf, n, a) ==
            if p.kind == PT_LOAD && p.vaddr <= a < p.vaddr + p.filesz then LoadedByte(f, elf, p, a)
            else Loaded(f, elf, n - 1, a)
  {
    hide LoadedByte;
  }

  lemma {:induction false} NothingLoaded(f: Format, elf: Elf, n: nat, a: nat)
    requires n <= |elf.phdrs| && forall k :: 0 <= k < n ==> !IsLoad(elf.phdrs[k])
    ensures Loaded(f, elf, n, a) == 0
  {
    hide LoadedByte;
    if n > 0 {
      NothingLoaded(f, elf, n - 1, a);
    }
  }

  // ------------------------------------------------------------------ the theorem

  /** A file that is accepted, with sound segments after whatever headers are skipped. */
  ghost predicate Sound(f: Format, elf: Elf) {
    FirstLoad(elf.phdrs) < |elf.phdrs| && Readable(f, elf) && Loadable(f, Trimmed(elf))
  }

  /** The image and the symbols together take less than half of what a 32-bit size can say. */
  ghost predicate Moderate(f: Format, elf: Elf)
    requires FirstLoad(elf.phdrs) < |elf.phdrs|
  {
    ImageEnd(f, elf) - elf.phdrs[FirstLoad(elf.phdrs)].vaddr + SymOffset(f, elf, |elf.shdrs|) < 0x8000_0000
  }

  lemma GapWraps(f: Format, base: nat, end: nat, s: nat)
    requires base <= end && 0 < s && end - base + s < 0x8000_0000
    ensures Size(base - Wrap(f, end + s)) > 0x8000_0000
  {
    var x := end + s;
    assert Size(base - Wrap(f, x)) == Size(base - x) by {
      SizeOfWrap(f, base, x);
    }
    assert base - x == -(end - base + s);
  }

  lemma SizeOfWrap(f: Format, base: nat, x: nat)
    ensures Size(base - Wrap(f, x)) == Size(base - x)
  {
    if f.word == 4 {
      var k := x / 0x1_0000_0000;
      assert x == Wrap(f, x) + 0x1_0000_0000 * k;
      SizeShift(base - x, k);
    } else {
      var k := x / 0x1_0000_0000_0000_0000;
      assert x == Wrap(f, x) + 0x1_0000_0000_0000_0000 * k;
      SizeShift(base - x, 0x1_0000_0000 * k);
    }
  }

  lemma SizeShift(x: int, k: nat)
    ensures Size(x + 0x1_0000_0000 * k) == Size(x)
  {
  }

  /** The symbol block starts with the ELF header, so the symbols are never empty. */
  lemma {:induction false} SymbolsTakeRoom(f: Format, elf: Elf)
    requires Proper(f)
    ensures SymOffset(f, elf, |elf.shdrs|) >= 52
  {
    SymOffsetGrows(f, elf, 0, |elf.shdrs|);
    HeadAligned(f, elf);
    hide Roundup;
    assert f.shdrSize * |elf.shdrs| >= 0;
  }

  /** A gap before the first segment is longer than the whole of memory. */
  lemma LateStartIsUnfaithful(f: Format, elf: Elf)
    requires Sound(f, elf) && Moderate(f, elf) && FirstLoad(elf.phdrs) > 0
    ensures !Faithful(f, elf)
  {
    var base := elf.phdrs[FirstLoad(elf.phdrs)].vaddr;
    var t := Trimmed(elf);
    TrimmedEsymVal(f, elf);
    TrimmedBody(f, elf);
    SymbolsTakeRoom(f, elf);
    BodyLength(f, t);
    EndsAfterStart(f, t);
    var e, s := ImageEnd(f, elf), SymOffset(f, elf, |elf.shdrs|);
    GapWraps(f, base, e, s);
    hide Body, ImageEnd, Wrap, Size, Loadable;
    assert |Body(f, elf)| > 0x8000_0000;
    assert Roundup(f, e) <= e + 7;
  }

  lemma EndsAfterStart(f: Format, elf: Elf)
    requires Loadable(f, elf)
    ensures elf.phdrs[0].vaddr <= ImageEnd(f, elf)
  {
    var n := |elf.phdrs|;
    AllReached(f, elf, n, 0);
    SinceLastLoad(f, elf, n);
    EmitEnd(f, elf, n);
    hide Emit, LastEnd, Loadable;
  }

  lemma TrimmedBssLast(elf: Elf)
    requires FirstLoad(elf.phdrs) == 0
    ensures Trimmed(elf) == elf
  {
    assert elf.phdrs[0..] == elf.phdrs;
  }

  /**
   The image is the memory that a loader makes of the file exactly when the first header is a segment
   and no segment but the last has memory without file bytes.
   */
  lemma FaithfulIff(f: Format, elf: Elf)
    requires Sound(f, elf) && Moderate(f, elf)
    ensures Faithful(f, elf) <==> elf.phdrs[0].kind == PT_LOAD && BssLast(elf)
  {
    if FirstLoad(elf.phdrs) == 0 {
      TrimmedBssLast(elf);
      FaithfulIffBssLast(f, elf);
    } else {
      LateStartIsUnfaithful(f, elf);
    }
  }

  // ------------------------------------------------------------------ two files

  /** ELF32 with records of zeroes: what the encoders write does not matter to the image. */
  function Blank32(): Format {
    Format(4, 52, 40, e => Zeroes(52), s => Zeroes(40), x => Zeroes(4))
  }

  /** Three segments of four bytes each, the middle one with none of them in the file. */
  function MiddleBss(): Elf {
    Elf(Zeroes(8), Ehdr(0, 0, 0, 0, []),
        [Phdr(PT_LOAD, 0x1000, 0, 4, 4), Phdr(PT_LOAD, 0x1004, 0, 0, 4), Phdr(PT_LOAD, 0x1008, 4, 4, 4)], [])
  }

  lemma MiddleBssAscends()
    ensures Ascending(Blank32(), MiddleBss()) && PatchInside(Blank32(), MiddleBss())
  {
    assert EsymOf(MiddleBss()) == 0;
    hide Proper, Readable;
  }

  lemma MiddleBssIsLoadable()
    ensures Loadable(Blank32(), MiddleBss())
  {
    MiddleBssAscends();
    hide Ascending, PatchInside;
    assert EsymOf(MiddleBss()) == 0;
  }

  /** Its image is four bytes short, and the last segment is at the wrong place. */
  lemma MiddleBssExample()
    ensures Loadable(Blank32(), MiddleBss()) && !Faithful(Blank32(), MiddleBss()) && |Body(Blank32(), MiddleBss())| == 8
  {
    var f, elf := Blank32(), MiddleBss();
    var p := elf.phdrs;
    MiddleBssIsLoadable();
    assert Pending(p, 1) == 0 && Pending(p, 2) == 4;
    assert Dropped(p, 1) == 0 && Dropped(p, 2) == 0 && Dropped(p, 3) == 4;
    assert LastEnd(f, p, 3) == 0x100c && Roundup(f, 0x100c) == 0x100c;
    assert IsLoad(p[1]) && IsLoad(p[2]) && p[1].filesz == 0 && p[1].memsz == 4;
    hide Body, Loadable, Faithful, Dropped, LastEnd, Roundup;
    BodyLength(f, elf);
    FaithfulIffBssLast(f, elf);
  }
}
