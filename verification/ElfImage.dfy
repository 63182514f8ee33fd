/**
 What tools/mkuboot/copy_elf.c makes of an ELF file: a layout pass that fixes where the symbols will
 be, then the loadable segments as memory will hold them, then a block with the symbol sections.
 The headers are taken as already parsed; `file` is what the offsets in them refer to.
 */
module ElfImage {
  import opened Common
  import opened ImageWriter

  const PT_NULL: nat := 0
  const PT_LOAD: nat := 1
  const PT_NOTE: nat := 4
  const PT_OPENBSD_RANDOMIZE: nat := 0x65a3_dbe6
  const SHT_SYMTAB: nat := 2
  const SHT_STRTAB: nat := 3

  datatype Ehdr = Ehdr(phoff: nat, shoff: nat, phentsize: nat, phnum: nat, rest: seq<Byte>)
  datatype Phdr = Phdr(kind: nat, vaddr: nat, offset: nat, filesz: nat, memsz: nat)
  datatype Shdr = Shdr(kind: nat, flags: nat, addr: nat, offset: nat, size: nat, rest: seq<Byte>)

  datatype Elf = Elf(file: seq<Byte>, ehdr: Ehdr, phdrs: seq<Phdr>, shdrs: seq<Shdr>)

  /** The two ways copy_elf.c is compiled: sizes, and how records become bytes. */
  datatype Format = Format(word: nat, ehdrSize: nat, shdrSize: nat,
                           encodeEhdr: Ehdr -> seq<Byte>, encodeShdr: Shdr -> seq<Byte>, encodeWord: nat -> seq<Byte>)

  ghost predicate Proper(f: Format) {
    && ((f.word == 4 && f.ehdrSize == 52 && f.shdrSize == 40) || (f.word == 8 && f.ehdrSize == 64 && f.shdrSize == 64))
    && (forall e :: |f.encodeEhdr(e)| == f.ehdrSize)
    && (forall s :: |f.encodeShdr(s)| == f.shdrSize)
    && (forall x :: |f.encodeWord(x)| == f.word)
  }

  /** Elf_Addr arithmetic. */
  function Wrap(f: Format, x: int): nat {
    if f.word == 4 then x % 0x1_0000_0000 else x % 0x1_0000_0000_0000_0000
  }

  /** Sizes are passed to the writer as Elf_Word, which has 32 bits in either format. */
  function Size(x: int): nat { x % 0x1_0000_0000 }

  function Roundup(f: Format, x: nat): nat {
    if f.word == 4 then (x + 3) / 4 * 4 else (x + 7) / 8 * 8
  }

  predicate IsLoad(p: Phdr) { p.kind == PT_LOAD }
  predicate IsSkipped(p: Phdr) { p.kind == PT_NULL || p.kind == PT_NOTE || p.kind == PT_OPENBSD_RANDOMIZE }
  predicate IsSymbols(s: Shdr) { s.kind == SHT_SYMTAB || s.kind == SHT_STRTAB }

  /** SHF_WRITE and SHF_ALLOC. */
  predicate IsData(s: Shdr) { s.flags % 2 == 1 && s.flags / 2 % 2 == 1 }

  function End(f: Format, p: Phdr): nat { Wrap(f, p.vaddr + p.memsz) }

  // ------------------------------------------------------------------ the layout pass

  /** Where the last loaded segment of the first `n` headers ends. */
  function LastEnd(f: Format, phdrs: seq<Phdr>, n: nat): nat
    requires n <= |phdrs|
  {
    if n == 0 then 0
    else if IsLoad(phdrs[n - 1]) then End(f, phdrs[n - 1])
    else LastEnd(f, phdrs, n - 1)
  }

  function HeadSize(f: Format, elf: Elf): nat { f.ehdrSize + f.shdrSize * |elf.shdrs| }

  /** Where section `j`, if it holds symbols, starts in the symbol block. */
  function SymOffset(f: Format, elf: Elf, j: nat): nat
    requires j <= |elf.shdrs|
  {
    if j == 0 then Roundup(f, HeadSize(f, elf))
    else SymOffset(f, elf, j - 1) + if IsSymbols(elf.shdrs[j - 1]) then Roundup(f, elf.shdrs[j - 1].size) else 0
  }

  /** The section headers with the offsets of symbol sections rewritten. */
  function Rewritten(f: Format, elf: Elf, n: nat): (w: seq<Shdr>)
    requires n <= |elf.shdrs|
    ensures |w| == |elf.shdrs|
    ensures forall j :: 0 <= j < |w| ==>
              w[j] == if j < n && IsSymbols(elf.shdrs[j])
                      then elf.shdrs[j].(offset := Wrap(f, SymOffset(f, elf, j)))
                      else elf.shdrs[j]
  {
    if n == 0 then elf.shdrs
    else
      var w := Rewritten(f, elf, n - 1);
      if IsSymbols(w[n - 1]) then w[n - 1 := w[n - 1].(offset := Wrap(f, SymOffset(f, elf, n - 1)))] else w
  }

  /** The address of the first data section, to be patched with the end of the symbols. */
  function Esym(shdrs: seq<Shdr>, n: nat): nat
    requires n <= |shdrs|
  {
    if n == 0 then 0
    else if Esym(shdrs, n - 1) == 0 && IsData(shdrs[n - 1]) then shdrs[n - 1].addr
    else Esym(shdrs, n - 1)
  }

  function EsymOf(elf: Elf): nat { Esym(elf.shdrs, |elf.shdrs|) }

  function EsymVal(f: Format, elf: Elf): nat {
    Wrap(f, LastEnd(f, elf.phdrs, |elf.phdrs|) + SymOffset(f, elf, |elf.shdrs|))
  }

  // ------------------------------------------------------------------ the emit pass

  /** The word to patch starts in the file part of this segment. */
  predicate Patches(f: Format, elf: Elf, p: Phdr) {
    p.vaddr <= EsymOf(elf) < Wrap(f, p.vaddr + p.filesz)
  }

  /** What is copied of a segment before the patched word, and how much comes after it. */
  function Before(elf: Elf, p: Phdr): nat { Size(EsymOf(elf) - p.vaddr) }
  function After(f: Format, elf: Elf, p: Phdr): nat { Size(p.filesz - (EsymOf(elf) - p.vaddr) - f.word) }

  /** Where the copying resumes after the patched word. */
  function Resume(f: Format, elf: Elf, p: Phdr): nat
    requires Patches(f, elf, p)
  {
    p.offset + (EsymOf(elf) - p.vaddr) + f.word
  }

  function FilePart(f: Format, elf: Elf, p: Phdr): seq<Byte> {
    if Patches(f, elf, p) then
      Cut(elf.file, p.offset, Before(elf, p)) + f.encodeWord(EsymVal(f, elf))
      + Cut(elf.file, Resume(f, elf, p), After(f, elf, p))
    else
      Cut(elf.file, p.offset, Size(p.filesz))
  }

  predicate SegmentReadable(f: Format, elf: Elf, p: Phdr) {
    if p.filesz == 0 then true
    else if Patches(f, elf, p) then
      CanCut(elf.file, p.offset, Before(elf, p)) && CanCut(elf.file, Resume(f, elf, p), After(f, elf, p))
    else
      CanCut(elf.file, p.offset, Size(p.filesz))
  }

  function SegmentBytes(f: Format, elf: Elf, p: Phdr): seq<Byte> {
    if p.filesz == 0 then [] else FilePart(f, elf, p) + Zeroes(Size(p.memsz - p.filesz))
  }

  /** The emit pass between two headers: what is out, the address reached, and the address filled up to. */
  datatype Pass = Pass(out: seq<Byte>, vaddr: nat, ovaddr: nat)

  function Segment(f: Format, elf: Elf, s: Pass, i: nat): Pass
    requires i < |elf.phdrs|
  {
    var p := elf.phdrs[i];
    Pass(s.out + Zeroes(if i == 0 then 0 else Size(p.vaddr - s.vaddr)) + SegmentBytes(f, elf, p),
         End(f, p), if p.filesz != 0 then End(f, p) else p.vaddr)
  }

  function Emit(f: Format, elf: Elf, n: nat): Pass
    requires n <= |elf.phdrs|
  {
    if n == 0 then Pass([], EsymVal(f, elf), 0)
    else if IsLoad(elf.phdrs[n - 1]) then Segment(f, elf, Emit(f, elf, n - 1), n - 1)
    else Emit(f, elf, n - 1)
  }

  /** The segments, padded to a whole word. */
  function Body(f: Format, elf: Elf): seq<Byte> {
    var s := Emit(f, elf, |elf.phdrs|);
    s.out + Zeroes(Size(Wrap(f, Roundup(f, s.vaddr)) - s.ovaddr))
  }

  predicate HaveSyms(elf: Elf) {
    exists j :: 0 <= j < |elf.shdrs| && elf.shdrs[j].kind == SHT_SYMTAB
  }

  function Headers(f: Format, w: seq<Shdr>): seq<Byte> {
    if w == [] then [] else Headers(f, w[..|w| - 1]) + f.encodeShdr(w[|w| - 1])
  }

  /** The symbol sections among the first `n`, each padded to a whole word. */
  function SymData(f: Format, elf: Elf, n: nat): seq<Byte>
    requires n <= |elf.shdrs|
  {
    if n == 0 then []
    else if IsSymbols(elf.shdrs[n - 1]) then
      var s := elf.shdrs[n - 1];
      SymData(f, elf, n - 1) + Cut(elf.file, s.offset, Size(s.size)) + Zeroes(Size(Roundup(f, s.size) - s.size))
    else SymData(f, elf, n - 1)
  }

  function BlockEhdr(f: Format, elf: Elf): Ehdr {
    elf.ehdr.(phoff := 0, shoff := f.ehdrSize, phentsize := 0, phnum := 0)
  }

  function Block(f: Format, elf: Elf): seq<Byte> {
    f.encodeEhdr(BlockEhdr(f, elf)) + Headers(f, Rewritten(f, elf, |elf.shdrs|)) + SymData(f, elf, |elf.shdrs|)
  }

  /** Everything copy_elf writes. */
  function Output(f: Format, elf: Elf): seq<Byte> {
    Body(f, elf) + if HaveSyms(elf) then Block(f, elf) else []
  }

  /** What copy_elf reads is in the file, and it knows every segment type. */
  ghost predicate Readable(f: Format, elf: Elf) {
    && (forall i :: 0 <= i < |elf.phdrs| ==> PhdrReadable(f, elf, elf.phdrs[i]))
    && (HaveSyms(elf) ==> forall j :: 0 <= j < |elf.shdrs| ==> ShdrReadable(elf, elf.shdrs[j]))
  }

  predicate PhdrReadable(f: Format, elf: Elf, p: Phdr) {
    if p.kind == PT_LOAD then SegmentReadable(f, elf, p) else p.kind in {PT_NULL, PT_NOTE, PT_OPENBSD_RANDOMIZE}
  }

  predicate ShdrReadable(elf: Elf, s: Shdr) {
    s.kind in {SHT_SYMTAB, SHT_STRTAB} ==> CanCut(elf.file, s.offset, Size(s.size))
  }

  // ------------------------------------------------------------------ the two passes agree

  /** Where the emit pass thinks the symbols end. */
  function FinalVaddr(f: Format, elf: Elf): nat {
    Wrap(f, Roundup(f, Emit(f, elf, |elf.phdrs|).vaddr) + SymOffset(f, elf, |elf.shdrs|))
  }

  lemma {:induction false} EmitEnd(f: Format, elf: Elf, n: nat)
    requires n <= |elf.phdrs| && exists i :: 0 <= i < n && IsLoad(elf.phdrs[i])
    ensures Emit(f, elf, n).vaddr == LastEnd(f, elf.phdrs, n)
  {
    if !IsLoad(elf.phdrs[n - 1]) {
      EmitEnd(f, elf, n - 1);
    }
  }

  lemma Up4(e: nat)
    ensures e <= (e + 3) / 4 * 4 < e + 4 && ((e + 3) / 4 * 4 == e <==> e % 4 == 0)
  {
  }

  lemma Up8(e: nat)
    ensures e <= (e + 7) / 8 * 8 < e + 8 && ((e + 7) / 8 * 8 == e <==> e % 8 == 0)
  {
  }

  lemma RoundupIs(f: Format, e: nat)
    requires f.word == 4 || f.word == 8
    ensures 0 <= Roundup(f, e) - e < f.word && (Roundup(f, e) == e <==> e % f.word == 0)
  {
    Up4(e);
    Up8(e);
  }

  /** Adding less than `m` changes the remainder unless it adds nothing. */
  lemma SameRemainder(x: nat, d: nat, m: nat)
    requires d < m
    ensures (x + d) % m == x % m <==> d == 0
  {
    assert x == x / m * m + x % m && x + d == (x + d) / m * m + (x + d) % m;
    if (x + d) % m == x % m {
      NoMultiple(d, (x + d) / m - x / m, m);
    }
  }

  lemma NoMultiple(d: nat, k: int, m: nat)
    requires d < m && d == k * m
    ensures d == 0
  {
    if k >= 1 {
      AtLeastOnce(k, m);
    }
  }

  lemma AtLeastOnce(k: int, m: nat)
    requires k >= 1
    ensures k * m >= m
  {
  }

  lemma RoundupWrap(f: Format, e: nat, s: nat)
    requires Proper(f)
    ensures Wrap(f, Roundup(f, e) + s) == Wrap(f, e + s) <==> e % f.word == 0
  {
    RoundupIs(f, e);
    hide Roundup, Proper;
    SameRemainder(e + s, Roundup(f, e) - e, if f.word == 4 then 0x1_0000_0000 else 0x1_0000_0000_0000_0000);
  }

  lemma {:induction false} LastEndWraps(f: Format, phdrs: seq<Phdr>, n: nat)
    requires n <= |phdrs|
    ensures LastEnd(f, phdrs, n) == Wrap(f, LastEnd(f, phdrs, n))
  {
    if n > 0 {
      LastEndWraps(f, phdrs, n - 1);
    }
  }

  /** The emit pass ends at the address patched in exactly when the last segment ends on a whole word. */
  lemma PassesAgreeOnEnd(f: Format, elf: Elf)
    requires Proper(f) && exists i :: 0 <= i < |elf.phdrs| && IsLoad(elf.phdrs[i])
    ensures FinalVaddr(f, elf) == EsymVal(f, elf) <==> LastEnd(f, elf.phdrs, |elf.phdrs|) % f.word == 0
  {
    EmitEnd(f, elf, |elf.phdrs|);
    LastEndWraps(f, elf.phdrs, |elf.phdrs|);
    RoundupWrap(f, LastEnd(f, elf.phdrs, |elf.phdrs|), SymOffset(f, elf, |elf.shdrs|));
  }

  lemma {:induction false} HeadersLength(f: Format, w: seq<Shdr>)
    requires Proper(f)
    ensures |Headers(f, w)| == f.shdrSize * |w|
  {
    if w != [] {
      HeadersLength(f, w[..|w| - 1]);
    }
  }

  lemma WholeWords(k: nat)
    ensures (4 * k + 3) / 4 * 4 == 4 * k && (8 * k + 7) / 8 * 8 == 8 * k
  {
  }

  lemma HeadAligned(f: Format, elf: Elf)
    requires Proper(f)
    ensures Roundup(f, HeadSize(f, elf)) == HeadSize(f, elf)
  {
    var n := |elf.shdrs|;
    if f.word == 4 {
      assert HeadSize(f, elf) == 52 + 40 * n;
      WholeWords(13 + 10 * n);
    } else {
      assert HeadSize(f, elf) == 64 + 64 * n;
      WholeWords(8 + 8 * n);
    }
  }

  /** Sections whose sizes the 32-bit interface can carry, all of them in the file. */
  ghost predicate SymbolsFit(f: Format, elf: Elf) {
    && (forall j :: 0 <= j < |elf.shdrs| ==> ShdrReadable(elf, elf.shdrs[j]))
    && (forall j :: 0 <= j < |elf.shdrs| && elf.shdrs[j].kind in {SHT_SYMTAB, SHT_STRTAB} ==> elf.shdrs[j].size < WRAP)
    && SymOffset(f, elf, |elf.shdrs|) == Wrap(f, SymOffset(f, elf, |elf.shdrs|))
  }

  lemma PaddedSize(f: Format, elf: Elf, j: nat)
    requires Proper(f) && SymbolsFit(f, elf) && j < |elf.shdrs| && IsSymbols(elf.shdrs[j])
    ensures var s := elf.shdrs[j];
            Size(s.size) == s.size <= Roundup(f, s.size) && |Cut(elf.file, s.offset, s.size)| == s.size
            && Size(Roundup(f, s.size) - s.size) == Roundup(f, s.size) - s.size
  {
    assert ShdrReadable(elf, elf.shdrs[j]);
  }

  lemma {:induction false} SymDataLength(f: Format, elf: Elf, n: nat)
    requires Proper(f) && SymbolsFit(f, elf) && n <= |elf.shdrs|
    ensures Roundup(f, HeadSize(f, elf)) + |SymData(f, elf, n)| == SymOffset(f, elf, n)
  {
    if n > 0 {
      hide Roundup, Wrap, Size, Cut, Proper, SymbolsFit, HeadSize;
      SymDataLength(f, elf, n - 1);
      if IsSymbols(elf.shdrs[n - 1]) {
        PaddedSize(f, elf, n - 1);
      }
    }
  }

  /** Section `j` of the first `n` lies in their data at its layout offset. */
  lemma {:induction false} SymDataAt(f: Format, elf: Elf, n: nat, j: nat)
    requires Proper(f) && SymbolsFit(f, elf) && j < n <= |elf.shdrs| && IsSymbols(elf.shdrs[j])
    ensures var s, at := elf.shdrs[j], SymOffset(f, elf, j) - Roundup(f, HeadSize(f, elf));
            && 0 <= at && at + s.size <= |SymData(f, elf, n)|
            && SymData(f, elf, n)[at..at + s.size] == Cut(elf.file, s.offset, s.size)
  {
    var s := elf.shdrs[j];
    if j < n - 1 {
      hide SymOffset, Roundup, Wrap, Cut, Size;
      SymDataAt(f, elf, n - 1, j);
      assert SymData(f, elf, n - 1) <= SymData(f, elf, n);
    } else {
      SymDataLength(f, elf, j);
      PaddedSize(f, elf, j);
      hide SymOffset, Roundup, Wrap, Size, Cut;
      assert SymData(f, elf, n) ==
             SymData(f, elf, j) + Cut(elf.file, s.offset, s.size) + Zeroes(Size(Roundup(f, s.size) - s.size));
    }
  }

  lemma {:induction false} SymOffsetGrows(f: Format, elf: Elf, j: nat, n: nat)
    requires j <= n <= |elf.shdrs|
    ensures SymOffset(f, elf, j) <= SymOffset(f, elf, n)
  {
    if j < n {
      SymOffsetGrows(f, elf, j, n - 1);
    }
  }

  lemma WrapBelow(f: Format, x: nat, y: nat)
    requires x <= y && y == Wrap(f, y)
    ensures x == Wrap(f, x)
  {
  }

  lemma SectionInBlock(f: Format, elf: Elf, j: nat)
    requires Proper(f) && SymbolsFit(f, elf) && j < |elf.shdrs| && IsSymbols(elf.shdrs[j])
    ensures var s, at := elf.shdrs[j], Rewritten(f, elf, |elf.shdrs|)[j].offset;
            at + s.size <= |Block(f, elf)| && Block(f, elf)[at..at + s.size] == Cut(elf.file, s.offset, s.size)
  {
    hide Headers, SymData, SymOffset, Roundup, Wrap, Cut;
    var n := |elf.shdrs|;
    HeadersLength(f, Rewritten(f, elf, n));
    HeadAligned(f, elf);
    SymOffsetGrows(f, elf, j, n);
    WrapBelow(f, SymOffset(f, elf, j), SymOffset(f, elf, n));
    SymDataAt(f, elf, n, j);
    var head := f.encodeEhdr(BlockEhdr(f, elf)) + Headers(f, Rewritten(f, elf, n));
    var at := SymOffset(f, elf, j);
    assert |head| == HeadSize(f, elf);
    assert Block(f, elf)[at..at + elf.shdrs[j].size] ==
           SymData(f, elf, n)[at - |head|..at - |head| + elf.shdrs[j].size];
  }

  lemma {:induction false} HeadersAt(f: Format, w: seq<Shdr>, j: nat)
    requires Proper(f) && j < |w|
    ensures f.shdrSize * (j + 1) <= |Headers(f, w)|
    ensures Headers(f, w)[f.shdrSize * j..f.shdrSize * (j + 1)] == f.encodeShdr(w[j])
  {
    var before := w[..|w| - 1];
    HeadersLength(f, before);
    HeadersLength(f, w);
    if j < |before| {
      HeadersAt(f, before, j);
      var at, end := f.shdrSize * j, f.shdrSize * (j + 1);
      assert Headers(f, w)[at..end] == Headers(f, before)[at..end];
    }
  }

  lemma MiddleSlice(a: seq<Byte>, b: seq<Byte>, c: seq<Byte>, from: nat, to: nat)
    requires from <= to <= |b|
    ensures (a + b + c)[|a| + from..|a| + to] == b[from..to]
  {
  }

  lemma BlockHeaderAt(f: Format, elf: Elf, j: nat)
    requires Proper(f) && j < |elf.shdrs|
    ensures var at := BlockEhdr(f, elf).shoff + f.shdrSize * j;
            at + f.shdrSize <= |Block(f, elf)| &&
            Block(f, elf)[at..at + f.shdrSize] == f.encodeShdr(Rewritten(f, elf, |elf.shdrs|)[j])
  {
    var w := Rewritten(f, elf, |elf.shdrs|);
    HeadersAt(f, w, j);
    var ehdr, headers, at := f.encodeEhdr(BlockEhdr(f, elf)), Headers(f, w), f.shdrSize * j;
    assert f.shdrSize * (j + 1) == at + f.shdrSize;
    assert Block(f, elf) == ehdr + headers + SymData(f, elf, |elf.shdrs|);
    assert |ehdr| == f.ehdrSize && |f.encodeShdr(w[j])| == f.shdrSize && BlockEhdr(f, elf).shoff == f.ehdrSize;
    hide Headers, SymData, Rewritten, Block, BlockEhdr, Proper;
    MiddleSlice(ehdr, headers, SymData(f, elf, |elf.shdrs|), at, at + f.shdrSize);
  }

  /** The bytes of the block that the ELF header at its front calls section header `j`. */
  function HeaderInBlock(f: Format, elf: Elf, j: nat): seq<Byte>
    requires Proper(f) && j < |elf.shdrs|
  {
    BlockHeaderAt(f, elf, j);
    var at := BlockEhdr(f, elf).shoff + f.shdrSize * j;
    Block(f, elf)[at..at + f.shdrSize]
  }

  /**
   A symbol table (type 2) or a string table (type 3) is in the block: at the place its header there gives
   stand its bytes of the file. Every section header of another type is in the block as it was.
   */
  lemma PassesAgreeOnSections(f: Format, elf: Elf, j: nat) returns (at: nat)
    requires Proper(f) && SymbolsFit(f, elf) && j < |elf.shdrs|
    ensures var s := elf.shdrs[j];
            if s.kind in {2, 3} then
              && HeaderInBlock(f, elf, j) == f.encodeShdr(s.(offset := at))
              && (s.size == 0 || s.offset + s.size <= |elf.file|)
              && at + s.size <= |Block(f, elf)|
              && Block(f, elf)[at..at + s.size] == if s.size == 0 then [] else elf.file[s.offset..s.offset + s.size]
            else
              HeaderInBlock(f, elf, j) == f.encodeShdr(s)
  {
    BlockHeaderAt(f, elf, j);
    at := Rewritten(f, elf, |elf.shdrs|)[j].offset;
    if IsSymbols(elf.shdrs[j]) {
      assert ShdrReadable(elf, elf.shdrs[j]);
      hide Block, Rewritten, SymOffset, Proper;
      SectionInBlock(f, elf, j);
    }
  }

  /** The ELF header at the front of the block: no program headers, and the section headers behind it. */
  lemma BlockStarts(f: Format, elf: Elf)
    requires Proper(f)
    ensures f.ehdrSize <= |Block(f, elf)|
    ensures Block(f, elf)[..f.ehdrSize] ==
            f.encodeEhdr(elf.ehdr.(phoff := 0, shoff := f.ehdrSize, phentsize := 0, phnum := 0))
  {
    var ehdr := f.encodeEhdr(BlockEhdr(f, elf));
    assert |ehdr| == f.ehdrSize;
    hide Headers, Rewritten, SymData;
    assert Block(f, elf)[..|ehdr|] == ehdr;
  }

  /**
   The patched address is that of the first section that has one among those with both flag bits, write (1)
   and allocate (2); zero if none has.
   */
  lemma {:induction false} EsymIsFirstData(shdrs: seq<Shdr>, n: nat)
    requires n <= |shdrs|
    ensures Esym(shdrs, n) == 0 <==> forall j :: 0 <= j < n && shdrs[j].flags % 4 == 3 ==> shdrs[j].addr == 0
    ensures Esym(shdrs, n) != 0 ==>
              exists j :: 0 <= j < n && shdrs[j].flags % 4 == 3 && shdrs[j].addr == Esym(shdrs, n) &&
                forall k :: 0 <= k < j && shdrs[k].flags % 4 == 3 ==> shdrs[k].addr == 0
  {
    if n > 0 {
      EsymIsFirstData(shdrs, n - 1);
    }
  }

  // ------------------------------------------------------------------ the image is what memory will hold

  /** The byte a loader would put at address `a` of segment `p`, with the patched word in place. */
  function LoadedByte(f: Format, elf: Elf, p: Phdr, a: nat): Byte {
    var esym, word := EsymOf(elf), f.encodeWord(EsymVal(f, elf));
    if p.vaddr <= esym < p.vaddr + p.filesz && esym <= a < esym + |word| then word[a - esym]
    else if p.vaddr <= a && p.offset + (a - p.vaddr) < |elf.file| then elf.file[p.offset + (a - p.vaddr)]
    else 0
  }

  /** Memory after loading the first `n` headers: file bytes where there are any, zero elsewhere. */
  function Loaded(f: Format, elf: Elf, n: nat, a: nat): Byte
    requires n <= |elf.phdrs|
  {
    if n == 0 then 0
    else
      var p := elf.phdrs[n - 1];
      if p.kind == PT_LOAD && p.vaddr <= a < p.vaddr + p.filesz then LoadedByte(f, elf, p, a)
      else Loaded(f, elf, n - 1, a)
  }

  /** Segments in ascending order, the first header one of them, none reaching past what addresses and sizes can say. */
  ghost predicate Ascending(f: Format, elf: Elf) {
    && |elf.phdrs| > 0 && IsLoad(elf.phdrs[0])
    && (forall i :: 0 <= i < |elf.phdrs| && IsLoad(elf.phdrs[i]) ==> WellSized(f, elf.phdrs[0].vaddr, elf.phdrs[i]))
    && (forall i, j :: 0 <= i < j < |elf.phdrs| && IsLoad(elf.phdrs[i]) && IsLoad(elf.phdrs[j]) ==>
          elf.phdrs[i].vaddr + elf.phdrs[i].memsz <= elf.phdrs[j].vaddr)
  }

  ghost predicate WellSized(f: Format, base: nat, p: Phdr) {
    && p.filesz <= p.memsz && base <= p.vaddr
    && p.vaddr + p.memsz + f.word == Wrap(f, p.vaddr + p.memsz + f.word)
    && p.vaddr + p.memsz + f.word - base < WRAP
  }

  /** The word to patch does not stick out of the file part it starts in. */
  ghost predicate PatchInside(f: Format, elf: Elf) {
    forall i :: 0 <= i < |elf.phdrs| && IsLoad(elf.phdrs[i]) ==>
      var p := elf.phdrs[i];
      p.vaddr <= EsymOf(elf) < p.vaddr + p.filesz ==> EsymOf(elf) + f.word <= p.vaddr + p.filesz
  }

  ghost predicate Loadable(f: Format, elf: Elf) {
    Proper(f) && Ascending(f, elf) && PatchInside(f, elf) && Readable(f, elf)
  }

  lemma WellSizedMeans(f: Format, base: nat, p: Phdr)
    requires Proper(f) && WellSized(f, base, p)
    ensures p.memsz < WRAP && Size(p.memsz - p.filesz) == p.memsz - p.filesz
    ensures Wrap(f, p.vaddr + p.filesz) == p.vaddr + p.filesz && End(f, p) == p.vaddr + p.memsz
  {
  }

  /** What being loadable says of one segment. */
  lemma SegmentSound(f: Format, elf: Elf, i: nat)
    requires Loadable(f, elf) && i < |elf.phdrs| && IsLoad(elf.phdrs[i])
    ensures var p := elf.phdrs[i];
            && Proper(f) && SegmentReadable(f, elf, p) && p.filesz <= p.memsz < WRAP
            && Size(p.memsz - p.filesz) == p.memsz - p.filesz
            && Wrap(f, p.vaddr + p.filesz) == p.vaddr + p.filesz
            && (p.vaddr <= EsymOf(elf) < p.vaddr + p.filesz ==> EsymOf(elf) + f.word <= p.vaddr + p.filesz)
  {
    hide SegmentReadable, Wrap, Size, EsymOf, Proper;
    var p := elf.phdrs[i];
    assert WellSized(f, elf.phdrs[0].vaddr, p) && PhdrReadable(f, elf, p);
    WellSizedMeans(f, elf.phdrs[0].vaddr, p);
  }

  lemma FilePartFaithful(f: Format, elf: Elf, p: Phdr, a: nat)
    requires Proper(f) && SegmentReadable(f, elf, p) && 0 < p.filesz < WRAP
    requires Wrap(f, p.vaddr + p.filesz) == p.vaddr + p.filesz
    requires p.vaddr <= EsymOf(elf) < p.vaddr + p.filesz ==> EsymOf(elf) + f.word <= p.vaddr + p.filesz
    ensures |FilePart(f, elf, p)| == p.filesz
    ensures p.vaddr <= a < p.vaddr + p.filesz ==> FilePart(f, elf, p)[a - p.vaddr] == LoadedByte(f, elf, p, a)
  {
    if Patches(f, elf, p) {
      var before := EsymOf(elf) - p.vaddr;
      assert Before(elf, p) == before && After(f, elf, p) == p.filesz - before - f.word;
    }
  }

  /** A segment's bytes are what a loader puts at its addresses; none, if none are in the file. */
  lemma SegmentFaithful(f: Format, elf: Elf, i: nat, a: nat)
    requires Loadable(f, elf) && i < |elf.phdrs| && IsLoad(elf.phdrs[i])
    ensures var p, bytes := elf.phdrs[i], SegmentBytes(f, elf, elf.phdrs[i]);
            && p.filesz <= p.memsz && |bytes| == (if p.filesz > 0 then p.memsz else 0)
            && (p.vaddr <= a < p.vaddr + |bytes| ==>
                  bytes[a - p.vaddr] == if a < p.vaddr + p.filesz then LoadedByte(f, elf, p, a) else 0)
  {
    hide Loadable, SegmentReadable, FilePart, LoadedByte, Wrap, EsymOf, Proper;
    SegmentSound(f, elf, i);
    if elf.phdrs[i].filesz > 0 {
      FilePartFaithful(f, elf, elf.phdrs[i], a);
    }
  }

  /** Memory that a segment without file bytes still has waiting: not yet written, at the end. */
  function Pending(phdrs: seq<Phdr>, n: nat): nat
    requires n <= |phdrs|
  {
    if n == 0 then 0
    else if IsLoad(phdrs[n - 1]) then if phdrs[n - 1].filesz == 0 then phdrs[n - 1].memsz else 0
    else Pending(phdrs, n - 1)
  }

  /** Memory of such segments that was followed by another segment, and never written. */
  function Dropped(phdrs: seq<Phdr>, n: nat): nat
    requires n <= |phdrs|
  {
    if n == 0 then 0
    else Dropped(phdrs, n - 1) + if IsLoad(phdrs[n - 1]) then Pending(phdrs, n - 1) else 0
  }

  /** The last loaded segment among the first `n` headers. */
  function LastLoad(phdrs: seq<Phdr>, n: nat): (i: nat)
    requires 0 < n <= |phdrs| && IsLoad(phdrs[0])
    ensures i < n && IsLoad(phdrs[i]) && forall k :: i < k < n ==> !IsLoad(phdrs[k])
  {
    if IsLoad(phdrs[n - 1]) then n - 1 else LastLoad(phdrs, n - 1)
  }

  /** The headers after the last segment change nothing. */
  lemma {:induction false} SinceLastLoad(f: Format, elf: Elf, n: nat)
    requires 0 < n <= |elf.phdrs| && IsLoad(elf.phdrs[0])
    ensures var i := LastLoad(elf.phdrs, n);
            && LastEnd(f, elf.phdrs, n) == End(f, elf.phdrs[i])
            && Pending(elf.phdrs, n) == Pending(elf.phdrs, i + 1)
            && Dropped(elf.phdrs, n) == Dropped(elf.phdrs, i + 1)
            && Emit(f, elf, n) == Emit(f, elf, i + 1)
  {
    hide End, Segment, EsymVal;
    if !IsLoad(elf.phdrs[n - 1]) {
      SinceLastLoad(f, elf, n - 1);
    }
  }

  /** How far the output is when `n` headers are done: all of memory up to there, but for what was dropped. */
  ghost predicate Reached(f: Format, elf: Elf, n: nat)
    requires 0 < n <= |elf.phdrs|
  {
    var s, base := Emit(f, elf, n), elf.phdrs[0].vaddr;
    && base <= s.ovaddr && s.ovaddr + Pending(elf.phdrs, n) == s.vaddr
    && |s.out| + Dropped(elf.phdrs, n) + base == s.ovaddr
  }

  /** What is out for address `a` then, if nothing was dropped; nothing is loaded further on. */
  ghost predicate ByteRight(f: Format, elf: Elf, n: nat, a: nat)
    requires 0 < n <= |elf.phdrs|
  {
    var s, base := Emit(f, elf, n), elf.phdrs[0].vaddr;
    && (Dropped(elf.phdrs, n) == 0 && base <= a < s.ovaddr ==>
          a - base < |s.out| && s.out[a - base] == Loaded(f, elf, n, a))
    && (s.ovaddr <= a ==> Loaded(f, elf, n, a) == 0)
  }

  lemma FirstOut(f: Format, elf: Elf)
    requires Loadable(f, elf)
    ensures var p, s := elf.phdrs[0], Emit(f, elf, 1);
            && s.vaddr == p.vaddr + p.memsz && s.ovaddr == (if p.filesz > 0 then p.vaddr + p.memsz else p.vaddr)
            && s.out == SegmentBytes(f, elf, p)
  {
    assert WellSized(f, elf.phdrs[0].vaddr, elf.phdrs[0]);
    WellSizedMeans(f, elf.phdrs[0].vaddr, elf.phdrs[0]);
    hide SegmentBytes, Wrap;
  }

  lemma AtFirst(f: Format, elf: Elf, a: nat)
    requires |elf.phdrs| > 0 && IsLoad(elf.phdrs[0])
    ensures var p := elf.phdrs[0];
            && Dropped(elf.phdrs, 1) == 0 && Pending(elf.phdrs, 1) == (if p.filesz == 0 then p.memsz else 0)
            && Loaded(f, elf, 1, a) == if p.vaddr <= a < p.vaddr + p.filesz then LoadedByte(f, elf, p, a) else 0
  {
    assert Loaded(f, elf, 0, a) == 0;
    hide LoadedByte;
  }

  /** The first segment. */
  lemma FirstReached(f: Format, elf: Elf)
    requires Loadable(f, elf)
    ensures Reached(f, elf, 1) && Dropped(elf.phdrs, 1) == 0
  {
    hide LoadedByte, SegmentBytes, Emit;
    FirstOut(f, elf);
    SegmentFaithful(f, elf, 0, 0);
    AtFirst(f, elf, 0);
  }

  lemma FirstFacts(f: Format, elf: Elf, a: nat)
    requires Loadable(f, elf) && |elf.phdrs| > 0 && IsLoad(elf.phdrs[0])
    ensures var p, s := elf.phdrs[0], Emit(f, elf, 1);
            && p.vaddr <= s.ovaddr && |s.out| == s.ovaddr - p.vaddr
            && (p.vaddr <= a < s.ovaddr ==> s.out[a - p.vaddr] == Loaded(f, elf, 1, a))
            && (s.ovaddr <= a ==> Loaded(f, elf, 1, a) == 0)
  {
    hide *;
    FirstOut(f, elf);
    SegmentFaithful(f, elf, 0, a);
    AtFirst(f, elf, a);
  }

  lemma FirstIsSegment(f: Format, elf: Elf)
    requires Loadable(f, elf)
    ensures |elf.phdrs| > 0 && IsLoad(elf.phdrs[0])
  {
  }

  lemma FirstByte(f: Format, elf: Elf, a: nat)
    requires Loadable(f, elf)
    ensures ByteRight(f, elf, 1, a)
  {
    hide Loadable, Emit, Loaded, Dropped;
    FirstIsSegment(f, elf);
    FirstFacts(f, elf, a);
  }

  /** A segment ends where it seems to, and the gap after an earlier one is what it seems. */
  lemma FollowsFits(f: Format, elf: Elf, i: nat, n: nat)
    requires Loadable(f, elf) && i < n < |elf.phdrs| && IsLoad(elf.phdrs[i]) && IsLoad(elf.phdrs[n])
    ensures var p, e := elf.phdrs[n], End(f, elf.phdrs[i]);
            End(f, p) == p.vaddr + p.memsz && e <= p.vaddr && Size(p.vaddr - e) == p.vaddr - e
  {
    var p := elf.phdrs[n];
    assert WellSized(f, elf.phdrs[0].vaddr, p) && WellSized(f, elf.phdrs[0].vaddr, elf.phdrs[i]);
    hide Wrap, End;
    WellSizedMeans(f, elf.phdrs[0].vaddr, p);
    WellSizedMeans(f, elf.phdrs[0].vaddr, elf.phdrs[i]);
  }

  /** The output for a further segment: the gap, and the segment. */
  lemma NextOut(f: Format, elf: Elf, i: nat, n: nat)
    requires Loadable(f, elf) && i < n < |elf.phdrs| && IsLoad(elf.phdrs[i]) && IsLoad(elf.phdrs[n])
    requires Emit(f, elf, n).vaddr == End(f, elf.phdrs[i])
    ensures var p, s, s' := elf.phdrs[n], Emit(f, elf, n), Emit(f, elf, n + 1);
            && s.vaddr <= p.vaddr && s'.vaddr == p.vaddr + p.memsz
            && s'.ovaddr == (if p.filesz > 0 then p.vaddr + p.memsz else p.vaddr)
            && s'.out == s.out + Zeroes(p.vaddr - s.vaddr) + SegmentBytes(f, elf, p)
            && |SegmentBytes(f, elf, p)| == s'.ovaddr - p.vaddr && p.filesz <= p.memsz
  {
    hide Loadable, End, FilePart, SegmentBytes, LoadedByte;
    FollowsFits(f, elf, i, n);
    SegmentFaithful(f, elf, n, 0);
  }

  lemma LoadedNext(f: Format, elf: Elf, n: nat, a: nat)
    requires n < |elf.phdrs| && IsLoad(elf.phdrs[n])
    ensures var p := elf.phdrs[n];
            Loaded(f, elf, n + 1, a) ==
            if p.vaddr <= a < p.vaddr + p.filesz then LoadedByte(f, elf, p, a) else Loaded(f, elf, n, a)
  {
  }

  lemma InThree(xs: seq<Byte>, ys: seq<Byte>, zs: seq<Byte>, k: nat)
    requires k < |xs + ys + zs|
    ensures (xs + ys + zs)[k] ==
            if k < |xs| then xs[k] else if k < |xs| + |ys| then ys[k - |xs|] else zs[k - |xs| - |ys|]
  {
  }

  lemma NextReached(f: Format, elf: Elf, i: nat, n: nat)
    requires Loadable(f, elf) && i < n < |elf.phdrs| && IsLoad(elf.phdrs[i]) && IsLoad(elf.phdrs[n])
    requires Reached(f, elf, n) && Emit(f, elf, n).vaddr == End(f, elf.phdrs[i])
    ensures Reached(f, elf, n + 1)
    ensures elf.phdrs[0].vaddr <= Emit(f, elf, n).ovaddr <= Emit(f, elf, n).vaddr
    ensures Dropped(elf.phdrs, n + 1) == 0 ==>
              var s := Emit(f, elf, n);
              Dropped(elf.phdrs, n) == 0 && |s.out| == s.vaddr - elf.phdrs[0].vaddr && s.ovaddr == s.vaddr
  {
    hide SegmentBytes, Emit, End, Loadable;
    NextOut(f, elf, i, n);
  }

  /** Address `a` once a further segment is out. */
  lemma NextByte(f: Format, elf: Elf, i: nat, n: nat, a: nat)
    requires Loadable(f, elf) && i < n < |elf.phdrs| && IsLoad(elf.phdrs[i]) && IsLoad(elf.phdrs[n])
    requires Reached(f, elf, n) && ByteRight(f, elf, n, a) && Emit(f, elf, n).vaddr == End(f, elf.phdrs[i])
    ensures Reached(f, elf, n + 1) && ByteRight(f, elf, n + 1, a)
  {
    hide LoadedByte, SegmentBytes, Emit, End, Loadable, Loaded, Reached, Dropped;
    NextReached(f, elf, i, n);
    NextOut(f, elf, i, n);
    SegmentFaithful(f, elf, n, a);
    LoadedNext(f, elf, n, a);
    var p, s, base := elf.phdrs[n], Emit(f, elf, n), elf.phdrs[0].vaddr;
    if Dropped(elf.phdrs, n + 1) == 0 && base <= a < Emit(f, elf, n + 1).ovaddr {
      InThree(s.out, Zeroes(p.vaddr - s.vaddr), SegmentBytes(f, elf, p), a - base);
    }
  }

  lemma {:induction false} AllReached(f: Format, elf: Elf, n: nat, a: nat)
    requires Loadable(f, elf) && 0 < n <= |elf.phdrs|
    ensures Reached(f, elf, n) && ByteRight(f, elf, n, a)
  {
    if n == 1 {
      FirstReached(f, elf);
      FirstByte(f, elf, a);
    } else {
      AllReached(f, elf, n - 1, a);
      if IsLoad(elf.phdrs[n - 1]) {
        SinceLastLoad(f, elf, n - 1);
        EmitEnd(f, elf, n - 1);
        NextByte(f, elf, LastLoad(elf.phdrs, n - 1), n - 1, a);
      }
    }
  }

  /** Where the loaded image ends. */
  function ImageEnd(f: Format, elf: Elf): nat { LastEnd(f, elf.phdrs, |elf.phdrs|) }

  lemma RoundupPads(f: Format, base: nat, e: nat, o: nat)
    requires Proper(f) && base <= o <= e && e + f.word == Wrap(f, e + f.word) && e + f.word - base < WRAP
    ensures o <= Roundup(f, e) && Size(Wrap(f, Roundup(f, e)) - o) == Roundup(f, e) - o
  {
    RoundupIs(f, e);
    hide Roundup, Proper, Wrap;
    WrapBelow(f, Roundup(f, e), e + f.word);
  }

  lemma SegmentEnds(f: Format, elf: Elf, i: nat)
    requires Loadable(f, elf) && i < |elf.phdrs| && IsLoad(elf.phdrs[i])
    ensures var e := End(f, elf.phdrs[i]);
            e + f.word == Wrap(f, e + f.word) && e + f.word - elf.phdrs[0].vaddr < WRAP
  {
    assert WellSized(f, elf.phdrs[0].vaddr, elf.phdrs[i]);
    hide Wrap, End, Proper;
    WellSizedMeans(f, elf.phdrs[0].vaddr, elf.phdrs[i]);
  }

  lemma EndFits(f: Format, elf: Elf)
    requires Loadable(f, elf)
    ensures var e := ImageEnd(f, elf);
            && Emit(f, elf, |elf.phdrs|).vaddr == e
            && e + f.word == Wrap(f, e + f.word) && e + f.word - elf.phdrs[0].vaddr < WRAP
  {
    hide Emit, Wrap, LastEnd, End, Loadable, Proper;
    FirstIsSegment(f, elf);
    SinceLastLoad(f, elf, |elf.phdrs|);
    EmitEnd(f, elf, |elf.phdrs|);
    SegmentEnds(f, elf, LastLoad(elf.phdrs, |elf.phdrs|));
  }

  lemma BodyIs(f: Format, elf: Elf)
    requires Loadable(f, elf) && Reached(f, elf, |elf.phdrs|)
    ensures var s := Emit(f, elf, |elf.phdrs|);
            && s.ovaddr <= Roundup(f, ImageEnd(f, elf))
            && Body(f, elf) == s.out + Zeroes(Roundup(f, ImageEnd(f, elf)) - s.ovaddr)
  {
    assert |elf.phdrs| > 0;
    hide Emit, Roundup, Wrap, Size, ImageEnd, Ascending, PatchInside, Readable;
    EndFits(f, elf);
    var s := Emit(f, elf, |elf.phdrs|);
    RoundupPads(f, elf.phdrs[0].vaddr, s.vaddr, s.ovaddr);
  }

  /** The index of the first segment, or the number of headers. */
  function FirstLoad(phdrs: seq<Phdr>): (i: nat)
    ensures i <= |phdrs| && (i < |phdrs| ==> IsLoad(phdrs[i])) && forall k :: 0 <= k < i ==> !IsLoad(phdrs[k])
  {
    if phdrs == [] || IsLoad(phdrs[0]) then 0 else 1 + FirstLoad(phdrs[1..])
  }

  /** The image as long as memory, and each byte of it the byte memory will hold. */
  ghost predicate Faithful(f: Format, elf: Elf)
    requires FirstLoad(elf.phdrs) < |elf.phdrs|
  {
    var base := elf.phdrs[FirstLoad(elf.phdrs)].vaddr;
    && base + |Body(f, elf)| == Roundup(f, ImageEnd(f, elf))
    && forall k :: 0 <= k < |Body(f, elf)| ==> Body(f, elf)[k] == Loaded(f, elf, |elf.phdrs|, base + k)
  }

  lemma BodyByte(f: Format, elf: Elf, k: nat)
    requires Loadable(f, elf) && k < |Body(f, elf)| && Dropped(elf.phdrs, |elf.phdrs|) == 0
    ensures Body(f, elf)[k] == Loaded(f, elf, |elf.phdrs|, elf.phdrs[0].vaddr + k)
  {
    assert IsLoad(elf.phdrs[0]);
    hide Body, Emit, Loadable, Loaded, ImageEnd, Roundup;
    AllReached(f, elf, |elf.phdrs|, elf.phdrs[0].vaddr + k);
    BodyIs(f, elf);
  }

  lemma BodyLength(f: Format, elf: Elf)
    requires Loadable(f, elf)
    ensures elf.phdrs[0].vaddr + |Body(f, elf)| + Dropped(elf.phdrs, |elf.phdrs|) == Roundup(f, ImageEnd(f, elf))
  {
    AllReached(f, elf, |elf.phdrs|, 0);
    BodyIs(f, elf);
    hide Body, Emit, Loadable;
  }

  /** A segment with memory but no file bytes comes last. */
  ghost predicate BssLast(elf: Elf) {
    forall i, j ::
      0 <= i < j < |elf.phdrs| && elf.phdrs[i].kind == elf.phdrs[j].kind == PT_LOAD && elf.phdrs[i].filesz == 0 ==>
        elf.phdrs[i].memsz == 0
  }

  lemma PendingIs(phdrs: seq<Phdr>, n: nat)
    requires 0 < n <= |phdrs| && IsLoad(phdrs[0])
    ensures var p := phdrs[LastLoad(phdrs, n)]; Pending(phdrs, n) == if p.filesz == 0 then p.memsz else 0
  {
    if !IsLoad(phdrs[n - 1]) {
      PendingIs(phdrs, n - 1);
    }
  }

  lemma {:induction false} BssLastDropsNothing(elf: Elf, n: nat)
    requires n <= |elf.phdrs| && BssLast(elf) && |elf.phdrs| > 0 && IsLoad(elf.phdrs[0])
    ensures Dropped(elf.phdrs, n) == 0
  {
    if n > 0 {
      BssLastDropsNothing(elf, n - 1);
      if n > 1 && IsLoad(elf.phdrs[n - 1]) {
        PendingIs(elf.phdrs, n - 1);
      }
    }
  }

  lemma {:induction false} DroppedGrows(phdrs: seq<Phdr>, m: nat, n: nat)
    requires m <= n <= |phdrs|
    ensures Dropped(phdrs, m) <= Dropped(phdrs, n)
  {
    if m < n {
      DroppedGrows(phdrs, m, n - 1);
    }
  }

  /** Memory in the middle with nothing in the file is dropped. */
  lemma {:induction false} MiddleBssIsDropped(phdrs: seq<Phdr>, i: nat, j: nat)
    requires i < j < |phdrs| && IsLoad(phdrs[i]) && IsLoad(phdrs[j]) && phdrs[i].filesz == 0 && phdrs[i].memsz > 0
    ensures Dropped(phdrs, j + 1) > 0
    decreases j
  {
    if k :| i < k < j && IsLoad(phdrs[k]) {
      MiddleBssIsDropped(phdrs, i, k);
      DroppedGrows(phdrs, k + 1, j + 1);
    } else {
      NothingSince(phdrs, i, j);
    }
  }

  lemma {:induction false} NothingSince(phdrs: seq<Phdr>, i: nat, n: nat)
    requires i < n <= |phdrs| && forall k :: i < k < n ==> !IsLoad(phdrs[k])
    ensures Pending(phdrs, n) == Pending(phdrs, i + 1)
  {
    if i + 1 < n {
      NothingSince(phdrs, i, n - 1);
    }
  }

  /**
   The image is faithful exactly when no segment but the last has memory without file bytes: for such
   a segment in the middle the gap filling does not make up for what was left out.
   */
  lemma FaithfulIffBssLast(f: Format, elf: Elf)
    requires Loadable(f, elf)
    ensures FirstLoad(elf.phdrs) == 0 && (Faithful(f, elf) <==> BssLast(elf))
  {
    assert FirstLoad(elf.phdrs) == 0;
    BodyLength(f, elf);
    hide Body, Loadable, Loaded, ImageEnd, Roundup, Dropped;
    if BssLast(elf) {
      BssLastDropsNothing(elf, |elf.phdrs|);
      forall k | 0 <= k < |Body(f, elf)|
        ensures Body(f, elf)[k] == Loaded(f, elf, |elf.phdrs|, elf.phdrs[0].vaddr + k)
      {
        BodyByte(f, elf, k);
      }
    } else {
      var i, j :| 0 <= i < j < |elf.phdrs| && IsLoad(elf.phdrs[i]) && IsLoad(elf.phdrs[j]) &&
                  elf.phdrs[i].filesz == 0 && elf.phdrs[i].memsz != 0;
      MiddleBssIsDropped(elf.phdrs, i, j);
      DroppedGrows(elf.phdrs, j + 1, |elf.phdrs|);
    }
  }

  lemma {:induction false} NothingYet(f: Format, elf: Elf, n: nat)
    requires n <= |elf.phdrs| && forall k :: 0 <= k < n ==> !IsLoad(elf.phdrs[k])
    ensures Emit(f, elf, n) == Pass([], EsymVal(f, elf), 0)
  {
    if n > 0 {
      NothingYet(f, elf, n - 1);
    }
  }

  /** If the first header is not a segment, the image starts with a gap counted from the end of the symbols. */
  lemma LateStartIsPadded(f: Format, elf: Elf, i: nat)
    requires 0 < i < |elf.phdrs| && IsLoad(elf.phdrs[i]) && forall k :: 0 <= k < i ==> !IsLoad(elf.phdrs[k])
    ensures var p := elf.phdrs[i];
            Emit(f, elf, i + 1).out == Zeroes(Size(p.vaddr - EsymVal(f, elf))) + SegmentBytes(f, elf, p)
  {
    NothingYet(f, elf, i);
  }
}
