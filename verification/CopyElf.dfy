/** copy_elf of tools/mkuboot/copy_elf.c: both passes over the headers, writing as it goes. */
module CopyElf {
  import opened Common
  import opened ImageWriter
  import opened ElfImage

  lemma WrapAdd(f: Format, x: nat, y: nat)
    ensures Wrap(f, Wrap(f, x) + y) == Wrap(f, x + y)
  {
    if f.word == 4 {
      Add32(x, y);
    } else {
      Add64(x, y);
    }
  }

  /** What the first pass leaves: where the patched word goes, what it says, and the new section headers. */
  method Layout(f: Format, elf: Elf) returns (esym: nat, esymval: nat, wshp: seq<Shdr>)
    ensures esym == EsymOf(elf) && esymval == EsymVal(f, elf) && wshp == Rewritten(f, elf, |elf.shdrs|)
  {
    hide Wrap, Roundup;
    var vaddr, i := 0, 0;
    while i < |elf.phdrs|
      invariant i <= |elf.phdrs| && vaddr == LastEnd(f, elf.phdrs, i)
    {
      if IsLoad(elf.phdrs[i]) {
        vaddr := Wrap(f, elf.phdrs[i].vaddr + elf.phdrs[i].memsz);
      }
      i := i + 1;
    }
    ghost var end := vaddr;
    var head := f.ehdrSize + f.shdrSize * |elf.shdrs|;
    var off := Wrap(f, Roundup(f, head));
    vaddr := Wrap(f, vaddr + Roundup(f, head));
    esym, wshp := 0, elf.shdrs;
    var j := 0;
    while j < |elf.shdrs|
      invariant j <= |elf.shdrs| && esym == Esym(elf.shdrs, j) && wshp == Rewritten(f, elf, j)
      invariant off == Wrap(f, SymOffset(f, elf, j)) && vaddr == Wrap(f, end + SymOffset(f, elf, j))
    {
      var s := elf.shdrs[j];
      if esym == 0 && IsData(s) {
        esym := s.addr;
      }
      if IsSymbols(s) {
        WrapAdd(f, SymOffset(f, elf, j), Roundup(f, s.size));
        WrapAdd(f, end + SymOffset(f, elf, j), Roundup(f, s.size));
        wshp := wshp[j := wshp[j].(offset := off)];
        off := Wrap(f, off + Roundup(f, s.size));
        vaddr := Wrap(f, vaddr + Roundup(f, s.size));
      }
      j := j + 1;
    }
    esymval := vaddr;
  }

  lemma Assoc(out: seq<Byte>, xs: seq<Byte>, ys: seq<Byte>)
    ensures out + xs + ys == out + (xs + ys)
  {
  }

  lemma Assoc3(out: seq<Byte>, xs: seq<Byte>, ys: seq<Byte>, zs: seq<Byte>)
    ensures out + xs + ys + zs == out + (xs + ys + zs)
  {
  }

  /** A loaded segment with file bytes: up to the word to patch, the word, and the rest; then zeroes. */
  method CopySegment(img: Image, f: Format, elf: Elf, p: Phdr, esym: nat, esymval: nat) returns (ok: bool)
    requires img.Valid() && p.filesz != 0 && esym == EsymOf(elf) && esymval == EsymVal(f, elf)
    modifies img
    ensures img.Valid() && (ok <==> SegmentReadable(f, elf, p))
    ensures ok ==> img.out == old(img.out) + SegmentBytes(f, elf, p)
  {
    hide Image.Valid, EsymOf, EsymVal, Wrap, Size, CanCut, Cut;
    if p.vaddr <= esym && esym < Wrap(f, p.vaddr + p.filesz) {
      var loadlen := esym - p.vaddr;
      ok := img.CopyData(elf.file, p.offset, Size(loadlen));
      if !ok {
        return;
      }
      img.CopyMem(f.encodeWord(esymval));
      ok := img.CopyData(elf.file, p.offset + loadlen + f.word, Size(p.filesz - loadlen - f.word));
      if !ok {
        return;
      }
      Assoc3(old(img.out), Cut(elf.file, p.offset, Before(elf, p)), f.encodeWord(esymval),
             Cut(elf.file, Resume(f, elf, p), After(f, elf, p)));
    } else {
      ok := img.CopyData(elf.file, p.offset, Size(p.filesz));
      if !ok {
        return;
      }
    }
    assert img.out == old(img.out) + FilePart(f, elf, p);
    Assoc(old(img.out), FilePart(f, elf, p), Zeroes(Size(p.memsz - p.filesz)));
    img.FillZeroes(Size(p.memsz - p.filesz));
  }

  /** The second pass over the program headers. */
  method CopySegments(img: Image, f: Format, elf: Elf, esym: nat, esymval: nat) returns (ok: bool, vaddr: nat)
    requires img.Valid() && esym == EsymOf(elf) && esymval == EsymVal(f, elf)
    modifies img
    ensures img.Valid()
    ensures ok <==> forall i :: 0 <= i < |elf.phdrs| ==> PhdrReadable(f, elf, elf.phdrs[i])
    ensures ok ==> img.out == old(img.out) + Body(f, elf)
    ensures ok ==> vaddr == Wrap(f, Roundup(f, Emit(f, elf, |elf.phdrs|).vaddr))
  {
    hide Image.Valid, EsymOf, EsymVal, Wrap, Size, SegmentBytes, SegmentReadable, Roundup;
    var ovaddr, i := 0, 0;
    vaddr := esymval;
    while i < |elf.phdrs|
      invariant i <= |elf.phdrs| && img.Valid()
      invariant forall k :: 0 <= k < i ==> PhdrReadable(f, elf, elf.phdrs[k])
      invariant img.out == old(img.out) + Emit(f, elf, i).out
      invariant vaddr == Emit(f, elf, i).vaddr && ovaddr == Emit(f, elf, i).ovaddr
    {
      var p := elf.phdrs[i];
      if !IsLoad(p) && !IsSkipped(p) {
        assert !PhdrReadable(f, elf, elf.phdrs[i]);
        return false, 0;
      }
      if IsLoad(p) {
        if i != 0 && vaddr != p.vaddr {
          img.FillZeroes(Size(p.vaddr - vaddr));
        }
        NoGap(vaddr, p.vaddr);
        vaddr := p.vaddr;
        if p.filesz != 0 {
          var copied := CopySegment(img, f, elf, p, esym, esymval);
          if !copied {
            assert !PhdrReadable(f, elf, elf.phdrs[i]);
            return false, 0;
          }
          ovaddr := Wrap(f, vaddr + p.memsz);
        } else {
          assert SegmentBytes(f, elf, p) == [] && SegmentReadable(f, elf, p) by {
            NoFileBytes(f, elf, p);
          }
          ovaddr := vaddr;
        }
        vaddr := Wrap(f, vaddr + p.memsz);
      }
      i := i + 1;
    }
    vaddr := Wrap(f, Roundup(f, vaddr));
    NoGap(ovaddr, vaddr);
    if vaddr != ovaddr {
      img.FillZeroes(Size(vaddr - ovaddr));
    }
    ok := true;
  }

  lemma NoGap(x: nat, y: nat)
    ensures x == y ==> Size(y - x) == 0 && Zeroes(Size(y - x)) == []
    ensures Zeroes(0) == []
  {
  }

  lemma NoFileBytes(f: Format, elf: Elf, p: Phdr)
    requires p.filesz == 0
    ensures SegmentBytes(f, elf, p) == [] && SegmentReadable(f, elf, p)
  {
  }

  /** The symbol sections, each padded, and the address counted up past them. */
  method CopySymbols(img: Image, f: Format, elf: Elf, start: nat) returns (ok: bool, vaddr: nat)
    requires img.Valid()
    modifies img
    ensures img.Valid()
    ensures ok <==> forall j :: 0 <= j < |elf.shdrs| ==> ShdrReadable(elf, elf.shdrs[j])
    ensures ok ==> img.out == old(img.out) + SymData(f, elf, |elf.shdrs|)
    ensures ok ==> vaddr == Wrap(f, start + (SymOffset(f, elf, |elf.shdrs|) - SymOffset(f, elf, 0)))
  {
    hide Image.Valid, Wrap, Size, Roundup, CanCut, Cut;
    vaddr := Wrap(f, start);
    var j := 0;
    while j < |elf.shdrs|
      invariant j <= |elf.shdrs| && img.Valid() && SymOffset(f, elf, 0) <= SymOffset(f, elf, j)
      invariant forall k :: 0 <= k < j ==> ShdrReadable(elf, elf.shdrs[k])
      invariant img.out == old(img.out) + SymData(f, elf, j)
      invariant vaddr == Wrap(f, start + (SymOffset(f, elf, j) - SymOffset(f, elf, 0)))
    {
      var s := elf.shdrs[j];
      if IsSymbols(s) {
        var copied := img.CopyData(elf.file, s.offset, Size(s.size));
        if !copied {
          assert !ShdrReadable(elf, elf.shdrs[j]);
          return false, 0;
        }
        RoundupUp(f, s.size);
        var align := Roundup(f, s.size) - s.size;
        WrapAdd(f, start + (SymOffset(f, elf, j) - SymOffset(f, elf, 0)), s.size + align);
        vaddr := Wrap(f, vaddr + (s.size + align));
        NoGap(s.size, Roundup(f, s.size));
        if align != 0 {
          img.FillZeroes(Size(align));
        }
      }
      j := j + 1;
    }
    ok := true;
  }

  lemma RoundupUp(f: Format, x: nat)
    ensures x <= Roundup(f, x)
  {
  }

  method FindSymtab(elf: Elf) returns (havesyms: bool)
    ensures havesyms <==> HaveSyms(elf)
  {
    havesyms := false;
    var j := 0;
    while j < |elf.shdrs|
      invariant j <= |elf.shdrs| && (havesyms <==> exists k :: 0 <= k < j && elf.shdrs[k].kind == SHT_SYMTAB)
    {
      if elf.shdrs[j].kind == SHT_SYMTAB {
        havesyms := true;
      }
      j := j + 1;
    }
  }

  /** The symbol block, and where it ends when it starts at `start`. */
  method CopyBlock(img: Image, f: Format, elf: Elf, wshp: seq<Shdr>, start: nat) returns (ok: bool, vaddr: nat)
    requires img.Valid() && wshp == Rewritten(f, elf, |elf.shdrs|)
    modifies img
    ensures img.Valid()
    ensures ok <==> forall j :: 0 <= j < |elf.shdrs| ==> ShdrReadable(elf, elf.shdrs[j])
    ensures ok ==> img.out == old(img.out) + Block(f, elf)
    ensures ok ==> vaddr == Wrap(f, start + HeadSize(f, elf) + (SymOffset(f, elf, |elf.shdrs|) - SymOffset(f, elf, 0)))
  {
    hide Image.Valid, Wrap, SymData, Headers, SymOffset, ShdrReadable;
    img.CopyMem(f.encodeEhdr(BlockEhdr(f, elf)));
    img.CopyMem(Headers(f, wshp));
    ok, vaddr := CopySymbols(img, f, elf, start + (f.ehdrSize + f.shdrSize * |elf.shdrs|));
    Assoc3(old(img.out), f.encodeEhdr(BlockEhdr(f, elf)), Headers(f, wshp), SymData(f, elf, |elf.shdrs|));
  }

  /**
   copy_elf. It gives up when the file is too short or a segment type is unknown; otherwise it has
   written the whole image, and it warns of a mismatch exactly when the image does not end on a whole word.
   */
  method Run(img: Image, f: Format, elf: Elf) returns (ok: bool, mismatch: bool)
    requires img.Valid() && Proper(f) && exists i :: 0 <= i < |elf.phdrs| && IsLoad(elf.phdrs[i])
    modifies img
    ensures img.Valid()
    ensures ok <==> Readable(f, elf)
    ensures ok ==> img.out == old(img.out) + Output(f, elf)
    ensures ok ==> (mismatch <==> HaveSyms(elf) && ImageEnd(f, elf) % f.word != 0)
  {
    hide Image.Valid, Wrap, Roundup, Body, Block, SymOffset, EsymVal, PhdrReadable, ShdrReadable, HaveSyms, Proper;
    EndOfSymbols(f, elf);
    PassesAgreeOnEnd(f, elf);
    var esym, esymval, wshp := Layout(f, elf);
    var vaddr;
    ok, vaddr := CopySegments(img, f, elf, esym, esymval);
    if !ok {
      return false, false;
    }
    var havesyms := FindSymtab(elf);
    if !havesyms {
      return true, false;
    }
    Assoc(old(img.out), Body(f, elf), Block(f, elf));
    ok, vaddr := CopyBlock(img, f, elf, wshp, vaddr);
    mismatch := vaddr != esymval;
  }

  /** The symbol block follows the segments if there is a symbol table (type 2), and only then. */
  lemma OutputIs(f: Format, elf: Elf)
    ensures if exists j :: 0 <= j < |elf.shdrs| && elf.shdrs[j].kind == 2
            then Output(f, elf) == Body(f, elf) + Block(f, elf)
            else Output(f, elf) == Body(f, elf)
  {
    hide Body, Block;
  }

  lemma EndOfSymbols(f: Format, elf: Elf)
    requires Proper(f)
    ensures SymOffset(f, elf, 0) <= SymOffset(f, elf, |elf.shdrs|)
    ensures var r := Roundup(f, Emit(f, elf, |elf.phdrs|).vaddr);
            var s := SymOffset(f, elf, |elf.shdrs|) - SymOffset(f, elf, 0);
            Wrap(f, Wrap(f, r) + HeadSize(f, elf) + s) == FinalVaddr(f, elf)
  {
    HeadAligned(f, elf);
    SymOffsetGrows(f, elf, 0, |elf.shdrs|);
    hide Emit, Wrap;
    var r := Roundup(f, Emit(f, elf, |elf.phdrs|).vaddr);
    WrapAdd(f, r, SymOffset(f, elf, |elf.shdrs|));
  }
}
