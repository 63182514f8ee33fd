/** The output side of tools/mkuboot/mkuboot.c: bytes appended in chunks with a running size and checksum. */
module ImageWriter {
  import opened Common

  type Step = (bv32, Byte) -> bv32

  /** A checksum that takes one byte at a time, as CRC-32 does. */
  function Checksum(step: Step, crc: bv32, bytes: seq<Byte>): bv32 {
    if bytes == [] then crc
    else step(Checksum(step, crc, bytes[..|bytes| - 1]), bytes[|bytes| - 1])
  }

  lemma {:induction false} ChecksumConcat(step: Step, crc: bv32, xs: seq<Byte>, ys: seq<Byte>)
    ensures Checksum(step, crc, xs + ys) == Checksum(step, Checksum(step, crc, xs), ys)
  {
    if ys == [] {
      assert xs + ys == xs;
    } else {
      assert (xs + ys)[..|xs + ys| - 1] == xs + ys[..|ys| - 1];
      ChecksumConcat(step, crc, xs, ys[..|ys| - 1]);
    }
  }

  /** The checksum takes every byte once, the first one first. */
  lemma {:induction false} ChecksumFirst(step: Step, crc: bv32, b: Byte, bytes: seq<Byte>)
    ensures Checksum(step, crc, []) == crc
    ensures Checksum(step, crc, [b] + bytes) == Checksum(step, step(crc, b), bytes)
  {
    assert [b][..0] == [] && Checksum(step, crc, [b]) == step(crc, b);
    ChecksumConcat(step, crc, [b], bytes);
  }

  function Zeroes(n: nat): (z: seq<Byte>)
    ensures |z| == n && forall i :: 0 <= i < n ==> z[i] == 0
  {
    seq(n, _ => 0)
  }

  predicate CanCut(file: seq<Byte>, off: nat, n: nat) {
    n == 0 || off + n <= |file|
  }

  /** What copy_data copies; nothing where it would fail. */
  function Cut(file: seq<Byte>, off: nat, n: nat): seq<Byte> {
    if n > 0 && off + n <= |file| then file[off..off + n] else []
  }

  lemma Add32(x: nat, y: nat)
    ensures (x % 0x1_0000_0000 + y) % 0x1_0000_0000 == (x + y) % 0x1_0000_0000
  {
    assert x == 0x1_0000_0000 * (x / 0x1_0000_0000) + x % 0x1_0000_0000;
  }

  lemma Add64(x: nat, y: nat)
    ensures (x % 0x1_0000_0000_0000_0000 + y) % 0x1_0000_0000_0000_0000 == (x + y) % 0x1_0000_0000_0000_0000
  {
    assert x == 0x1_0000_0000_0000_0000 * (x / 0x1_0000_0000_0000_0000) + x % 0x1_0000_0000_0000_0000;
  }

  /** The data of an image: what was written, `ih_size`, and the checksum so far. */
  class Image {
    const step: Step
    const init: bv32
    const bufsiz: nat
    var out: seq<Byte>
    var size: nat
    var crc: bv32

    /** The size counts the bytes written, in 32 bits, and the checksum covers them and no others. */
    ghost predicate Valid()
      reads this
    {
      && bufsiz > 0
      && size == |out| % 0x1_0000_0000
      && crc == Checksum(step, init, out)
    }

    constructor (step: Step, init: bv32, bufsiz: nat)
      requires bufsiz > 0
      ensures Valid() && out == [] && this.step == step && this.init == init && this.bufsiz == bufsiz
    {
      this.step, this.init, this.bufsiz := step, init, bufsiz;
      out, size, crc := [], 0, init;
    }

    /** One write(2), with the bookkeeping that follows it. */
    method Append(bytes: seq<Byte>)
      requires Valid()
      modifies this
      ensures Valid() && out == old(out) + bytes
    {
      ChecksumConcat(step, init, out, bytes);
      Add32(|out|, |bytes|);
      out := out + bytes;
      crc := Checksum(step, crc, bytes);
      size := (size + |bytes|) % 0x1_0000_0000;
    }

    /** copy_data from offset `off` of the file; it gives up when the file is too short. */
    method CopyData(file: seq<Byte>, off: nat, len: nat) returns (ok: bool)
      requires Valid()
      modifies this
      ensures Valid() && (ok <==> CanCut(file, off, len))
      ensures ok ==> out == old(out) + Cut(file, off, len)
    {
      var left: nat, at: nat := len, off;
      while left != 0
        invariant left <= len && at == off + (len - left) && Valid()
        invariant at <= |file| || left == len
        invariant out == if left == len then old(out) else old(out) + file[off..at]
      {
        var chunk := if left > bufsiz then bufsiz else left;
        if at + chunk > |file| {
          return false;
        }
        assert left < len ==> file[off..at] + file[at..at + chunk] == file[off..at + chunk];
        Append(file[at..at + chunk]);
        left, at := left - chunk, at + chunk;
      }
      ok := true;
    }

    method CopyMem(mem: seq<Byte>)
      requires Valid()
      modifies this
      ensures Valid() && out == old(out) + mem
    {
      var left: nat, at: nat := |mem|, 0;
      while left != 0
        invariant at + left == |mem| && Valid() && out == old(out) + mem[..at]
      {
        var chunk := if left > bufsiz then bufsiz else left;
        assert mem[..at] + mem[at..at + chunk] == mem[..at + chunk];
        Append(mem[at..at + chunk]);
        left, at := left - chunk, at + chunk;
      }
    }

    method FillZeroes(len: nat)
      requires Valid()
      modifies this
      ensures Valid() && out == old(out) + Zeroes(len)
    {
      var left: nat := len;
      while left != 0
        invariant left <= len && Valid() && out == old(out) + Zeroes(len - left)
      {
        var chunk := if left > bufsiz then bufsiz else left;
        assert Zeroes(len - left) + Zeroes(chunk) == Zeroes(len - left + chunk);
        Append(Zeroes(chunk));
        left := left - chunk;
      }
    }
  }
}
