/** CRC-32 as `java.util.zip.CRC32` computes it, the checksum a STORED entry
    of a ZIP archive declares (section 4.4.7 of PKWARE's APPNOTE.TXT): the
    generator polynomial of ISO/IEC 3309 and ITU-T V.42, 0x04C11DB7, used
    bit-reflected, with the register preset to all ones and complemented
    at the end. */
module Crc32 {
  import opened Base

  /** 0x04C11DB7 with its 32 bits in reverse order. */
  const Polynomial: bv32 := 0xEDB8_8320

  /** The size of the read buffer in `ApkUtils.zip`. */
  const BufferSize: nat := 8192

  /** One bit of polynomial division, least significant bit first. */
  function Step(c: bv32): bv32 {
    if c & 1 == 1 then (c >> 1) ^ Polynomial else c >> 1
  }

  /** The register after one byte, whose bits enter least significant first. */
  function ShiftByte(c: bv32, b: byte): bv32 {
    var x := c ^ (b as bv32);
    Step(Step(Step(Step(Step(Step(Step(Step(x))))))))
  }

  /** The checksum value after one more byte: the value is the complemented
      register, so the byte is shifted into the complement of the value. */
  function UpdateByte(value: bv32, b: byte): bv32 {
    !ShiftByte(!value, b)
  }

  /** `CRC32.update(data)` applied to a checksum whose current value is `value`. */
  function Update(value: bv32, data: seq<byte>): bv32
    decreases |data|
  {
    if |data| == 0 then value else Update(UpdateByte(value, data[0]), data[1..])
  }

  /** The value of a fresh `CRC32` after one `update` with all of `data`. */
  function Checksum(data: seq<byte>): bv32 {
    Update(0, data)
  }

  /** Feeding `a` and then `b` is feeding `a + b`: how the data is cut into
      `update` calls does not change the value. */
  lemma {:induction false} UpdateConcat(value: bv32, a: seq<byte>, b: seq<byte>)
    ensures Update(Update(value, a), b) == Update(value, a + b)
    decreases |a|
  {
    if |a| > 0 {
      assert (a + b)[1..] == a[1..] + b;
      UpdateConcat(UpdateByte(value, a[0]), a[1..], b);
    } else {
      assert a + b == b;
    }
  }

  /** The standard check value of this CRC: the nine ASCII digits "123456789"
      have checksum 0xCBF43926. */
  lemma CheckValue()
    ensures Checksum([0x31, 0x32, 0x33, 0x34, 0x35, 0x36, 0x37, 0x38, 0x39]) == 0xCBF4_3926
  {
  }

  function Sum(s: seq<nat>): nat
    decreases |s|
  {
    if |s| == 0 then 0 else Sum(s[..|s| - 1]) + s[|s| - 1]
  }

  lemma {:induction false} SumPrefix(s: seq<nat>, i: nat)
    requires i <= |s|
    ensures Sum(s[..i]) <= Sum(s)
    decreases |s| - i
  {
    if i < |s| {
      SumPrefix(s, i + 1);
      assert s[..i + 1][..i] == s[..i];
    } else {
      assert s[..i] == s;
    }
  }

  /** The read loop of `ApkUtils.zip` for a STORED entry: each `read(buffer)`
      fills the first `readSizes[i]` cells of an 8192-byte buffer with the next
      bytes of the file and the checksum is updated with those cells; the
      loop ends when `read` reports the end of the file. Whatever the
      stream's read sizes, the result is the checksum of the whole file. */
  method ChunkedChecksum(content: seq<byte>, readSizes: seq<nat>) returns (value: bv32)
    requires forall i :: 0 <= i < |readSizes| ==> 1 <= readSizes[i] <= BufferSize
    requires Sum(readSizes) == |content|
    ensures value == Checksum(content)
  {
    var buffer := new byte[BufferSize];
    var crc: bv32 := 0;
    var pos := 0;
    var i := 0;
    while i < |readSizes|
      invariant 0 <= i <= |readSizes|
      invariant pos == Sum(readSizes[..i]) && pos <= |content|
      invariant crc == Checksum(content[..pos])
    {
      var bytesRead := readSizes[i];
      assert readSizes[..i + 1][..i] == readSizes[..i];
      SumPrefix(readSizes, i + 1);
      forall k | 0 <= k < bytesRead {
        buffer[k] := content[pos + k];
      }
      assert buffer[..bytesRead] == content[pos..pos + bytesRead];
      ChecksumExtends(content, pos, pos + bytesRead);
      crc := Update(crc, buffer[..bytesRead]);
      pos := pos + bytesRead;
      i := i + 1;
    }
    assert readSizes[..i] == readSizes;
    assert content[..pos] == content;
    value := crc;
  }

  /** Updating the checksum of a prefix with the next bytes gives the
      checksum of the longer prefix. */
  lemma ChecksumExtends(content: seq<byte>, pos: nat, end: nat)
    requires pos <= end <= |content|
    ensures Update(Checksum(content[..pos]), content[pos..end]) == Checksum(content[..end])
  {
    UpdateConcat(0, content[..pos], content[pos..end]);
    assert content[..pos] + content[pos..end] == content[..end];
  }

  /** The read sizes of a stream that always fills the buffer while it can:
      full buffers, then the remainder. */
  function FullReads(length: nat): (r: seq<nat>)
    ensures forall i :: 0 <= i < |r| ==> 1 <= r[i] <= BufferSize
    ensures Sum(r) == length
    decreases length
  {
    if length == 0 then []
    else if length <= BufferSize then [length]
    else
      var rest := FullReads(length - BufferSize);
      SumCons(BufferSize, rest);
      [BufferSize] + rest
  }

  lemma {:induction false} SumCons(x: nat, s: seq<nat>)
    ensures Sum([x] + s) == x + Sum(s)
    decreases |s|
  {
    if |s| > 0 {
      assert ([x] + s)[..|[x] + s| - 1] == [x] + s[..|s| - 1];
      SumCons(x, s[..|s| - 1]);
    } else {
      assert [x] + s == [x];
    }
  }
}
