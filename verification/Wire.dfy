/** The fields of a file id (internal/fileid/fileid.go, lines 800-901): little-endian
    words and length-prefixed byte strings padded to four bytes, the buffer that writes
    them and the reader that takes them back. */
module Wire {
  import opened Bytes
  import Rle

  const TWO_24 := 0x100_0000
  const TWO_32 := 0x1_0000_0000
  const TWO_64 := 0x1_0000_0000_0000_0000

  function ToInt32(u: int): int { if u >= TWO_31 then u - TWO_32 else u }

  function ToInt64(u: int): int { if u >= TWO_63 then u - TWO_64 else u }

  // ---------- words ----------

  function LittleEndian(v: nat, n: nat): (b: seq<byte>)
    ensures |b| == n
  {
    if n == 0 then [] else [v % 256] + LittleEndian(v / 256, n - 1)
  }

  function FromLittleEndian(b: seq<byte>): nat {
    if b == [] then 0 else b[0] + 256 * FromLittleEndian(b[1..])
  }

  function Pow256(n: nat): nat { if n == 0 then 1 else 256 * Pow256(n - 1) }

  lemma {:induction false} WordBack(v: nat, n: nat)
    requires v < Pow256(n)
    ensures FromLittleEndian(LittleEndian(v, n)) == v
  {
    if n > 0 {
      WordBack(v / 256, n - 1);
      assert LittleEndian(v, n)[1..] == LittleEndian(v / 256, n - 1);
    }
  }

  lemma Widths()
    ensures Pow256(4) == TWO_32 && Pow256(8) == TWO_64
  {
    assert Pow256(2) == 0x1_0000;
    assert Pow256(4) == TWO_32;
    assert Pow256(6) == 0x1_0000_0000_0000;
  }

  function U32(v: int): (b: seq<byte>)
    ensures |b| == 4
  {
    LittleEndian(v % TWO_32, 4)
  }

  function I64(v: int): (b: seq<byte>)
    ensures |b| == 8
  {
    LittleEndian(v % TWO_64, 8)
  }

  // ---------- padded byte strings ----------

  function Padding(n: nat): (p: nat)
    ensures p < 4 && (n + p) % 4 == 0
  {
    (4 - n % 4) % 4
  }

  function Header(len: nat): seq<byte> {
    if len < 254 then [len] else [254, len % 256, len / 0x100 % 256, len / 0x1_0000 % 256]
  }

  /** data as written into a buffer that already holds offset bytes. */
  function Padded(offset: nat, data: seq<byte>): seq<byte> {
    Header(|data|) + data + Rle.Zeros(Padding(offset + |Header(|data|)| + |data|))
  }

  // ---------- reading ----------

  datatype Read<+T> = Got(value: T, rest: seq<byte>) | EndOfInput

  /** bytes.Reader.Read into n bytes: it fails only on no input at all, and otherwise
      leaves what it cannot fill at zero. */
  function ReadFixed(s: seq<byte>, n: nat): (r: Read<seq<byte>>)
    ensures r.Got? ==> |r.value| == n && |r.rest| <= |s|
  {
    if s == [] then EndOfInput
    else if |s| < n then Got(s + Rle.Zeros(n - |s|), [])
    else Got(s[..n], s[n..])
  }

  function ReadU32(s: seq<byte>): Read<nat> {
    var r := ReadFixed(s, 4);
    if r.EndOfInput? then EndOfInput else Got(FromLittleEndian(r.value), r.rest)
  }

  function ReadI64(s: seq<byte>): Read<int> {
    var r := ReadFixed(s, 8);
    if r.EndOfInput? then EndOfInput else Got(ToInt64(FromLittleEndian(r.value)), r.rest)
  }

  /** The length of a byte string and the bytes after the header. */
  function ReadHeader(s: seq<byte>): (r: Read<nat>) {
    if s == [] then EndOfInput
    else if s[0] != 254 then Got(s[0], s[1..])
    else
      var ln := ReadFixed(s[1..], 3);
      if ln.EndOfInput? then EndOfInput
      else
        var a: int, b: int, c: int := ln.value[0], ln.value[1], ln.value[2];
        Got(a + b * 0x100 + c * 0x1_0000, ln.rest)
  }

  /** readBytes, for a string that starts at the given offset: the source pads to four
      bytes counted from the start of the string, which is offset 0. */
  function ReadPaddedAt(offset: nat, s: seq<byte>): (r: Read<seq<byte>>) {
    var h := ReadHeader(s);
    if h.EndOfInput? then EndOfInput
    else
      var headerLen := if s[0] == 254 then 4 else 1;
      var d := ReadFixed(h.rest, h.value);
      if d.EndOfInput? then EndOfInput
      else
        var pad := Padding(offset + headerLen + h.value);
        if |d.rest| < pad then EndOfInput else Got(d.value, d.rest[pad..])
  }

  function ReadPadded(s: seq<byte>): (r: Read<seq<byte>>) { ReadPaddedAt(0, s) }

  lemma ReadU32Back(v: int, tail: seq<byte>)
    ensures ReadU32(U32(v) + tail) == Got(v % TWO_32, tail)
  {
    Widths();
    WordBack(v % TWO_32, 4);
    assert (U32(v) + tail)[..4] == U32(v) && (U32(v) + tail)[4..] == tail;
  }

  lemma ReadI64Back(v: int, tail: seq<byte>)
    requires IsInt64(v)
    ensures ReadI64(I64(v) + tail) == Got(v, tail)
  {
    Widths();
    WordBack(v % TWO_64, 8);
    assert (I64(v) + tail)[..8] == I64(v) && (I64(v) + tail)[8..] == tail;
  }

  lemma ThreeBytesOf(len: nat)
    ensures len % 256 + len / 0x100 % 256 * 0x100 + len / 0x1_0000 % 256 * 0x1_0000 == len % TWO_24
  {
    var q := len / 256;
    var p := q / 256;
    assert p == len / 0x1_0000;
    Remainder(len, p / 256, len % 256 + q % 256 * 0x100 + p % 256 * 0x1_0000);
  }

  lemma Remainder(len: nat, quotient: nat, rest: nat)
    requires len == rest + quotient * TWO_24 && rest < TWO_24
    ensures len % TWO_24 == rest
  {
  }

  lemma ReadHeaderBack(len: nat, tail: seq<byte>)
    ensures ReadHeader(Header(len) + tail) == Got(if len < 254 then len else len % TWO_24, tail)
  {
    var s := Header(len) + tail;
    if len < 254 {
      assert s[1..] == tail;
    } else {
      ThreeBytesOf(len);
      var ln := [len % 256, len / 0x100 % 256, len / 0x1_0000 % 256];
      assert s[1..] == ln + tail;
      assert (ln + tail)[..3] == ln && (ln + tail)[3..] == tail;
    }
  }

  lemma ReadFixedBack(data: seq<byte>, tail: seq<byte>)
    requires data + tail != []
    ensures ReadFixed(data + tail, |data|) == Got(data, tail)
  {
    assert (data + tail)[..|data|] == data && (data + tail)[|data|..] == tail;
  }

  lemma PaddingAligned(offset: nat, o: nat, k: nat)
    requires offset % 4 == o % 4
    ensures Padding(offset + k) == Padding(o + k)
  {
    assert (offset + k) % 4 == (o + k) % 4;
  }

  lemma PaddedSplit(offset: nat, data: seq<byte>, tail: seq<byte>)
    ensures var h := Header(|data|);
            Padded(offset, data) + tail == h + (data + (Rle.Zeros(Padding(offset + |h| + |data|)) + tail))
  {
    var h := Header(|data|);
    var zeros := Rle.Zeros(Padding(offset + |h| + |data|));
    Assoc(h + data, zeros, tail);
    Assoc(h, data, zeros + tail);
  }

  lemma ReadPaddedParts(o: nat, s: seq<byte>, headerLen: nat, data: seq<byte>, zeros: seq<byte>, tail: seq<byte>)
    requires s != [] && headerLen == if s[0] == 254 then 4 else 1
    requires ReadHeader(s) == Got(|data|, data + (zeros + tail)) && data + (zeros + tail) != []
    requires |zeros| == Padding(o + headerLen + |data|)
    ensures ReadPaddedAt(o, s) == Got(data, tail)
  {
    ReadFixedBack(data, zeros + tail);
    assert (zeros + tail)[|zeros|..] == tail;
  }

  lemma SomethingLeft(offset: nat, data: seq<byte>, zeros: seq<byte>, tail: seq<byte>)
    requires |zeros| == Padding(offset + |Header(|data|)| + |data|)
    requires data != [] || tail != [] || offset % 4 != 3
    ensures data + (zeros + tail) != []
  {
    if data == [] && tail == [] {
      assert (offset + 1) % 4 != 0;
      assert |zeros| > 0;
    }
    assert |data + (zeros + tail)| == |data| + |zeros| + |tail|;
  }

  lemma HeaderRead(len: nat, tail: seq<byte>)
    requires len < TWO_24
    ensures var s := Header(len) + tail;
            s != [] && ReadHeader(s) == Got(len, tail) && |Header(len)| == if s[0] == 254 then 4 else 1
  {
    ReadHeaderBack(len, tail);
  }

  lemma ReadShortPadded(offset: nat, o: nat, data: seq<byte>, tail: seq<byte>)
    requires offset % 4 == o % 4 && |data| < TWO_24
    requires data != [] || tail != [] || offset % 4 != 3
    ensures ReadPaddedAt(o, Padded(offset, data) + tail) == Got(data, tail)
  {
    var h := Header(|data|);
    var zeros := Rle.Zeros(Padding(offset + |h| + |data|));
    SomethingLeft(offset, data, zeros, tail);
    PaddedSplit(offset, data, tail);
    HeaderRead(|data|, data + (zeros + tail));
    PaddingAligned(offset, o, |h| + |data|);
    ReadPaddedParts(o, h + (data + (zeros + tail)), |h|, data, zeros, tail);
  }

  lemma LongNeverBack(offset: nat, o: nat, data: seq<byte>, tail: seq<byte>)
    requires |data| >= TWO_24
    ensures ReadPaddedAt(o, Padded(offset, data) + tail) != Got(data, tail)
  {
    var h := Header(|data|);
    var zeros := Rle.Zeros(Padding(offset + |h| + |data|));
    PaddedSplit(offset, data, tail);
    ReadHeaderBack(|data|, data + (zeros + tail));
  }

  lemma NothingNeverBack(offset: nat, o: nat)
    requires offset % 4 == o % 4 == 3
    ensures ReadPaddedAt(o, Padded(offset, []) + []) == EndOfInput
  {
    var s := Padded(offset, []) + [];
    assert (offset + 1) % 4 == 0;
    assert s == [0];
    assert s[1..] == [];
  }

  /** Read with the alignment it was written with, a byte string comes back exactly when it
      is shorter than 2^24 bytes and is not an empty one without padding at the very end of
      the input, which reads as missing. */
  lemma ReadPaddedBack(offset: nat, o: nat, data: seq<byte>, tail: seq<byte>)
    requires offset % 4 == o % 4
    ensures ReadPaddedAt(o, Padded(offset, data) + tail) == Got(data, tail)
       <==> |data| < TWO_24 && (data != [] || tail != [] || offset % 4 != 3)
  {
    if |data| >= TWO_24 {
      LongNeverBack(offset, o, data, tail);
    } else if data != [] || tail != [] || offset % 4 != 3 {
      ReadShortPadded(offset, o, data, tail);
    } else {
      NothingNeverBack(offset, o);
    }
  }

  // ---------- bytes on the wire ----------

  lemma LowByte(v: nat, n: nat)
    requires n > 0
    ensures LittleEndian(v, n) == [v % 256] + LittleEndian(v / 256, n - 1)
  {
  }

  lemma LowBytes(v: nat, n: nat)
    ensures LittleEndian(v, n + 4)
            == [v % 256, v / 0x100 % 256, v / 0x1_0000 % 256, v / 0x100_0000 % 256] + LittleEndian(v / TWO_32, n)
  {
    hide LittleEndian;
    LowByte(v, n + 4);
    LowByte(v / 256, n + 3);
    LowByte(v / 256 / 256, n + 2);
    LowByte(v / 256 / 256 / 256, n + 1);
    assert v / 256 / 256 == v / 0x1_0000 && v / 256 / 256 / 256 == v / 0x100_0000;
    assert v / 256 / 256 / 256 / 256 == v / TWO_32;
  }

  /** A word is four bytes and a long is eight, the lowest first. */
  lemma WordBytes(v: int)
    ensures var n := v % 0x1_0000_0000;
            U32(v) == [n % 256, n / 0x100 % 256, n / 0x1_0000 % 256, n / 0x100_0000 % 256]
    ensures var n := v % 0x1_0000_0000_0000_0000;
            var high := n / 0x1_0000_0000;
            I64(v) == [n % 256, n / 0x100 % 256, n / 0x1_0000 % 256, n / 0x100_0000 % 256]
                      + [high % 256, high / 0x100 % 256, high / 0x1_0000 % 256, high / 0x100_0000 % 256]
  {
    var n, m := v % TWO_32, v % TWO_64;
    LowBytes(n, 0);
    LowBytes(m, 4);
    LowBytes(m / TWO_32, 0);
    NoBytes(n / TWO_32);
    NoBytes(m / TWO_32 / TWO_32);
    hide LittleEndian;
  }

  lemma NoBytes(v: nat)
    ensures LittleEndian(v, 0) == []
  {
  }

  /** A byte string is its length in one byte, or 254 and the length in three, then the data,
      then fewer than four zeros up to a multiple of four. */
  lemma PaddedBytes(offset: nat, data: seq<byte>)
    ensures var n := |data|;
            var head := if n < 254 then [n] else [254, n % 256, n / 0x100 % 256, n / 0x1_0000 % 256];
            && Padded(offset, data)[..|head| + n] == head + data
            && |Padded(offset, data)| - |head| - n < 4 && (offset + |Padded(offset, data)|) % 4 == 0
            && forall i :: |head| + n <= i < |Padded(offset, data)| ==> Padded(offset, data)[i] == 0
  {
    var h, n := Header(|data|), |data|;
    var zeros := Rle.Zeros(Padding(offset + |h| + n));
    assert Padded(offset, data) == (h + data) + zeros;
  }

  // ---------- the buffer and the reader ----------

  class Buf {
    var b: seq<byte>

    constructor ()
      ensures b == []
    {
      b := [];
    }

    method PutU8(v: byte)
      modifies this
      ensures b == old(b) + [v]
    {
      b := b + [v];
    }

    method PutU32(v: int)
      modifies this
      ensures b == old(b) + U32(v)
    {
      b := b + U32(v);
    }

    method PutI64(v: int)
      modifies this
      ensures b == old(b) + I64(v)
    {
      b := b + I64(v);
    }

    /** bytes: header, data, and zeros until the whole buffer is a multiple of four. */
    method PutBytes(data: seq<byte>)
      modifies this
      ensures b == old(b) + Padded(|old(b)|, data)
    {
      var n := |data|;
      if n < 254 {
        b := b + [n];
      } else {
        b := b + [254, n % 256, n / 0x100 % 256, n / 0x1_0000 % 256];
      }
      b := b + data;
      ghost var unpadded := b;
      assert unpadded == old(b) + (Header(n) + data);
      var k := 0;
      while |b| % 4 != 0
        invariant b == unpadded + Rle.Zeros(k) && k <= Padding(|unpadded|)
        decreases Padding(|unpadded|) - k
      {
        Rle.ZerosSnoc(k);
        b := b + [0];
        k := k + 1;
      }
      assert k == Padding(|unpadded|);
      Assoc(old(b), Header(n) + data, Rle.Zeros(k));
    }
  }

  /** bytes.Reader over the decompressed bytes. Rest() is what is left to read. */
  class Reader {
    const data: seq<byte>
    var i: nat

    ghost predicate Valid()
      reads this
    {
      i <= |data|
    }

    function Rest(): seq<byte>
      requires Valid()
      reads this
    {
      data[i..]
    }

    constructor (data: seq<byte>)
      ensures Valid() && Rest() == data
    {
      this.data, i := data, 0;
    }

    method TakeFixed(n: nat) returns (r: Option<seq<byte>>)
      requires Valid()
      modifies this`i
      ensures Valid()
      ensures var spec := ReadFixed(old(Rest()), n);
              if spec.EndOfInput? then r == None && Rest() == old(Rest())
              else r == Some(spec.value) && Rest() == spec.rest
    {
      if i == |data| { return None; }
      if |data| - i < n {
        r := Some(data[i..] + Rle.Zeros(n - (|data| - i)));
        i := |data|;
      } else {
        r := Some(data[i..i + n]);
        assert data[i..][..n] == data[i..i + n] && data[i..][n..] == data[i + n..];
        i := i + n;
      }
    }

    method TakeU32() returns (r: Option<nat>)
      requires Valid()
      modifies this`i
      ensures Valid()
      ensures var spec := ReadU32(old(Rest()));
              if spec.EndOfInput? then r == None else r == Some(spec.value) && Rest() == spec.rest
    {
      var w := TakeFixed(4);
      r := if w.None? then None else Some(FromLittleEndian(w.value));
    }

    method TakeI64() returns (r: Option<int>)
      requires Valid()
      modifies this`i
      ensures Valid()
      ensures var spec := ReadI64(old(Rest()));
              if spec.EndOfInput? then r == None else r == Some(spec.value) && Rest() == spec.rest
    {
      var w := TakeFixed(8);
      r := if w.None? then None else Some(ToInt64(FromLittleEndian(w.value)));
    }

    method TakeByte() returns (r: Option<byte>)
      requires Valid()
      modifies this`i
      ensures Valid()
      ensures if old(Rest()) == [] then r == None && Rest() == []
              else r == Some(old(Rest())[0]) && Rest() == old(Rest())[1..]
    {
      if i == |data| { return None; }
      r := Some(data[i]);
      i := i + 1;
    }

    /** The header of a byte string: its length, and how long the header was. */
    method TakeHeader() returns (r: Option<nat>, headerLen: nat)
      requires Valid()
      modifies this`i
      ensures Valid()
      ensures var spec := ReadHeader(old(Rest()));
              if spec.EndOfInput? then r == None else r == Some(spec.value) && Rest() == spec.rest
      ensures r.Some? ==> old(Rest()) != [] && headerLen == if old(Rest())[0] == 254 then 4 else 1
    {
      r, headerLen := None, 1;
      var first := TakeByte();
      if first.None? { return; }
      var size: int := first.value;
      if first.value == 254 {
        var ln := TakeFixed(3);
        if ln.None? { return; }
        headerLen := 4;
        var a: int, b: int, c: int := ln.value[0], ln.value[1], ln.value[2];
        size := a + b * 0x100 + c * 0x1_0000;
      }
      r := Some(size);
    }

    /** The last loop of readBytes: drop bytes until n of them and these are a multiple
        of four. */
    method SkipPadding(n: nat) returns (ok: bool)
      requires Valid()
      modifies this`i
      ensures Valid() && ok == (|old(Rest())| >= Padding(n))
      ensures ok ==> Rest() == old(Rest())[Padding(n)..]
    {
      ghost var rest, pad := Rest(), Padding(n);
      var k := 0;
      while (n + k) % 4 != 0
        invariant Valid() && k <= pad && k <= |rest| && Rest() == rest[k..]
        decreases pad - k
      {
        var z := TakeByte();
        if z.None? { return false; }
        k := k + 1;
      }
      assert k == pad;
      ok := true;
    }

    /** readBytes */
    method TakeBytes() returns (r: Option<seq<byte>>)
      requires Valid()
      modifies this`i
      ensures Valid()
      ensures var spec := ReadPadded(old(Rest()));
              if spec.EndOfInput? then r == None else r == Some(spec.value) && Rest() == spec.rest
    {
      var size, headerLen := TakeHeader();
      if size.None? { return None; }
      var d := TakeFixed(size.value);
      if d.None? { return None; }
      var ok := SkipPadding(headerLen + size.value);
      r := if ok then d else None;
    }
  }
}
