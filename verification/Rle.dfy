/** The transport form of file ids: zero runs are written as a zero and a count
    (internal/fileid/fileid.go, rleEncode and rleDecode). */
module Rle {
  import opened Bytes

  const MAX_RUN := 250

  function Zeros(n: nat): (z: seq<byte>)
    ensures |z| == n && forall i :: 0 <= i < n ==> z[i] == 0
  {
    if n == 0 then [] else [0] + Zeros(n - 1)
  }

  /** How many of the first max bytes are leading zeros. */
  function ZeroRun(data: seq<byte>, max: nat): (n: nat)
    ensures n <= max && n <= |data|
    ensures forall i :: 0 <= i < n ==> data[i] == 0
    ensures n < max && n < |data| ==> data[n] != 0
  {
    if max == 0 || data == [] || data[0] != 0 then 0 else 1 + ZeroRun(data[1..], max - 1)
  }

  function Compress(data: seq<byte>): seq<byte> {
    if data == [] then []
    else if data[0] == 0 then
      var n := ZeroRun(data, MAX_RUN);
      [0, n] + Compress(data[n..])
    else [data[0]] + Compress(data[1..])
  }

  function Expand(data: seq<byte>): seq<byte> {
    if data == [] then []
    else if data[0] != 0 then [data[0]] + Expand(data[1..])
    else if |data| == 1 then []
    else Zeros(data[1]) + Expand(data[2..])
  }

  lemma ZeroRunIs(data: seq<byte>, max: nat, n: nat)
    requires n <= max && n <= |data|
    requires forall i :: 0 <= i < n ==> data[i] == 0
    requires n == max || n == |data| || data[n] != 0
    ensures ZeroRun(data, max) == n
  {
    var k := ZeroRun(data, max);
    assert k >= n;
    assert n >= k;
  }

  /** The inner loop of rleEncode. */
  method CountZeros(data: seq<byte>, i: nat) returns (count: nat)
    requires i < |data| && data[i] == 0
    ensures 1 <= count <= MAX_RUN && i + count <= |data| && count == ZeroRun(data[i..], MAX_RUN)
  {
    count := 1;
    while i + count < |data| && data[i + count] == 0 && count < MAX_RUN
      invariant 1 <= count <= MAX_RUN && i + count <= |data|
      invariant forall j :: i <= j < i + count ==> data[j] == 0
    {
      count := count + 1;
    }
    ZeroRunIs(data[i..], MAX_RUN, count);
  }

  lemma CompressFrom(data: seq<byte>, i: nat)
    requires i < |data|
    ensures data[i] != 0 ==> Compress(data[i..]) == [data[i]] + Compress(data[i + 1..])
    ensures data[i] == 0 ==> var n := ZeroRun(data[i..], MAX_RUN);
              Compress(data[i..]) == [0, n] + Compress(data[i + n..])
  {
    var rest := data[i..];
    assert rest[1..] == data[i + 1..];
    var n := ZeroRun(rest, MAX_RUN);
    assert rest[n..] == data[i + n..];
  }

  method RleEncode(data: seq<byte>) returns (out: seq<byte>)
    ensures out == Compress(data)
  {
    out := [];
    var i := 0;
    while i < |data|
      invariant 0 <= i <= |data|
      invariant Compress(data) == out + Compress(data[i..])
    {
      CompressFrom(data, i);
      if data[i] == 0 {
        var count := CountZeros(data, i);
        Assoc(out, [0, count], Compress(data[i + count..]));
        out := out + [0, count];
        i := i + count;
      } else {
        Assoc(out, [data[i]], Compress(data[i + 1..]));
        out := out + [data[i]];
        i := i + 1;
      }
    }
  }

  method WriteZeros(out: seq<byte>, count: nat) returns (out': seq<byte>)
    ensures out' == out + Zeros(count)
  {
    out' := out;
    for j := 0 to count
      invariant out' == out + Zeros(j)
    {
      ZerosSnoc(j);
      out' := out' + [0];
    }
  }

  lemma ExpandFrom(data: seq<byte>, i: nat)
    requires i < |data|
    ensures data[i] != 0 ==> Expand(data[i..]) == [data[i]] + Expand(data[i + 1..])
    ensures data[i] == 0 && i + 1 < |data| ==> Expand(data[i..]) == Zeros(data[i + 1]) + Expand(data[i + 2..])
    ensures data[i] == 0 && i + 1 == |data| ==> Expand(data[i..]) == []
  {
    var rest := data[i..];
    assert rest[1..] == data[i + 1..];
    if i + 1 < |data| { assert rest[2..] == data[i + 2..]; }
  }

  method RleDecode(data: seq<byte>) returns (out: seq<byte>)
    ensures out == Expand(data)
  {
    out := [];
    var i := 0;
    while i < |data|
      invariant 0 <= i <= |data|
      invariant Expand(data) == out + Expand(data[i..])
    {
      ExpandFrom(data, i);
      if data[i] == 0 {
        if i + 1 < |data| {
          Assoc(out, Zeros(data[i + 1]), Expand(data[i + 2..]));
          out := WriteZeros(out, data[i + 1]);
          i := i + 1;
        }
      } else {
        Assoc(out, [data[i]], Expand(data[i + 1..]));
        out := out + [data[i]];
      }
      i := i + 1;
    }
  }

  lemma {:induction false} ZerosSnoc(n: nat)
    ensures Zeros(n + 1) == Zeros(n) + [0]
  {
    if n > 0 { ZerosSnoc(n - 1); }
  }

  /** Expanding inverts compressing, runs longer than one count can hold included. */
  lemma {:induction false} RoundTrip(data: seq<byte>)
    ensures Expand(Compress(data)) == data
    decreases |data|
  {
    if data == [] {
    } else if data[0] == 0 {
      var n := ZeroRun(data, MAX_RUN);
      assert n > 0;
      RoundTrip(data[n..]);
      assert ([0, n] + Compress(data[n..]))[2..] == Compress(data[n..]);
      assert data == Zeros(n) + data[n..];
    } else {
      RoundTrip(data[1..]);
      assert ([data[0]] + Compress(data[1..]))[1..] == Compress(data[1..]);
    }
  }

  /** A last byte that is not zero stays the last byte. */
  lemma {:induction false} LastByte(data: seq<byte>)
    requires data != [] && data[|data| - 1] != 0
    ensures Compress(data) != [] && Compress(data)[|Compress(data)| - 1] == data[|data| - 1]
    decreases |data|
  {
    if data[0] == 0 {
      var n := ZeroRun(data, MAX_RUN);
      assert 0 < n < |data|;
      LastByte(data[n..]);
    } else if |data| > 1 {
      LastByte(data[1..]);
    }
  }

  lemma CompressInjective(x: seq<byte>, y: seq<byte>)
    ensures Compress(x) == Compress(y) <==> x == y
  {
    RoundTrip(x);
    RoundTrip(y);
  }

  // ---------- which compressed form ----------

  lemma ZeroRunOfZeros(k: nat, rest: seq<byte>, max: nat)
    requires rest == [] || rest[0] != 0
    ensures ZeroRun(Zeros(k) + rest, max) == if k < max then k else max
  {
    var data := Zeros(k) + rest;
    assert forall i :: 0 <= i < k ==> data[i] == 0;
    ZeroRunIs(data, max, if k < max then k else max);
  }

  lemma {:induction false} ZerosSplit(n: nat, k: nat)
    ensures Zeros(n + k) == Zeros(n) + Zeros(k)
  {
    if n > 0 { ZerosSplit(n - 1, k); }
  }

  /** The whole of the compressed form: a byte that is not zero stands for itself, a run of up
      to 250 zeros is a zero and its length, and of a longer run 250 are taken first. */
  lemma Canonical(b: byte, k: nat, rest: seq<byte>)
    requires rest == [] || rest[0] != 0
    ensures Compress([]) == []
    ensures b != 0 ==> Compress([b] + rest) == [b] + Compress(rest)
    ensures 0 < k <= 250 ==> Compress(Zeros(k) + rest) == [0, k] + Compress(rest)
    ensures k > 250 ==> Compress(Zeros(k) + rest) == [0, 250] + Compress(Zeros(k - 250) + rest)
  {
    assert ([b] + rest)[1..] == rest;
    if k > 0 {
      var data := Zeros(k) + rest;
      ZeroRunOfZeros(k, rest, 250);
      assert data[0] == 0;
      if k <= 250 {
        assert data[k..] == rest;
      } else {
        ZerosSplit(250, k - 250);
        assert data == Zeros(250) + (Zeros(k - 250) + rest);
        assert data[250..] == Zeros(k - 250) + rest;
      }
    }
  }

  /** Counts from 1 to 250 only. */
  predicate Counted(e: seq<byte>) {
    if e == [] then true
    else if e[0] != 0 then Counted(e[1..])
    else |e| > 1 && 1 <= e[1] <= 250 && Counted(e[2..])
  }

  lemma {:induction false} CompressCounted(data: seq<byte>)
    ensures Counted(Compress(data))
    decreases |data|
  {
    if data == [] {
    } else if data[0] == 0 {
      var n := ZeroRun(data, 250);
      CompressCounted(data[n..]);
      assert ([0, n] + Compress(data[n..]))[2..] == Compress(data[n..]);
    } else {
      CompressCounted(data[1..]);
      assert ([data[0]] + Compress(data[1..]))[1..] == Compress(data[1..]);
    }
  }

  /** Taking fewer zeros than there are never helps: what is left compresses no shorter. */
  lemma MoreZerosNoShorter(n: nat, rest: seq<byte>)
    requires 0 < n <= 250
    ensures |Compress(rest)| <= |Compress(Zeros(n) + rest)| <= |Compress(rest)| + 2
  {
    hide Compress, Zeros, ZeroRun;
    var m := ZeroRun(rest, |rest|);
    var tail := rest[m..];
    ZerosAre(rest, m);
    assert rest == Zeros(m) + tail;
    ZerosSplit(n, m);
    Assoc(Zeros(n), Zeros(m), tail);
    ManyZeros(m, tail);
    ManyZeros(n + m, tail);
    MoreTwoFifties(m, n);
  }

  lemma MoreTwoFifties(m: nat, n: nat)
    requires 0 < n <= 250
    ensures (m + 249) / 250 <= (n + m + 249) / 250 <= (m + 249) / 250 + 1
  {
  }

  lemma ZerosAre(rest: seq<byte>, m: nat)
    requires m <= |rest| && forall i :: 0 <= i < m ==> rest[i] == 0
    ensures rest[..m] == Zeros(m)
  {
  }

  /** A run of k zeros takes two bytes for every 250 of them, and two for what is left. */
  lemma {:induction false} ManyZeros(k: nat, rest: seq<byte>)
    requires rest == [] || rest[0] != 0
    ensures |Compress(Zeros(k) + rest)| == 2 * ((k + 249) / 250) + |Compress(rest)|
  {
    hide Compress, Zeros;
    if k == 0 {
      assert |Zeros(0)| == 0;
      assert Zeros(0) + rest == rest;
    } else {
      Canonical(1, k, rest);
      if k > 250 { ManyZeros(k - 250, rest); }
    }
  }

  /** No way of writing the same data with such counts is shorter. */
  lemma {:induction false} Shortest(e: seq<byte>)
    requires Counted(e)
    ensures |Compress(Expand(e))| <= |e|
    decreases |e|
  {
    if e == [] {
    } else if e[0] != 0 {
      Shortest(e[1..]);
      assert ([e[0]] + Expand(e[1..]))[1..] == Expand(e[1..]);
    } else {
      Shortest(e[2..]);
      MoreZerosNoShorter(e[1], Expand(e[2..]));
    }
  }
}
