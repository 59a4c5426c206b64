/** inline_message_id strings (internal/convert/inline.go, lines 429-551). */
module InlineId {
  import opened Bytes
  import opened Wire
  import Base64

  /** InputBotInlineMessageIDClass: nothing, the old 32-bit form, the 64-bit form. */
  datatype MessageID =
    | Absent
    | Short(dcID: int, id: int, accessHash: int)
    | Long(dcID: int, ownerID: int, id: int, accessHash: int)

  datatype ParseError = Required | BadBase64 | TooShort | Unsupported

  predicate Valid(m: MessageID) {
    && (m.Short? ==> IsInt32(m.dcID) && IsInt32(m.id) && IsInt64(m.accessHash))
    && (m.Long? ==> IsInt32(m.dcID) && IsInt64(m.ownerID) && IsInt32(m.id) && IsInt64(m.accessHash))
  }

  function Pack(m: MessageID): seq<byte> {
    match m
    case Absent => []
    case Short(dc, id, hash) => U32(dc) + (U32(id) + I64(hash))
    case Long(dc, owner, id, hash) => U32(dc) + (I64(owner) + (U32(id) + I64(hash)))
  }

  function FromTL(m: MessageID): string { Base64.Encode(Base64.UrlSafe, Pack(m)) }

  function Replace(s: string, from: char, to: char): string {
    seq(|s|, i requires 0 <= i < |s| => if s[i] == from then to else s[i])
  }

  /** decodeInlineMessageID: to the standard alphabet, padded by length. */
  function DecodeString(s: string): Result<seq<byte>, Base64.DecodeError> {
    Base64.Decode(Base64.Standard, true, Base64.Pad(Replace(Replace(s, '-', '+'), '_', '/')))
  }

  /** Four or eight bytes put together by shifting; bits do not overlap, so or is sum. */
  function Word(data: seq<byte>, i: nat): nat
    requires i + 4 <= |data|
  {
    var a: nat, b: nat, c: nat, d: nat := data[i], data[i + 1], data[i + 2], data[i + 3];
    a + b * 0x100 + c * 0x1_0000 + d * TWO_24
  }

  /** parseInlineMessageID */
  function Parse(data: seq<byte>): Result<MessageID, ParseError> {
    if |data| < 16 then Err(TooShort)
    else if |data| >= 24 then
      Ok(Long(ToInt32(Word(data, 0)), ToInt64(Word(data, 4) + Word(data, 8) * TWO_32),
              ToInt32(Word(data, 12)), ToInt64(Word(data, 16) + Word(data, 20) * TWO_32)))
    else Err(Unsupported)
  }

  /** InlineMessageIDFromStr */
  function FromStr(s: string): Result<MessageID, ParseError> {
    if s == "" then Err(Required)
    else
      var data := DecodeString(s);
      if data.Err? then Err(BadBase64) else Parse(data.value)
  }

  // ---------- packing byte by byte ----------

  /** v >> 8k, rounding down. */
  function Shift(v: int, k: nat): int
    decreases k
  {
    if k == 0 then v else Shift(v / 256, k - 1)
  }

  /** byte(v >> 8k) of a two's-complement integer. */
  function ShiftedByte(v: int, k: nat): byte { Shift(v, k) % 256 }

  lemma {:induction false} ByteOfWord(v: nat, n: nat, k: nat)
    requires k < n
    ensures LittleEndian(v, n)[k] == ShiftedByte(v, k)
  {
    if k > 0 { ByteOfWord(v / 256, n - 1, k - 1); }
  }

  lemma Multiple(d: int, k: int)
    requires d > 0 && k > 0
    ensures d * k >= d
  {
  }

  lemma RemainderIs(v: int, d: int, q: int, r: int)
    requires d > 0 && v == d * q + r && 0 <= r < d
    ensures v % d == r
  {
    var q', r' := v / d, v % d;
    assert v == d * q' + r';
    assert d * (q - q') == d * q - d * q' && d * (q' - q) == d * q' - d * q;
    if q > q' { Multiple(d, q - q'); }
    if q < q' { Multiple(d, q' - q); }
  }

  lemma ModuloStep(v: int, p: int)
    requires p > 0
    ensures (v % (256 * p)) % 256 == v % 256
    ensures (v % (256 * p)) / 256 == (v / 256) % p
  {
    var d := 256 * p;
    var q, m := v / d, v % d;
    assert d * q == 256 * (p * q);
    assert v / 256 == p * q + m / 256;
    RemainderIs(v / 256, p, q, m / 256);
  }

  /** Reducing modulo a power of 256 above it changes no byte. */
  lemma {:induction false} ByteModulo(v: int, n: nat, k: nat)
    requires k < n
    ensures Pow256(n) > 0 && ShiftedByte(v % Pow256(n), k) == ShiftedByte(v, k)
    decreases n
  {
    PowPositive(n - 1);
    ModuloStep(v, Pow256(n - 1));
    if k > 0 { ByteModulo(v / 256, n - 1, k - 1); }
  }

  lemma {:induction false} PowPositive(n: nat)
    ensures Pow256(n) > 0
  {
    if n > 0 { PowPositive(n - 1); }
  }

  lemma PackedBytes(v: int, k: nat)
    ensures k < 4 ==> U32(v)[k] == ShiftedByte(v, k)
    ensures k < 8 ==> I64(v)[k] == ShiftedByte(v, k)
  {
    Widths();
    if k < 4 {
      ByteOfWord(v % TWO_32, 4, k);
      ByteModulo(v, 4, k);
    }
    if k < 8 {
      ByteOfWord(v % TWO_64, 8, k);
      ByteModulo(v, 8, k);
    }
  }

  function Field(v: int, n: nat): (w: seq<byte>)
    requires n == 4 || n == 8
    ensures |w| == n
  {
    if n == 4 then U32(v) else I64(v)
  }

  /** One field written at its place in the array. */
  method Fill(buf: array<byte>, at: nat, v: int, n: nat)
    requires (n == 4 || n == 8) && at + n <= buf.Length
    modifies buf
    ensures buf[..] == old(buf[..at]) + Field(v, n) + old(buf[at + n..])
  {
    ghost var word, before := Field(v, n), buf[..];
    hide Field, ShiftedByte;
    for k := 0 to n
      invariant forall j :: 0 <= j < at ==> buf[j] == before[j]
      invariant forall j :: at <= j < at + k ==> buf[j] == word[j - at]
      invariant forall j :: at + n <= j < buf.Length ==> buf[j] == before[j]
    {
      FieldByte(v, n, k);
      buf[at + k] := ShiftedByte(v, k);
    }
    Placed(before, buf[..], at, word);
  }

  lemma Placed(before: seq<byte>, after: seq<byte>, at: nat, word: seq<byte>)
    requires |before| == |after| && at + |word| <= |before|
    requires forall j :: 0 <= j < at ==> after[j] == before[j]
    requires forall j :: at <= j < at + |word| ==> after[j] == word[j - at]
    requires forall j :: at + |word| <= j < |after| ==> after[j] == before[j]
    ensures after == before[..at] + word + before[at + |word|..]
  {
    var n := |word|;
    assert after[..at] == before[..at] && after[at..at + n] == word && after[at + n..] == before[at + n..];
    assert after == after[..at] + after[at..at + n] + after[at + n..];
  }

  lemma FieldByte(v: int, n: nat, k: nat)
    requires (n == 4 || n == 8) && k < n
    ensures Field(v, n)[k] == ShiftedByte(v, k)
  {
    PackedBytes(v, k);
  }

  method PackShort(dcID: int, id: int, accessHash: int) returns (data: seq<byte>)
    ensures data == Pack(Short(dcID, id, accessHash))
  {
    hide U32, I64;
    var buf := new byte[16](_ => 0);
    Fill(buf, 0, dcID, 4);
    Fill(buf, 4, id, 4);
    assert buf[..8] == U32(dcID) + U32(id);
    Fill(buf, 8, accessHash, 8);
    data := buf[..];
    Assoc(U32(dcID), U32(id), I64(accessHash));
  }

  method PackLong(dcID: int, ownerID: int, id: int, accessHash: int) returns (data: seq<byte>)
    ensures data == Pack(Long(dcID, ownerID, id, accessHash))
  {
    hide U32, I64;
    var buf := new byte[24](_ => 0);
    Fill(buf, 0, dcID, 4);
    Fill(buf, 4, ownerID, 8);
    ghost var first := U32(dcID) + I64(ownerID);
    assert buf[..12] == first;
    Fill(buf, 12, id, 4);
    assert buf[..16] == first + U32(id);
    Fill(buf, 16, accessHash, 8);
    data := buf[..];
    assert data == (first + U32(id)) + I64(accessHash);
    Assoc(first, U32(id), I64(accessHash));
    Assoc(U32(dcID), I64(ownerID), U32(id) + I64(accessHash));
  }

  method InlineMessageIDFromTL(m: MessageID) returns (s: string)
    ensures s == FromTL(m)
  {
    match m
    case Absent =>
      s := "";
    case Short(dc, id, hash) =>
      var data := PackShort(dc, id, hash);
      s := Base64.Encode(Base64.UrlSafe, data);
    case Long(dc, owner, id, hash) =>
      var data := PackLong(dc, owner, id, hash);
      s := Base64.Encode(Base64.UrlSafe, data);
  }

  // ---------- round trip ----------

  lemma {:induction false} UrlIsReplacedStandard(data: seq<byte>)
    ensures Replace(Replace(Base64.Encode(Base64.UrlSafe, data), '-', '+'), '_', '/')
            == Base64.Encode(Base64.Standard, data)
  {
    if |data| >= 3 {
      UrlIsReplacedStandard(data[3..]);
    }
  }

  /** Any bytes survive the web-safe alphabet, the missing padding and both again. */
  lemma DecodeEncoded(data: seq<byte>)
    ensures DecodeString(Base64.Encode(Base64.UrlSafe, data)) == Ok(data)
  {
    UrlIsReplacedStandard(data);
    Base64.RoundTrip(Base64.Standard, true, data);
  }

  lemma WordAt(data: seq<byte>, i: nat, v: int)
    requires i + 4 <= |data| && data[i..i + 4] == U32(v)
    ensures Word(data, i) == v % TWO_32
  {
    Widths();
    var w := data[i..i + 4];
    WordBack(v % TWO_32, 4);
    FourBytes(w);
    assert w[4..] == [];
  }

  lemma LongAt(data: seq<byte>, i: nat, v: int)
    requires i + 8 <= |data| && data[i..i + 8] == I64(v)
    ensures Word(data, i) + Word(data, i + 4) * TWO_32 == v % TWO_64
  {
    Widths();
    var w := data[i..i + 8];
    WordBack(v % TWO_64, 8);
    FourBytes(w);
    FourBytes(w[4..]);
    assert w[4..][4..] == [];
  }

  lemma FourBytes(w: seq<byte>)
    requires |w| >= 4
    ensures FromLittleEndian(w) == Word(w, 0) + FromLittleEndian(w[4..]) * TWO_32
  {
    assert w[1..][1..] == w[2..] && w[2..][1..] == w[3..] && w[3..][1..] == w[4..];
    assert FromLittleEndian(w) == w[0] + 256 * FromLittleEndian(w[1..]);
    assert FromLittleEndian(w[1..]) == w[1] + 256 * FromLittleEndian(w[2..]);
    assert FromLittleEndian(w[2..]) == w[2] + 256 * FromLittleEndian(w[3..]);
    assert FromLittleEndian(w[3..]) == w[3] + 256 * FromLittleEndian(w[4..]);
  }

  lemma ParsePacked(m: MessageID)
    requires Valid(m) && m.Long?
    ensures Parse(Pack(m)) == Ok(m)
  {
    hide U32, I64, Word;
    var data := Pack(m);
    assert data[0..4] == U32(m.dcID) && data[4..12] == I64(m.ownerID);
    assert data[12..16] == U32(m.id) && data[16..24] == I64(m.accessHash);
    WordAt(data, 0, m.dcID);
    LongAt(data, 4, m.ownerID);
    WordAt(data, 12, m.id);
    LongAt(data, 16, m.accessHash);
  }

  /** Parsing inverts formatting on the 64-bit form, for every value of every field; the
      old form and an absent id never come back. */
  lemma RoundTrip(m: MessageID)
    requires Valid(m)
    ensures FromStr(FromTL(m)) == match m {
              case Long(_, _, _, _) => Ok(m)
              case Short(_, _, _) => Err(Unsupported)
              case Absent => Err(Required)
            }
  {
    hide DecodeString;
    DecodeEncoded(Pack(m));
    if m.Long? { ParsePacked(m); }
  }

  lemma Injective(m: MessageID, n: MessageID)
    requires Valid(m) && Valid(n) && m.Long? && FromTL(m) == FromTL(n)
    ensures m == n
  {
    hide FromTL, FromStr;
    RoundTrip(m);
    RoundTrip(n);
  }

  /** The strings are web-safe and unpadded, four characters for each three bytes. */
  lemma {:induction false} WrittenWebSafe(data: seq<byte>)
    ensures forall i :: 0 <= i < |Base64.Encode(Base64.UrlSafe, data)| ==>
              Base64.Encode(Base64.UrlSafe, data)[i] !in {'+', '/', '='}
    ensures |Base64.Encode(Base64.UrlSafe, data)| == (4 * |data| + 2) / 3
  {
    if |data| >= 3 { WrittenWebSafe(data[3..]); }
  }

  lemma FormatWebSafe(m: MessageID)
    ensures forall i :: 0 <= i < |FromTL(m)| ==> FromTL(m)[i] !in {'+', '/', '='}
    ensures |FromTL(m)| == match m { case Absent => 0 case Short(_, _, _) => 22 case Long(_, _, _, _) => 32 }
  {
    WrittenWebSafe(Pack(m));
  }

  /** Of any bytes: fewer than sixteen are too short, from sixteen on only twenty-four and more
      are understood. */
  lemma ParseBySize(data: seq<byte>)
    ensures Parse(data) == Err(TooShort) <==> |data| < 16
    ensures Parse(data) == Err(Unsupported) <==> 16 <= |data| < 24
    ensures Parse(data).Ok? <==> |data| >= 24
  {
  }

  /** Byte k of a field is byte(v >> 8k), each field at its place. */
  lemma PackedLong(m: MessageID)
    requires m.Long?
    ensures var b := Pack(m);
            && |b| == 24
            && (forall k :: 0 <= k < 4 ==> b[k] == ShiftedByte(m.dcID, k) && b[12 + k] == ShiftedByte(m.id, k))
            && forall k :: 0 <= k < 8 ==>
                 b[4 + k] == ShiftedByte(m.ownerID, k) && b[16 + k] == ShiftedByte(m.accessHash, k)
  {
    hide ShiftedByte;
    forall v, k { PackedBytes(v, k); }
  }

  lemma PackedShort(m: MessageID)
    requires m.Short?
    ensures var b := Pack(m);
            && |b| == 16
            && (forall k :: 0 <= k < 4 ==> b[k] == ShiftedByte(m.dcID, k) && b[4 + k] == ShiftedByte(m.id, k))
            && forall k :: 0 <= k < 8 ==> b[8 + k] == ShiftedByte(m.accessHash, k)
  {
    hide ShiftedByte;
    forall v, k { PackedBytes(v, k); }
  }
}
