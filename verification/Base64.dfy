/** Base64 as Go's encoding/base64 does it (sections 4 and 5 of RFC 4648): the standard
    and the URL alphabet, with padding or without, not strict about trailing bits, and
    skipping line breaks when decoding. */
module Base64 {
  import opened Bytes

  datatype Alphabet = Standard | UrlSafe

  datatype DecodeError = CorruptInput

  function Symbol(a: Alphabet, v: int): char
    requires 0 <= v < 64
  {
    if v < 26 then ('A' as int + v) as char
    else if v < 52 then ('a' as int + v - 26) as char
    else if v < 62 then ('0' as int + v - 52) as char
    else match a
      case Standard => if v == 62 then '+' else '/'
      case UrlSafe => if v == 62 then '-' else '_'
  }

  function Value(a: Alphabet, c: char): (r: Option<int>)
    ensures r.Some? ==> 0 <= r.value < 64
  {
    if 'A' <= c <= 'Z' then Some(c as int - 'A' as int)
    else if 'a' <= c <= 'z' then Some(c as int - 'a' as int + 26)
    else if '0' <= c <= '9' then Some(c as int - '0' as int + 52)
    else match a
      case Standard => if c == '+' then Some(62) else if c == '/' then Some(63) else None
      case UrlSafe => if c == '-' then Some(62) else if c == '_' then Some(63) else None
  }

  /** The four symbols of a full group. */
  function Group(a: Alphabet, x: byte, y: byte, z: byte): string {
    [Symbol(a, x / 4), Symbol(a, x % 4 * 16 + y / 16), Symbol(a, y % 16 * 4 + z / 64), Symbol(a, z % 64)]
  }

  function Encode(a: Alphabet, data: seq<byte>): string {
    if data == [] then ""
    else if |data| == 1 then [Symbol(a, data[0] / 4), Symbol(a, data[0] % 4 * 16)]
    else if |data| == 2 then
      [Symbol(a, data[0] / 4), Symbol(a, data[0] % 4 * 16 + data[1] / 16), Symbol(a, data[1] % 16 * 4)]
    else Group(a, data[0], data[1], data[2]) + Encode(a, data[3..])
  }

  function Pad(s: string): string {
    if |s| % 4 == 2 then s + "==" else if |s| % 4 == 3 then s + "=" else s
  }

  function SkipBreaks(s: string): string {
    if s == "" then "" else if s[0] == '\n' || s[0] == '\r' then SkipBreaks(s[1..]) else [s[0]] + SkipBreaks(s[1..])
  }

  function OneByte(a: int, b: int): byte
    requires 0 <= a < 64 && 0 <= b < 64
  {
    a * 4 + b / 16
  }

  function TwoBytes(a: int, b: int, c: int): seq<byte>
    requires 0 <= a < 64 && 0 <= b < 64 && 0 <= c < 64
  {
    [OneByte(a, b), b % 16 * 16 + c / 4]
  }

  function ThreeBytes(a: int, b: int, c: int, d: int): seq<byte>
    requires 0 <= a < 64 && 0 <= b < 64 && 0 <= c < 64 && 0 <= d < 64
  {
    TwoBytes(a, b, c) + [c % 4 * 64 + d]
  }

  /** The last group: one or two bytes. */
  function DecodeLast(al: Alphabet, padded: bool, s: string): Result<seq<byte>, DecodeError> {
    var full := if padded then 4 else |s|;
    if |s| != full || |s| < 2 || |s| > 4 then Err(CorruptInput)
    else
      var a, b := Value(al, s[0]), Value(al, s[1]);
      if a.None? || b.None? then Err(CorruptInput)
      else if s[2..] == (if padded then "==" else "") then Ok([OneByte(a.value, b.value)])
      else if |s| > 2 && Value(al, s[2]).Some? && s[3..] == (if padded then "=" else "") then
        Ok(TwoBytes(a.value, b.value, Value(al, s[2]).value))
      else Err(CorruptInput)
  }

  function DecodeGroups(al: Alphabet, padded: bool, s: string): Result<seq<byte>, DecodeError> {
    if s == "" then Ok([])
    else if |s| >= 4 && Value(al, s[0]).Some? && Value(al, s[1]).Some?
         && Value(al, s[2]).Some? && Value(al, s[3]).Some? then
      var rest := DecodeGroups(al, padded, s[4..]);
      if rest.Err? then rest
      else Ok(ThreeBytes(Value(al, s[0]).value, Value(al, s[1]).value,
                         Value(al, s[2]).value, Value(al, s[3]).value) + rest.value)
    else DecodeLast(al, padded, s)
  }

  function Decode(al: Alphabet, padded: bool, s: string): Result<seq<byte>, DecodeError> {
    DecodeGroups(al, padded, SkipBreaks(s))
  }

  lemma ValueOfSymbol(a: Alphabet, v: int)
    requires 0 <= v < 64
    ensures Value(a, Symbol(a, v)) == Some(v)
    ensures Symbol(a, v) !in {'\n', '\r', '='}
  {
  }

  lemma {:induction false} NoBreaks(s: string)
    requires forall i :: 0 <= i < |s| ==> s[i] != '\n' && s[i] != '\r'
    ensures SkipBreaks(s) == s
  {
    if s != "" { NoBreaks(s[1..]); }
  }

  lemma {:induction false} EncodedSymbols(a: Alphabet, data: seq<byte>)
    ensures forall i :: 0 <= i < |Encode(a, data)| ==> Encode(a, data)[i] !in {'\n', '\r', '='}
  {
    hide Symbol;
    forall v | 0 <= v < 64 ensures Symbol(a, v) !in {'\n', '\r', '='} { ValueOfSymbol(a, v); }
    if |data| >= 3 { EncodedSymbols(a, data[3..]); }
  }

  /** The bits of up to three bytes, cut into sixes and put together again. */
  lemma Regroup(x: byte, y: byte, z: byte)
    ensures OneByte(x / 4, x % 4 * 16 + y / 16) == x
    ensures (x % 4 * 16 + y / 16) % 16 * 16 + (y % 16 * 4 + z / 64) / 4 == y
    ensures (y % 16 * 4 + z / 64) % 4 * 64 + z % 64 == z
  {
    assert (x % 4 * 16 + y / 16) / 16 == x % 4;
    assert (x % 4 * 16 + y / 16) % 16 == y / 16;
    assert (y % 16 * 4 + z / 64) / 4 == y % 16;
    assert (y % 16 * 4 + z / 64) % 4 == z / 64;
  }

  lemma OneRoundTrip(a: Alphabet, padded: bool, x: byte)
    ensures DecodeLast(a, padded, if padded then Pad(Encode(a, [x])) else Encode(a, [x])) == Ok([x])
  {
    hide Symbol, Value;
    Regroup(x, 0, 0);
    ValueOfSymbol(a, x / 4);
    ValueOfSymbol(a, x % 4 * 16);
    var e := Encode(a, [x]);
    assert |e| == 2;
    var s := if padded then Pad(e) else e;
    assert s[0] == e[0] && s[1] == e[1];
    assert s[2..] == (if padded then "==" else "");
    assert OneByte(x / 4, x % 4 * 16) == x;
  }

  lemma TwoRoundTrip(a: Alphabet, padded: bool, x: byte, y: byte)
    ensures DecodeLast(a, padded, if padded then Pad(Encode(a, [x, y])) else Encode(a, [x, y])) == Ok([x, y])
  {
    hide Symbol, Value, OneByte;
    Regroup(x, y, 0);
    ValueOfSymbol(a, x / 4);
    ValueOfSymbol(a, x % 4 * 16 + y / 16);
    ValueOfSymbol(a, y % 16 * 4);
    var e := Encode(a, [x, y]);
    assert e == [Symbol(a, x / 4), Symbol(a, x % 4 * 16 + y / 16), Symbol(a, y % 16 * 4)];
    var s := if padded then Pad(e) else e;
    assert s[0] == e[0] && s[1] == e[1] && s[2] == e[2];
    assert s[2..] != (if padded then "==" else "") by { assert s[2..][0] == e[2]; }
    assert s[3..] == (if padded then "=" else "");
    assert TwoBytes(x / 4, x % 4 * 16 + y / 16, y % 16 * 4) == [x, y];
  }

  lemma GroupIs(a: Alphabet, x: byte, y: byte, z: byte)
    ensures var e := Group(a, x, y, z);
            (forall i :: 0 <= i < 4 ==> Value(a, e[i]).Some?)
            && ThreeBytes(Value(a, e[0]).value, Value(a, e[1]).value, Value(a, e[2]).value, Value(a, e[3]).value)
                 == [x, y, z]
  {
    hide Symbol, Value;
    Regroup(x, y, z);
    ValueOfSymbol(a, x / 4);
    ValueOfSymbol(a, x % 4 * 16 + y / 16);
    ValueOfSymbol(a, y % 16 * 4 + z / 64);
    ValueOfSymbol(a, z % 64);
  }

  lemma GroupStep(al: Alphabet, padded: bool, x: byte, y: byte, z: byte, rest: string)
    requires DecodeGroups(al, padded, rest).Ok?
    ensures DecodeGroups(al, padded, Group(al, x, y, z) + rest) == Ok([x, y, z] + DecodeGroups(al, padded, rest).value)
  {
    hide Symbol;
    GroupIs(al, x, y, z);
    var s := Group(al, x, y, z) + rest;
    assert s[..4] == Group(al, x, y, z) && s[4..] == rest;
  }

  lemma PadStep(e: string, rest: string)
    requires |e| == 4
    ensures Pad(e + rest) == e + Pad(rest)
  {
  }

  lemma ShortRoundTrip(a: Alphabet, padded: bool, data: seq<byte>)
    requires |data| <= 2
    ensures DecodeGroups(a, padded, if padded then Pad(Encode(a, data)) else Encode(a, data)) == Ok(data)
  {
    var s := if padded then Pad(Encode(a, data)) else Encode(a, data);
    if |data| == 1 {
      OneRoundTrip(a, padded, data[0]);
      assert data == [data[0]];
    } else if |data| == 2 {
      TwoRoundTrip(a, padded, data[0], data[1]);
      assert data == [data[0], data[1]];
    }
    assert |s| >= 4 ==> Value(a, s[3]).None?;
  }

  lemma {:induction false} GroupsRoundTrip(a: Alphabet, padded: bool, data: seq<byte>)
    ensures DecodeGroups(a, padded, if padded then Pad(Encode(a, data)) else Encode(a, data)) == Ok(data)
  {
    hide DecodeGroups, Symbol, Value;
    if |data| <= 2 {
      ShortRoundTrip(a, padded, data);
    } else {
      var rest := Encode(a, data[3..]);
      GroupsRoundTrip(a, padded, data[3..]);
      PadStep(Group(a, data[0], data[1], data[2]), rest);
      GroupStep(a, padded, data[0], data[1], data[2], if padded then Pad(rest) else rest);
      assert data == [data[0], data[1], data[2]] + data[3..];
    }
  }

  /** Decoding inverts encoding, with padding and without. */
  lemma RoundTrip(a: Alphabet, padded: bool, data: seq<byte>)
    ensures Decode(a, padded, if padded then Pad(Encode(a, data)) else Encode(a, data)) == Ok(data)
  {
    EncodedSymbols(a, data);
    NoBreaks(if padded then Pad(Encode(a, data)) else Encode(a, data));
    GroupsRoundTrip(a, padded, data);
  }

  lemma EncodeInjective(a: Alphabet, x: seq<byte>, y: seq<byte>)
    ensures Encode(a, x) == Encode(a, y) <==> x == y
  {
    RoundTrip(a, false, x);
    RoundTrip(a, false, y);
  }

  // ---------- the tables and the bits ----------

  const LETTERS := "ABCDEFGHIJKLMNOPQRSTUVWXYZ"
  const SMALL_LETTERS := "abcdefghijklmnopqrstuvwxyz"

  /** The alphabets of sections 4 and 5 of RFC 4648. */
  function Table(a: Alphabet): (t: string)
    ensures |t| == 64
  {
    assert |LETTERS| == 26 && |SMALL_LETTERS| == 26;
    LETTERS + SMALL_LETTERS + "0123456789" + match a case Standard => "+/" case UrlSafe => "-_"
  }

  lemma SymbolInTable(a: Alphabet, v: int)
    requires 0 <= v < 64
    ensures Symbol(a, v) == Table(a)[v]
  {
    if v < 26 {
      assert Symbol(a, v) == LETTERS[v];
    } else if v < 52 {
      assert Symbol(a, v) == SMALL_LETTERS[v - 26];
    } else if v < 62 {
      assert Symbol(a, v) == "0123456789"[v - 52];
    }
  }

  /** Three bytes as one number of 24 bits, in sixes. */
  lemma Sixes(x: byte, y: byte, z: byte)
    ensures var n := x * 0x1_0000 + y * 0x100 + z;
            && n / 0x4_0000 == x / 4 && n / 0x1000 % 64 == x % 4 * 16 + y / 16
            && n / 64 % 64 == y % 16 * 4 + z / 64 && n % 64 == z % 64
  {
    SixesOf(x / 4, x % 4, y / 16, y % 16, z / 64, z % 64);
  }

  lemma By64(q: nat, r: nat)
    requires r < 64
    ensures (64 * q + r) / 64 == q && (64 * q + r) % 64 == r
  {
  }

  lemma By4096(q: nat, r: nat)
    requires r < 0x1000
    ensures (0x1000 * q + r) / 0x1000 == q
  {
  }

  lemma By18Bits(q: nat, r: nat)
    requires r < 0x4_0000
    ensures (0x4_0000 * q + r) / 0x4_0000 == q
  {
  }

  lemma SixesOf(a: nat, b: nat, c: nat, d: nat, e: nat, f: nat)
    requires b < 4 && c < 16 && d < 16 && e < 4 && f < 64
    ensures var n := (4 * a + b) * 0x1_0000 + (16 * c + d) * 0x100 + (64 * e + f);
            && n / 0x4_0000 == a && n / 0x1000 % 64 == 16 * b + c && n / 64 % 64 == 4 * d + e && n % 64 == f
  {
    var q := 64 * a + (16 * b + c);
    By18Bits(a, b * 0x1_0000 + (16 * c + d) * 0x100 + (64 * e + f));
    By4096(q, d * 0x100 + (64 * e + f));
    By64(64 * q + (4 * d + e), f);
    By64(a, 16 * b + c);
    By64(q, 4 * d + e);
  }

  lemma FullBits(a: Alphabet, x: byte, y: byte, z: byte, rest: seq<byte>)
    ensures var n, t := x * 0x1_0000 + y * 0x100 + z, Table(a);
            Encode(a, [x, y, z] + rest)
            == [t[n / 0x4_0000], t[n / 0x1000 % 64], t[n / 64 % 64], t[n % 64]] + Encode(a, rest)
  {
    hide Symbol, Table;
    Sixes(x, y, z);
    SymbolInTable(a, x / 4);
    SymbolInTable(a, x % 4 * 16 + y / 16);
    SymbolInTable(a, y % 16 * 4 + z / 64);
    SymbolInTable(a, z % 64);
    var s := [x, y, z] + rest;
    assert s[0] == x && s[1] == y && s[2] == z && s[3..] == rest;
  }

  lemma TailBits(a: Alphabet, x: byte, y: byte)
    ensures var n, t := x * 0x1_0000 + y * 0x100, Table(a);
            Encode(a, [x, y]) == [t[n / 0x4_0000], t[n / 0x1000 % 64], t[n / 64 % 64]]
    ensures var n, t := x * 0x1_0000, Table(a); Encode(a, [x]) == [t[n / 0x4_0000], t[n / 0x1000 % 64]]
  {
    hide Symbol, Table;
    Sixes(x, y, 0);
    Sixes(x, 0, 0);
    SymbolInTable(a, x / 4);
    SymbolInTable(a, x % 4 * 16 + y / 16);
    SymbolInTable(a, y % 16 * 4);
    SymbolInTable(a, x % 4 * 16);
  }

  /** What encoding writes: each three bytes are four symbols of the table, by the sixes of
      their 24 bits; the last one or two are two or three, as if zeros followed. */
  lemma EncodeBits(a: Alphabet, x: byte, y: byte, z: byte, rest: seq<byte>)
    ensures var n, t := x * 0x1_0000 + y * 0x100 + z, Table(a);
            Encode(a, [x, y, z] + rest)
            == [t[n / 0x4_0000], t[n / 0x1000 % 64], t[n / 64 % 64], t[n % 64]] + Encode(a, rest)
    ensures var n, t := x * 0x1_0000 + y * 0x100, Table(a);
            Encode(a, [x, y]) == [t[n / 0x4_0000], t[n / 0x1000 % 64], t[n / 64 % 64]]
    ensures var n, t := x * 0x1_0000, Table(a); Encode(a, [x]) == [t[n / 0x4_0000], t[n / 0x1000 % 64]]
    ensures Encode(a, []) == ""
  {
    hide Encode, Table;
    FullBits(a, x, y, z, rest);
    TailBits(a, x, y);
    NothingEncoded(a);
  }

  lemma NothingEncoded(a: Alphabet)
    ensures Encode(a, []) == ""
  {
  }

  // ---------- what can be decoded ----------

  predicate IsSymbol(a: Alphabet, c: char) { c in Table(a) }

  predicate InTable(a: Alphabet, s: string) { forall i :: 0 <= i < |s| ==> IsSymbol(a, s[i]) }

  /** Symbols only, not one more than whole groups; or with padding, groups of four of which
      the last may end in one or two '='. */
  predicate WellFormed(a: Alphabet, padded: bool, s: string) {
    if padded then
      && |s| % 4 == 0
      && (|| InTable(a, s)
          || (|s| >= 4 && s[|s| - 1] == '=' && InTable(a, s[..|s| - 1]))
          || (|s| >= 4 && s[|s| - 2..] == "==" && InTable(a, s[..|s| - 2])))
    else |s| % 4 != 1 && InTable(a, s)
  }

  lemma ValueInTable(a: Alphabet, c: char)
    ensures Value(a, c).Some? <==> IsSymbol(a, c)
  {
    if Value(a, c).Some? {
      SymbolInTable(a, Value(a, c).value);
    }
    if c in Table(a) {
      var v :| 0 <= v < 64 && Table(a)[v] == c;
      SymbolInTable(a, v);
      ValueOfSymbol(a, v);
    }
  }

  lemma PadNotInTable(a: Alphabet)
    ensures !IsSymbol(a, '=')
  {
    ValueInTable(a, '=');
  }

  lemma LastUnpadded(a: Alphabet, s: string)
    requires s != "" && !(|s| >= 4 && InTable(a, s[..4]))
    ensures DecodeLast(a, false, s).Ok? <==> |s| <= 4 && WellFormed(a, false, s)
  {
    hide IsSymbol, Value, OneByte, TwoBytes;
    PadNotInTable(a);
    forall i | 0 <= i < |s| ensures Value(a, s[i]).Some? <==> IsSymbol(a, s[i]) { ValueInTable(a, s[i]); }
    if |s| == 4 { assert s[..4] == s; }
  }

  lemma LastPadded(a: Alphabet, s: string)
    requires |s| == 4 && !InTable(a, s)
    ensures DecodeLast(a, true, s).Ok? <==> WellFormed(a, true, s)
  {
    hide IsSymbol, Value, OneByte, TwoBytes;
    PadNotInTable(a);
    forall i | 0 <= i < |s| ensures Value(a, s[i]).Some? <==> IsSymbol(a, s[i]) { ValueInTable(a, s[i]); }
    assert s[2..] == [s[2], s[3]] && s[3..] == [s[3]];
    assert InTable(a, s[..3]) <==> IsSymbol(a, s[0]) && IsSymbol(a, s[1]) && IsSymbol(a, s[2]);
    assert InTable(a, s[..2]) <==> IsSymbol(a, s[0]) && IsSymbol(a, s[1]);
  }

  lemma LastDecodes(a: Alphabet, padded: bool, s: string)
    requires s != "" && !(|s| >= 4 && InTable(a, s[..4]))
    ensures DecodeLast(a, padded, s).Ok? <==> |s| <= 4 && WellFormed(a, padded, s)
  {
    hide InTable;
    if !padded {
      LastUnpadded(a, s);
    } else if |s| == 4 {
      assert s[..4] == s;
      LastPadded(a, s);
    }
  }

  /** A string can be decoded exactly if it is well-formed; the bits left over are not looked at. */
  lemma {:induction false} GroupsDecode(a: Alphabet, padded: bool, s: string)
    ensures DecodeGroups(a, padded, s).Ok? <==> WellFormed(a, padded, s)
  {
    hide IsSymbol, Value, DecodeLast;
    if s != "" {
      forall i | 0 <= i < |s| ensures Value(a, s[i]).Some? <==> IsSymbol(a, s[i]) { ValueInTable(a, s[i]); }
      if |s| >= 4 && InTable(a, s[..4]) {
        GroupsDecode(a, padded, s[4..]);
        WellFormedTail(a, padded, s);
      } else {
        LastDecodes(a, padded, s);
        if |s| > 4 { NotWellFormed(a, padded, s); }
      }
    }
  }

  lemma WellFormedTail(a: Alphabet, padded: bool, s: string)
    requires |s| >= 4 && InTable(a, s[..4])
    ensures WellFormed(a, padded, s) <==> WellFormed(a, padded, s[4..])
  {
    hide IsSymbol;
    PadNotInTable(a);
    assert s[3] == s[..4][3];
    forall n | 4 <= n <= |s| ensures InTable(a, s[..n]) <==> InTable(a, s[4..][..n - 4]) {
      assert s[..n] == s[..4] + s[4..][..n - 4];
    }
    assert s[..|s|] == s && s[4..][..|s| - 4] == s[4..];
    if |s| >= 8 { assert s[|s| - 2..] == s[4..][|s| - 6..]; }
  }

  lemma NotWellFormed(a: Alphabet, padded: bool, s: string)
    requires |s| > 4 && !InTable(a, s[..4])
    ensures !WellFormed(a, padded, s)
  {
  }

  /** Line breaks count for nothing, wherever they stand. */
  lemma {:induction false} BreakIgnored(a: Alphabet, padded: bool, s: string, c: char, t: string)
    requires c == '\n' || c == '\r'
    ensures SkipBreaks(s + [c] + t) == SkipBreaks(s + t)
    ensures Decode(a, padded, s + [c] + t) == Decode(a, padded, s + t)
  {
    if s == "" {
      assert s + [c] + t == [c] + t && s + t == t;
    } else {
      BreakIgnored(a, padded, s[1..], c, t);
      assert (s + [c] + t)[1..] == s[1..] + [c] + t && (s + t)[1..] == s[1..] + t;
    }
  }

  /** Without them, exactly the well-formed strings can be decoded. */
  lemma DecodesIff(a: Alphabet, padded: bool, s: string)
    requires forall i :: 0 <= i < |s| ==> s[i] != '\n' && s[i] != '\r'
    ensures Decode(a, padded, s).Ok? <==> WellFormed(a, padded, s)
  {
    NoBreaks(s);
    GroupsDecode(a, padded, s);
  }
}
