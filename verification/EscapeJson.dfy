/** The ASCII rewriter of internal/response/response.go (lines 74-123), with UTF-8 (RFC
    3629), UTF-16 (section 2.1 of RFC 2781) and JSON escapes (section 7 of RFC 8259). */
module EscapeJson {
  import opened Bytes

  const QUOTE: byte := 0x22
  const BACKSLASH: byte := 0x5C
  const LETTER_U: byte := 0x75
  const RUNE_ERROR := 0xFFFD

  // ---------- UTF-8 ----------

  predicate IsTail(b: byte) { 0x80 <= b < 0xC0 }

  /** The six bits a tail byte carries. */
  function Six(b: byte): int { b - 0x80 }

  predicate TwoBytes(s: seq<byte>) { |s| >= 2 && 0xC2 <= s[0] < 0xE0 && IsTail(s[1]) }

  predicate ThreeBytes(s: seq<byte>) {
    && |s| >= 3 && 0xE0 <= s[0] < 0xF0 && IsTail(s[1]) && IsTail(s[2])
    && (s[0] == 0xE0 ==> s[1] >= 0xA0) && (s[0] == 0xED ==> s[1] < 0xA0)
  }

  predicate FourBytes(s: seq<byte>) {
    && |s| >= 4 && 0xF0 <= s[0] < 0xF5 && IsTail(s[1]) && IsTail(s[2]) && IsTail(s[3])
    && (s[0] == 0xF0 ==> s[1] >= 0x90) && (s[0] == 0xF4 ==> s[1] < 0x90)
  }

  /** utf8.DecodeRune: the code point and its size; one byte of malformed input at a time
      reads as the replacement character. */
  function DecodeRune(s: seq<byte>): (r: (int, nat))
    requires s != []
    ensures 1 <= r.1 <= |s|
    ensures IsScalar(r.0)
  {
    var a: int := s[0];
    if a < 0x80 then (a, 1)
    else if TwoBytes(s) then ((a - 0xC0) * 0x40 + Six(s[1]), 2)
    else if ThreeBytes(s) then ((a - 0xE0) * 0x1000 + Six(s[1]) * 0x40 + Six(s[2]), 3)
    else if FourBytes(s) then ((a - 0xF0) * 0x4_0000 + Six(s[1]) * 0x1000 + Six(s[2]) * 0x40 + Six(s[3]), 4)
    else (RUNE_ERROR, 1)
  }

  predicate IsScalar(r: int) { 0 <= r < 0x11_0000 && !(0xD800 <= r < 0xE000) }

  function EncodeRune(r: int): seq<byte>
    requires IsScalar(r)
  {
    if r < 0x80 then [r]
    else if r < 0x800 then [0xC0 + r / 0x40, 0x80 + r % 0x40]
    else if r < 0x1_0000 then [0xE0 + r / 0x1000, 0x80 + r / 0x40 % 0x40, 0x80 + r % 0x40]
    else [0xF0 + r / 0x4_0000, 0x80 + r / 0x1000 % 0x40, 0x80 + r / 0x40 % 0x40, 0x80 + r % 0x40]
  }

  // ---------- UTF-16 and \u escapes ----------

  function Units(r: int): seq<int>
    requires IsScalar(r)
  {
    if r <= 0xFFFF then [r] else [0xD800 + (r - 0x1_0000) / 0x400, 0xDC00 + (r - 0x1_0000) % 0x400]
  }

  predicate IsHigh(u: int) { 0xD800 <= u < 0xDC00 }

  predicate IsLow(u: int) { 0xDC00 <= u < 0xE000 }

  /** UTF-16 units to code points; a surrogate without its partner stays as it is. */
  function Points(u: seq<int>): seq<int> {
    if u == [] then []
    else if |u| > 1 && IsHigh(u[0]) && IsLow(u[1]) then
      [0x1_0000 + (u[0] - 0xD800) * 0x400 + (u[1] - 0xDC00)] + Points(u[2..])
    else [u[0]] + Points(u[1..])
  }

  function HexDigit(d: int): byte
    requires 0 <= d < 16
  {
    if d < 10 then 0x30 + d else 0x61 + d - 10
  }

  predicate IsHex(b: byte) { 0x30 <= b < 0x3A || 0x61 <= b < 0x67 || 0x41 <= b < 0x47 }

  function HexValue(b: byte): (v: int)
    requires IsHex(b)
    ensures 0 <= v < 16
  {
    if b < 0x3A then b - 0x30 else if b >= 0x61 then b - 0x61 + 10 else b - 0x41 + 10
  }

  /** \u and four lower-case digits, as %04x prints them. */
  function UEscape(u: int): (e: seq<byte>)
    requires 0 <= u <= 0xFFFF
    ensures |e| == 6
  {
    [BACKSLASH, LETTER_U, HexDigit(u / 0x1000), HexDigit(u / 0x100 % 16), HexDigit(u / 0x10 % 16), HexDigit(u % 16)]
  }

  function EscapedRune(r: int): seq<byte>
    requires IsScalar(r)
  {
    if r <= 0xFFFF then UEscape(r) else UEscape(Units(r)[0]) + UEscape(Units(r)[1])
  }

  // ---------- the rewriter ----------

  function Escape(inString: bool, s: seq<byte>): seq<byte>
    decreases |s|
  {
    if s == [] then []
    else if !inString then [s[0]] + Escape(s[0] == QUOTE, s[1..])
    else if s[0] == BACKSLASH then if |s| == 1 then [s[0]] else [s[0], s[1]] + Escape(true, s[2..])
    else if s[0] < 0x80 then [s[0]] + Escape(s[0] != QUOTE, s[1..])
    else
      var (r, n) := DecodeRune(s);
      EscapedRune(r) + Escape(true, s[n..])
  }

  lemma EscapeOne(data: seq<byte>, i: nat, inString: bool)
    requires i < |data|
    ensures !inString ==> Escape(false, data[i..]) == [data[i]] + Escape(data[i] == QUOTE, data[i + 1..])
    ensures inString && data[i] == BACKSLASH && i + 1 < |data| ==>
              Escape(true, data[i..]) == [data[i], data[i + 1]] + Escape(true, data[i + 2..])
    ensures inString && data[i] == BACKSLASH && i + 1 == |data| ==> Escape(true, data[i..]) == [data[i]]
    ensures inString && data[i] != BACKSLASH && data[i] < 0x80 ==>
              Escape(true, data[i..]) == [data[i]] + Escape(data[i] != QUOTE, data[i + 1..])
    ensures inString && data[i] >= 0x80 ==>
              var (r, n) := DecodeRune(data[i..]);
              Escape(true, data[i..]) == EscapedRune(r) + Escape(true, data[i + n..])
  {
    var s := data[i..];
    assert s[1..] == data[i + 1..];
    if |s| > 1 { assert s[2..] == data[i + 2..]; }
    var n := DecodeRune(s).1;
    assert s[n..] == data[i + n..];
  }

  method EscapeNonASCII(data: seq<byte>) returns (buf: seq<byte>)
    ensures buf == Escape(false, data)
  {
    hide Escape, EscapedRune, DecodeRune;
    buf := [];
    var inString, i := false, 0;
    assert data[0..] == data;
    while i < |data|
      invariant 0 <= i <= |data| && Escape(false, data) == buf + Escape(inString, data[i..])
    {
      EscapeOne(data, i, inString);
      var b := data[i];
      ghost var before := buf;
      if !inString {
        if b == QUOTE { inString := true; }
        buf, i := buf + [b], i + 1;
        Assoc(before, [b], Escape(inString, data[i..]));
      } else if b == BACKSLASH {
        buf, i := buf + [b], i + 1;
        if i < |data| {
          Assoc(before, [b], [data[i]]);
          buf, i := buf + [data[i]], i + 1;
          Assoc(before, [b, data[i - 1]], Escape(true, data[i..]));
        } else {
          EscapeNothing();
          assert data[i..] == [];
        }
      } else if b < 0x80 {
        if b == QUOTE { inString := false; }
        buf, i := buf + [b], i + 1;
        Assoc(before, [b], Escape(inString, data[i..]));
      } else {
        var (r, size) := DecodeRune(data[i..]);
        buf, i := buf + EscapedRune(r), i + size;
        Assoc(before, EscapedRune(r), Escape(true, data[i..]));
      }
    }
    EscapeNothing();
    assert data[i..] == [];
  }

  lemma EscapeNothing()
    ensures Escape(true, []) == [] && Escape(false, []) == []
  {
  }

  // ---------- reading JSON ----------

  /** What a reader of JSON sees: structure byte by byte, and strings as UTF-16 units and
      two-character escapes. */
  datatype Token = Structure(b: byte) | Unit(u: int) | Escaped(c: byte) | Dangling

  predicate StartsHex(s: seq<byte>, n: nat) { |s| >= n && forall i :: 0 <= i < n ==> IsHex(s[i]) }

  function FourHex(s: seq<byte>): int
    requires StartsHex(s, 4)
  {
    HexValue(s[0]) * 0x1000 + HexValue(s[1]) * 0x100 + HexValue(s[2]) * 0x10 + HexValue(s[3])
  }

  function UnitTokens(u: seq<int>): seq<Token> { seq(|u|, i requires 0 <= i < |u| => Unit(u[i])) }

  function Lex(inString: bool, s: seq<byte>): seq<Token>
    decreases |s|
  {
    if s == [] then []
    else if !inString then [Structure(s[0])] + Lex(s[0] == QUOTE, s[1..])
    else if s[0] == BACKSLASH then
      if |s| == 1 then [Dangling]
      else if s[1] == LETTER_U && StartsHex(s[2..], 4) then [Unit(FourHex(s[2..]))] + Lex(true, s[6..])
      else [Escaped(s[1])] + Lex(true, s[2..])
    else if s[0] == QUOTE then [Structure(s[0])] + Lex(false, s[1..])
    else
      var (r, n) := DecodeRune(s);
      UnitTokens(Units(r)) + Lex(true, s[n..])
  }

  // ---------- characters survive ----------

  lemma TwoBack(r: int, tail: seq<byte>)
    requires 0x80 <= r < 0x800
    ensures DecodeRune(EncodeRune(r) + tail) == (r, 2)
  {
    var e := EncodeRune(r);
    var s := e + tail;
    assert s[0] == e[0] && s[1] == e[1];
    assert TwoBytes(s);
  }

  lemma ThreeBack(r: int, tail: seq<byte>)
    requires 0x800 <= r < 0x1_0000 && IsScalar(r)
    ensures DecodeRune(EncodeRune(r) + tail) == (r, 3)
  {
    var e := EncodeRune(r);
    var s := e + tail;
    assert s[0] == e[0] && s[1] == e[1] && s[2] == e[2];
    assert r == r / 0x1000 * 0x1000 + r / 0x40 % 0x40 * 0x40 + r % 0x40;
    assert ThreeBytes(s);
    assert !TwoBytes(s);
  }

  lemma FourSixes(r: nat)
    ensures r == r / 0x4_0000 * 0x4_0000 + r / 0x1000 % 0x40 * 0x1000 + r / 0x40 % 0x40 * 0x40 + r % 0x40
  {
    var p := r / 0x40;
    var q := p / 0x40;
    assert q == r / 0x1000 && q / 0x40 == r / 0x4_0000;
    assert p == 0x40 * q + p % 0x40 && q == 0x40 * (q / 0x40) + q % 0x40;
  }

  lemma FourBack(r: int, tail: seq<byte>)
    requires 0x1_0000 <= r < 0x11_0000
    ensures DecodeRune(EncodeRune(r) + tail) == (r, 4)
  {
    var e := EncodeRune(r);
    var s := e + tail;
    assert s[0] == e[0] && s[1] == e[1] && s[2] == e[2] && s[3] == e[3];
    FourSixes(r);
    assert FourBytes(s);
    assert !TwoBytes(s) && !ThreeBytes(s);
  }

  /** Decoding inverts encoding, whatever follows. */
  lemma RuneBack(r: int, tail: seq<byte>)
    requires IsScalar(r)
    ensures DecodeRune(EncodeRune(r) + tail) == (r, |EncodeRune(r)|)
  {
    hide DecodeRune;
    if r < 0x80 { OneBack(r, tail); }
    else if r < 0x800 { TwoBack(r, tail); }
    else if r < 0x1_0000 { ThreeBack(r, tail); }
    else { FourBack(r, tail); }
  }

  lemma OneBack(r: int, tail: seq<byte>)
    requires 0 <= r < 0x80
    ensures DecodeRune(EncodeRune(r) + tail) == (r, 1)
  {
  }

  /** Surrogate pairs decode to the character they were made from. */
  lemma UnitsBack(r: int)
    requires IsScalar(r)
    ensures Points(Units(r)) == [r]
  {
    if r > 0xFFFF {
      var v := r - 0x1_0000;
      assert v / 0x400 < 0x400;
      assert Units(r)[2..] == [];
    } else {
      assert Units(r)[1..] == [];
    }
  }

  lemma HexDigitBack(d: int)
    requires 0 <= d < 16
    ensures IsHex(HexDigit(d)) && HexValue(HexDigit(d)) == d
  {
  }

  lemma FourDigits(u: int)
    requires 0 <= u <= 0xFFFF
    ensures u == u / 0x1000 * 0x1000 + u / 0x100 % 16 * 0x100 + u / 0x10 % 16 * 0x10 + u % 16
  {
    var p := u / 16;
    var q := p / 16;
    assert q == u / 0x100 && q / 16 == u / 0x1000;
    assert p == 16 * q + p % 16 && q == 16 * (q / 16) + q % 16;
  }

  lemma FourHexOf(d: seq<byte>, x: int, y: int, z: int, w: int)
    requires 0 <= x < 16 && 0 <= y < 16 && 0 <= z < 16 && 0 <= w < 16
    requires |d| >= 4 && d[0] == HexDigit(x) && d[1] == HexDigit(y) && d[2] == HexDigit(z) && d[3] == HexDigit(w)
    ensures StartsHex(d, 4) && FourHex(d) == x * 0x1000 + y * 0x100 + z * 0x10 + w
  {
    hide HexDigit, HexValue, IsHex;
    HexDigitBack(x);
    HexDigitBack(y);
    HexDigitBack(z);
    HexDigitBack(w);
  }

  lemma DigitsBack(u: int, tail: seq<byte>)
    requires 0 <= u <= 0xFFFF
    ensures var d := UEscape(u)[2..] + tail; StartsHex(d, 4) && FourHex(d) == u
  {
    hide HexDigit, HexValue, FourHex, StartsHex;
    FourDigits(u);
    FourHexOf(UEscape(u)[2..] + tail, u / 0x1000, u / 0x100 % 16, u / 0x10 % 16, u % 16);
  }

  lemma LexHex(s: seq<byte>)
    requires |s| >= 6 && s[0] == BACKSLASH && s[1] == LETTER_U && StartsHex(s[2..], 4)
    ensures Lex(true, s) == [Unit(FourHex(s[2..]))] + Lex(true, s[6..])
  {
  }

  lemma LexUEscape(u: int, tail: seq<byte>)
    requires 0 <= u <= 0xFFFF
    ensures Lex(true, UEscape(u) + tail) == [Unit(u)] + Lex(true, tail)
  {
    hide FourHex;
    var s := UEscape(u) + tail;
    assert s[2..] == UEscape(u)[2..] + tail && s[6..] == tail;
    DigitsBack(u, tail);
    LexHex(s);
  }

  lemma LexEscapedRune(r: int, tail: seq<byte>)
    requires IsScalar(r)
    ensures Lex(true, EscapedRune(r) + tail) == UnitTokens(Units(r)) + Lex(true, tail)
  {
    hide UEscape, Lex;
    if r <= 0xFFFF {
      LexUEscape(r, tail);
      assert UnitTokens(Units(r)) == [Unit(r)];
    } else {
      var hi, lo := Units(r)[0], Units(r)[1];
      LexUEscape(hi, UEscape(lo) + tail);
      LexUEscape(lo, tail);
      Assoc(UEscape(hi), UEscape(lo), tail);
      assert UnitTokens(Units(r)) == [Unit(hi)] + [Unit(lo)];
      Assoc([Unit(hi)], [Unit(lo)], Lex(true, tail));
    }
  }

  // ---------- the reading is unchanged ----------

  /** Escaping neither makes nor breaks a run of hex digits. */
  lemma {:induction false} HexRunKept(s: seq<byte>, n: nat)
    ensures StartsHex(Escape(true, s), n) <==> StartsHex(s, n)
    ensures StartsHex(s, n) ==> Escape(true, s) == s[..n] + Escape(true, s[n..])
    decreases n
  {
    hide Escape;
    var e := Escape(true, s);
    if n == 0 {
      assert s[0..] == s;
    } else if s == [] {
      NothingEscaped();
    } else if IsHex(s[0]) {
      HexRunKept(s[1..], n - 1);
      HexEscaped(s);
      assert e[1..] == Escape(true, s[1..]);
      HexRunStep(s, n);
      HexRunStep(e, n);
      if StartsHex(s, n) {
        assert s[..n] == [s[0]] + s[1..][..n - 1];
        assert s[1..][n - 1..] == s[n..];
      }
    } else {
      FirstNotHex(s);
    }
  }

  lemma NothingEscaped()
    ensures Escape(true, []) == []
  {
  }

  lemma HexEscaped(s: seq<byte>)
    requires s != [] && IsHex(s[0])
    ensures Escape(true, s) == [s[0]] + Escape(true, s[1..])
  {
  }

  lemma HexRunStep(s: seq<byte>, n: nat)
    requires n > 0 && s != [] && IsHex(s[0])
    ensures StartsHex(s, n) <==> StartsHex(s[1..], n - 1)
  {
    if StartsHex(s[1..], n - 1) {
      forall i | 0 <= i < n ensures IsHex(s[i]) { if i > 0 { assert s[i] == s[1..][i - 1]; } }
    }
  }

  lemma FirstNotHex(s: seq<byte>)
    requires s != [] && !IsHex(s[0])
    ensures Escape(true, s) != [] && !IsHex(Escape(true, s)[0])
  {
  }

  lemma LexBackslash(s: seq<byte>)
    requires |s| > 1 && s[0] == BACKSLASH && !(s[1] == LETTER_U && StartsHex(s[2..], 4))
    ensures Lex(true, s) == [Escaped(s[1])] + Lex(true, s[2..])
  {
  }

  lemma EscapeBackslash(s: seq<byte>)
    requires |s| > 1 && s[0] == BACKSLASH
    ensures var e := Escape(true, s); |e| > 1 && e[0] == BACKSLASH && e[1] == s[1] && e[2..] == Escape(true, s[2..])
  {
    assert ([s[0], s[1]] + Escape(true, s[2..]))[2..] == Escape(true, s[2..]);
  }

  lemma LexAfterBackslash(s: seq<byte>)
    requires |s| > 1 && s[0] == BACKSLASH
    requires Lex(true, Escape(true, s[2..])) == Lex(true, s[2..])
    requires |s| >= 6 ==> Lex(true, Escape(true, s[6..])) == Lex(true, s[6..])
    ensures Lex(true, Escape(true, s)) == Lex(true, s)
  {
    hide Lex, Escape, FourHex;
    var rest, e := s[2..], Escape(true, s);
    EscapeBackslash(s);
    HexRunKept(rest, 4);
    if s[1] == LETTER_U && StartsHex(rest, 4) {
      LexHex(s);
      LexHex(e);
      assert rest[4..] == s[6..] && e[6..] == e[2..][4..];
      assert e[2..][4..] == Escape(true, s[6..]);
      SameDigits(e[2..], rest);
    } else {
      LexBackslash(s);
      LexBackslash(e);
    }
  }

  lemma SameDigits(a: seq<byte>, b: seq<byte>)
    requires StartsHex(a, 4) && StartsHex(b, 4) && a[..4] == b[..4]
    ensures FourHex(a) == FourHex(b)
  {
    assert a[..4][0] == b[..4][0] && a[..4][1] == b[..4][1] && a[..4][2] == b[..4][2] && a[..4][3] == b[..4][3];
  }

  /** Whatever the bytes are, the rewritten text reads as the same tokens. */
  lemma {:induction false} SameReading(inString: bool, s: seq<byte>)
    ensures Lex(inString, Escape(inString, s)) == Lex(inString, s)
    decreases |s|
  {
    if s == [] {
    } else if inString && s[0] == BACKSLASH {
      if |s| > 1 {
        SameReading(true, s[2..]);
        if |s| >= 6 { SameReading(true, s[6..]); }
        LexAfterBackslash(s);
      }
    } else if !inString || s[0] < 0x80 {
      var next := if inString then s[0] != QUOTE else s[0] == QUOTE;
      SameReading(next, s[1..]);
      assert ([s[0]] + Escape(next, s[1..]))[1..] == Escape(next, s[1..]);
    } else {
      var (r, n) := DecodeRune(s);
      SameReading(true, s[n..]);
      LexEscapedRune(r, Escape(true, s[n..]));
    }
  }

  // ---------- ASCII ----------

  predicate IsAscii(s: seq<byte>) { forall i :: 0 <= i < |s| ==> s[i] < 0x80 }

  /** Non-ASCII bytes only inside strings, and none right after a backslash: every printed
      JSON value is like this (JsonAscii.PrintedIsAscii). */
  predicate AsciiOutside(inString: bool, s: seq<byte>)
    decreases |s|
  {
    if s == [] then true
    else if !inString then s[0] < 0x80 && AsciiOutside(s[0] == QUOTE, s[1..])
    else if s[0] == BACKSLASH then |s| == 1 || (s[1] < 0x80 && AsciiOutside(true, s[2..]))
    else if s[0] < 0x80 then AsciiOutside(s[0] != QUOTE, s[1..])
    else AsciiOutside(true, s[DecodeRune(s).1..])
  }

  lemma AsciiCat(a: seq<byte>, b: seq<byte>)
    ensures IsAscii(a + b) <==> IsAscii(a) && IsAscii(b)
  {
    if IsAscii(a + b) {
      forall i | 0 <= i < |a| ensures a[i] < 0x80 { assert (a + b)[i] == a[i]; }
      forall i | 0 <= i < |b| ensures b[i] < 0x80 { assert (a + b)[|a| + i] == b[i]; }
    }
  }

  lemma EscapedRuneAscii(r: int)
    requires IsScalar(r)
    ensures IsAscii(EscapedRune(r))
  {
  }

  /** The output is pure ASCII exactly when the input's other bytes were inside strings. */
  lemma {:induction false} AsciiOutput(inString: bool, s: seq<byte>)
    ensures IsAscii(Escape(inString, s)) <==> AsciiOutside(inString, s)
    decreases |s|
  {
    if s == [] {
    } else if inString && s[0] == BACKSLASH {
      if |s| > 1 {
        AsciiOutput(true, s[2..]);
        AsciiCat([s[0], s[1]], Escape(true, s[2..]));
        assert IsAscii([s[0], s[1]]) <==> s[1] < 0x80 by { assert [s[0], s[1]][1] == s[1]; }
      }
    } else if !inString || s[0] < 0x80 {
      var next := if inString then s[0] != QUOTE else s[0] == QUOTE;
      AsciiOutput(next, s[1..]);
      AsciiCat([s[0]], Escape(next, s[1..]));
      assert IsAscii([s[0]]) <==> s[0] < 0x80 by { assert [s[0]][0] == s[0]; }
    } else {
      var (r, n) := DecodeRune(s);
      AsciiOutput(true, s[n..]);
      EscapedRuneAscii(r);
      AsciiCat(EscapedRune(r), Escape(true, s[n..]));
    }
  }

  // ---------- twice is once ----------

  lemma UEscapeCopied(u: int, tail: seq<byte>)
    requires 0 <= u <= 0xFFFF
    ensures Escape(true, UEscape(u) + tail) == UEscape(u) + Escape(true, tail)
  {
    var e := UEscape(u);
    var s := e + tail;
    HexDigitBack(u / 0x1000);
    HexDigitBack(u / 0x100 % 16);
    HexDigitBack(u / 0x10 % 16);
    HexDigitBack(u % 16);
    var rest := s[2..];
    assert rest[..4] == e[2..] && rest[4..] == tail;
    forall i | 0 <= i < 4 ensures IsHex(rest[i]) { assert rest[i] == e[2 + i]; }
    HexRunKept(rest, 4);
    assert [s[0], s[1]] + e[2..] == e;
    Assoc([s[0], s[1]], e[2..], Escape(true, tail));
  }

  lemma EscapedRuneCopied(r: int, tail: seq<byte>)
    requires IsScalar(r)
    ensures Escape(true, EscapedRune(r) + tail) == EscapedRune(r) + Escape(true, tail)
  {
    hide UEscape, Escape;
    if r <= 0xFFFF {
      UEscapeCopied(r, tail);
    } else {
      var hi, lo := UEscape(Units(r)[0]), UEscape(Units(r)[1]);
      UEscapeCopied(Units(r)[0], lo + tail);
      UEscapeCopied(Units(r)[1], tail);
      Assoc(hi, lo, tail);
      Assoc(hi, lo, Escape(true, tail));
    }
  }

  /** A second application changes nothing. */
  lemma {:induction false} Idempotent(inString: bool, s: seq<byte>)
    ensures Escape(inString, Escape(inString, s)) == Escape(inString, s)
    decreases |s|
  {
    if s == [] {
    } else if inString && s[0] == BACKSLASH {
      if |s| > 1 {
        Idempotent(true, s[2..]);
        assert ([s[0], s[1]] + Escape(true, s[2..]))[2..] == Escape(true, s[2..]);
      }
    } else if !inString || s[0] < 0x80 {
      var next := if inString then s[0] != QUOTE else s[0] == QUOTE;
      Idempotent(next, s[1..]);
      assert ([s[0]] + Escape(next, s[1..]))[1..] == Escape(next, s[1..]);
    } else {
      var (r, n) := DecodeRune(s);
      Idempotent(true, s[n..]);
      EscapedRuneCopied(r, Escape(true, s[n..]));
    }
  }

  // ---------- whole strings ----------

  function EncodeAll(text: seq<int>): seq<byte>
    requires forall i :: 0 <= i < |text| ==> IsScalar(text[i])
  {
    if text == [] then [] else EncodeRune(text[0]) + EncodeAll(text[1..])
  }

  function AllUnits(text: seq<int>): seq<int>
    requires forall i :: 0 <= i < |text| ==> IsScalar(text[i])
  {
    if text == [] then [] else Units(text[0]) + AllUnits(text[1..])
  }

  lemma LexRune(r: int, tail: seq<byte>)
    requires IsScalar(r) && r != QUOTE && r != BACKSLASH
    ensures Lex(true, EncodeRune(r) + tail) == UnitTokens(Units(r)) + Lex(true, tail)
  {
    hide DecodeRune, Units, UnitTokens;
    RuneBack(r, tail);
    var s := EncodeRune(r) + tail;
    assert s[0] == EncodeRune(r)[0];
    assert s[|EncodeRune(r)|..] == tail;
  }

  lemma LexNothing()
    ensures Lex(true, []) == []
  {
  }

  lemma {:induction false} LexText(text: seq<int>)
    requires forall i :: 0 <= i < |text| ==> IsScalar(text[i]) && text[i] != QUOTE && text[i] != BACKSLASH
    ensures Lex(true, EncodeAll(text)) == UnitTokens(AllUnits(text))
  {
    hide Lex, EncodeRune, Units;
    if text == [] {
      LexNothing();
    } else {
      LexText(text[1..]);
      LexRune(text[0], EncodeAll(text[1..]));
      var a, b := Units(text[0]), AllUnits(text[1..]);
      assert UnitTokens(a + b) == UnitTokens(a) + UnitTokens(b);
    }
  }

  lemma PointsStep(r: int, u: seq<int>)
    requires IsScalar(r)
    ensures Points(Units(r) + u) == [r] + Points(u)
  {
    var v := Units(r) + u;
    if r > 0xFFFF {
      assert (r - 0x1_0000) / 0x400 < 0x400;
      assert v[0] == Units(r)[0] && v[1] == Units(r)[1] && v[2..] == u;
    } else {
      assert v[1..] == u;
    }
  }

  lemma {:induction false} PointsBack(text: seq<int>)
    requires forall i :: 0 <= i < |text| ==> IsScalar(text[i])
    ensures Points(AllUnits(text)) == text
  {
    if text != [] {
      PointsBack(text[1..]);
      PointsStep(text[0], AllUnits(text[1..]));
      assert text == [text[0]] + text[1..];
    }
  }

  /** The text of a string survives: a reader of the rewritten bytes gets UTF-16 units that
      decode to exactly the code points that were there. */
  lemma TextKept(text: seq<int>)
    requires forall i :: 0 <= i < |text| ==> IsScalar(text[i]) && text[i] != QUOTE && text[i] != BACKSLASH
    ensures Lex(true, Escape(true, EncodeAll(text))) == UnitTokens(AllUnits(text)) && Points(AllUnits(text)) == text
  {
    SameReading(true, EncodeAll(text));
    LexText(text);
    PointsBack(text);
  }

  // ---------- digits and malformed bytes ----------

  /** Digits are written in lower case and read in both. */
  lemma HexTables(d: int)
    requires 0 <= d < 16
    ensures HexDigit(d) as char == "0123456789abcdef"[d]
    ensures IsHex("0123456789abcdef"[d] as int) && HexValue("0123456789abcdef"[d] as int) == d
    ensures IsHex("0123456789ABCDEF"[d] as int) && HexValue("0123456789ABCDEF"[d] as int) == d
  {
  }

  /** What an escape consists of: a backslash, the letter u, and the four digits of its unit;
      two of them for a character beyond the sixteen-bit range, high surrogate first. */
  lemma EscapeWritten(r: int)
    requires IsScalar(r)
    ensures r < 0x1_0000 ==> EscapedRune(r) == UEscape(r)
    ensures r >= 0x1_0000 ==>
              EscapedRune(r) == UEscape(0xD800 + (r - 0x1_0000) / 0x400) + UEscape(0xDC00 + (r - 0x1_0000) % 0x400)
    ensures forall u :: 0 <= u <= 0xFFFF ==> UEscape(u)[0] == 0x5C && UEscape(u)[1] == 0x75
  {
    hide HexDigit;
  }

  /** Decoding takes the encoding of the character that the bytes start with; if they start
      with none, it takes one byte and answers the replacement character. */
  lemma DecodeExact(s: seq<byte>)
    requires s != []
    ensures var (r, n) := DecodeRune(s);
            || (EncodeRune(r) <= s && n == |EncodeRune(r)|)
            || (r == 0xFFFD && n == 1 && forall x :: IsScalar(x) ==> !(EncodeRune(x) <= s))
  {
    var (r, n) := DecodeRune(s);
    if !(EncodeRune(r) <= s && n == |EncodeRune(r)|) {
      forall x | IsScalar(x) ensures !(EncodeRune(x) <= s) { DecodesPrefix(x, s); }
      DecodeElse(s);
    }
  }

  lemma DecodesPrefix(x: int, s: seq<byte>)
    requires IsScalar(x) && s != []
    ensures EncodeRune(x) <= s ==> DecodeRune(s) == (x, |EncodeRune(x)|)
  {
    hide DecodeRune, EncodeRune;
    if EncodeRune(x) <= s {
      RuneBack(x, s[|EncodeRune(x)|..]);
      assert EncodeRune(x) + s[|EncodeRune(x)|..] == s;
    }
  }

  lemma DecodeElse(s: seq<byte>)
    requires s != []
    ensures var (r, n) := DecodeRune(s); (EncodeRune(r) <= s && n == |EncodeRune(r)|) || (r == 0xFFFD && n == 1)
  {
    var (r, n) := DecodeRune(s);
    if s[0] < 0x80 {
      assert s[..1] == EncodeRune(r);
    } else if TwoBytes(s) {
      assert s[..2] == EncodeRune(r);
    } else if ThreeBytes(s) {
      ThreeEncoded(s);
    } else if FourBytes(s) {
      FourEncoded(s);
    }
  }

  lemma ThreeEncoded(s: seq<byte>)
    requires s != [] && s[0] >= 0x80 && !TwoBytes(s) && ThreeBytes(s)
    ensures var (r, n) := DecodeRune(s); EncodeRune(r) <= s && n == |EncodeRune(r)|
  {
    var r := DecodeRune(s).0;
    var a: int, b: int, c: int := s[0], s[1], s[2];
    assert r == (a - 0xE0) * 0x1000 + (b - 0x80) * 0x40 + (c - 0x80);
    assert r / 0x1000 == a - 0xE0 && r / 0x40 == (a - 0xE0) * 0x40 + (b - 0x80);
    assert s[..3] == EncodeRune(r);
  }

  lemma FourEncoded(s: seq<byte>)
    requires s != [] && s[0] >= 0x80 && !TwoBytes(s) && !ThreeBytes(s) && FourBytes(s)
    ensures var (r, n) := DecodeRune(s); EncodeRune(r) <= s && n == |EncodeRune(r)|
  {
    var r := DecodeRune(s).0;
    var a: int, b: int, c: int, d: int := s[0], s[1], s[2], s[3];
    a, b, c, d := a - 0xF0, b - 0x80, c - 0x80, d - 0x80;
    assert r == a * 0x4_0000 + b * 0x1000 + c * 0x40 + d;
    assert r / 0x4_0000 == a && r / 0x1000 == a * 0x40 + b && r / 0x40 == a * 0x1000 + b * 0x40 + c;
    assert s[..4] == EncodeRune(r);
  }
}
