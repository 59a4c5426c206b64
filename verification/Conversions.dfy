/** The conversion string of a generated file (parseGeneratedConversion in
    internal/fileid/fileid.go). Latitude and longitude are not part of the model. */
module Conversions {
  import opened Bytes
  import opened Decimal

  datatype Conversion =
    | Unknown
    | AudioThumb(title: seq<byte>, performer: seq<byte>, small: bool)
    | MapTile(zoom: int, x: int, y: int, width: int, height: int, scale: int)
    | NegativeZoom  // the source shifts by the zoom before checking it, which panics

  const HASH: byte := 35

  function Ascii(s: string): seq<byte>
    requires forall i :: 0 <= i < |s| ==> s[i] < 128 as char
  {
    seq(|s|, i requires 0 <= i < |s| => s[i] as int)
  }

  function Text(b: seq<byte>): string { seq(|b|, i requires 0 <= i < |b| => b[i] as char) }

  /** strings.Split by '#'. */
  function Split(s: seq<byte>): (parts: seq<seq<byte>>)
    ensures |parts| >= 1
  {
    if s == [] then [[]]
    else
      var rest := Split(s[1..]);
      if s[0] == HASH then [[]] + rest else [[s[0]] + rest[0]] + rest[1..]
  }

  function ParseInt32(b: seq<byte>): Option<int> { ParseInt(Text(b), TWO_31) }

  function ParseTile(p: seq<seq<byte>>): Conversion
    requires |p| == 9
  {
    var zoom, x, y := ParseInt32(p[2]), ParseInt32(p[3]), ParseInt32(p[4]);
    var width, height, scale := ParseInt32(p[5]), ParseInt32(p[6]), ParseInt32(p[7]);
    if zoom.None? || x.None? || y.None? || width.None? || height.None? || scale.None? then Unknown
    else if zoom.value < 0 then NegativeZoom
    else if TileOk(zoom.value, x.value, y.value, width.value, height.value, scale.value)
    then MapTile(zoom.value, x.value, y.value, width.value, height.value, scale.value)
    else Unknown
  }

  function Pow2(n: nat): nat { if n == 0 then 1 else 2 * Pow2(n - 1) }

  predicate TileOk(zoom: int, x: int, y: int, width: int, height: int, scale: int) {
    && 13 <= zoom <= 20
    && 0 <= x < 256 * Pow2(zoom) && 0 <= y < 256 * Pow2(zoom)
    && 16 <= width <= 1024 && 16 <= height <= 1024 && 1 <= scale <= 3
  }

  function ParseConversion(s: seq<byte>): Conversion {
    var p := Split(s);
    if |p| < 3 || p[0] != [] || p[|p| - 1] != [] then Unknown
    else if |p| == 6 && p[1] == Ascii("audio_t") then
      if (p[2] == [] && p[3] == []) || (p[4] != Ascii("0") && p[4] != Ascii("1")) then Unknown
      else AudioThumb(p[2], p[3], p[4] == Ascii("1"))
    else if |p| == 9 && p[1] == Ascii("map") then ParseTile(p)
    else Unknown
  }

  // ---------- printed conversions ----------

  /** Without the separator '#'. */
  predicate Plain(b: seq<byte>) { forall i :: 0 <= i < |b| ==> b[i] != 0x23 }

  function Join(parts: seq<seq<byte>>): seq<byte>
    requires parts != []
  {
    if |parts| == 1 then parts[0] else parts[0] + [0x23] + Join(parts[1..])
  }

  function SplitAll(parts: seq<seq<byte>>): seq<seq<byte>> {
    if parts == [] then [] else Split(parts[0]) + SplitAll(parts[1..])
  }

  lemma SplitHead(c: byte, a: seq<byte>, s: seq<byte>, b: seq<byte>)
    requires Split(s) == Split(a) + Split(b)
    ensures Split([c] + s) == Split([c] + a) + Split(b)
  {
    var x, y := Split(a), Split(b);
    assert ([c] + s)[1..] == s && ([c] + a)[1..] == a;
    assert (x + y)[0] == x[0] && (x + y)[1..] == x[1..] + y;
    Assoc([[]], x, y);
    Assoc([[c] + x[0]], x[1..], y);
  }

  lemma {:induction false} SplitCat(a: seq<byte>, b: seq<byte>)
    ensures Split(a + [HASH] + b) == Split(a) + Split(b)
  {
    var s := a + [HASH] + b;
    if a == [] {
      assert s[1..] == b;
    } else {
      SplitCat(a[1..], b);
      assert s[0] == a[0] && s[1..] == a[1..] + [HASH] + b;
      SplitHead(a[0], a[1..], s[1..], b);
      assert a == [a[0]] + a[1..] && s == [s[0]] + s[1..];
    }
  }

  lemma {:induction false} SplitJoin(parts: seq<seq<byte>>)
    requires parts != []
    ensures Split(Join(parts)) == SplitAll(parts)
  {
    if |parts| == 1 {
      assert SplitAll(parts[1..]) == [];
    } else {
      SplitCat(parts[0], Join(parts[1..]));
      SplitJoin(parts[1..]);
    }
  }

  lemma {:induction false} SplitPlain(b: seq<byte>)
    ensures Split(b) == [b] <==> Plain(b)
    ensures |Split(b)| == 1 <==> Plain(b)
  {
    if b != [] {
      SplitPlain(b[1..]);
      assert b == [b[0]] + b[1..];
    }
  }

  lemma {:induction false} SplitAllPlain(parts: seq<seq<byte>>)
    requires forall i :: 0 <= i < |parts| ==> Plain(parts[i])
    ensures SplitAll(parts) == parts
  {
    hide Split, Plain;
    if parts != [] {
      SplitPlain(parts[0]);
      SplitAllPlain(parts[1..]);
    }
  }

  lemma {:induction false} TextOfAscii(s: string)
    requires forall i :: 0 <= i < |s| ==> s[i] < 128 as char
    ensures Text(Ascii(s)) == s
  {
  }

  /** The form the source accepts for a song thumbnail. */
  function AudioParts(title: seq<byte>, performer: seq<byte>, small: bool): seq<seq<byte>> {
    [[], Ascii("audio_t"), title, performer, Ascii(if small then "1" else "0"), []]
  }

  function Numeral(n: int): seq<byte> { Ascii(FormatInt(n)) }

  function TileParts(zoom: int, x: int, y: int, width: int, height: int, scale: int): seq<seq<byte>> {
    [[], Ascii("map"), Numeral(zoom), Numeral(x), Numeral(y), Numeral(width), Numeral(height), Numeral(scale), []]
  }

  lemma WordsPlain()
    ensures Plain(Ascii("audio_t")) && Plain(Ascii("map")) && Plain(Ascii("0")) && Plain(Ascii("1"))
    ensures Ascii("audio_t") != Ascii("map") && Ascii("0") != Ascii("1")
  {
    assert Ascii("audio_t")[0] == 97 && Ascii("map")[0] == 109;
    assert Ascii("0")[0] == 48 && Ascii("1")[0] == 49;
  }

  lemma SplitAllSix(p: seq<seq<byte>>)
    requires |p| == 6 && Plain(p[0]) && Plain(p[1]) && Plain(p[4]) && Plain(p[5])
    ensures |SplitAll(p)| == 4 + |Split(p[2])| + |Split(p[3])|
    ensures SplitAll(p)[1] == p[1]
  {
    SplitPlain(p[0]);
    SplitPlain(p[1]);
    SplitAllPlain(p[4..]);
    var p1, p2, p3 := p[1..], p[2..], p[3..];
    assert p1[1..] == p2 && p2[1..] == p3 && p3[1..] == p[4..];
    assert |SplitAll(p3)| == |Split(p[3])| + 2;
    assert |SplitAll(p2)| == |Split(p[2])| + |SplitAll(p3)|;
    assert SplitAll(p) == [p[0]] + ([p[1]] + SplitAll(p2));
  }

  lemma ParsedAsAudio(s: seq<byte>, title: seq<byte>, performer: seq<byte>, small: bool)
    requires Split(s) == AudioParts(title, performer, small)
    ensures ParseConversion(s) ==
                if title == [] && performer == [] then Unknown else AudioThumb(title, performer, small)
  {
    hide ParseTile;
    WordsPlain();
  }

  lemma NotSixParts(s: seq<byte>)
    requires |Split(s)| > 6
    ensures !ParseConversion(s).AudioThumb?
  {
  }

  /** A song thumbnail's conversion is understood exactly when its title and performer
      hold no '#' and are not both empty, and then as what was printed. */
  lemma AudioBack(title: seq<byte>, performer: seq<byte>, small: bool)
    ensures ParseConversion(Join(AudioParts(title, performer, small))) == AudioThumb(title, performer, small)
       <==> Plain(title) && Plain(performer) && (title != [] || performer != [])
  {
    hide Join, ParseConversion;
    WordsPlain();
    var p := AudioParts(title, performer, small);
    SplitJoin(p);
    if Plain(title) && Plain(performer) {
      SplitAllPlain(p);
      ParsedAsAudio(Join(p), title, performer, small);
    } else {
      SplitAllSix(p);
      SplitPlain(title);
      SplitPlain(performer);
      NotSixParts(Join(p));
    }
  }

  lemma NumeralPlain(n: int)
    ensures Plain(Numeral(n))
    ensures IsInt32(n) ==> ParseInt32(Numeral(n)) == Some(n)
  {
    var s := FormatInt(n);
    assert forall i :: 0 <= i < |s| ==> s[i] != '#' && s[i] < 128 as char;
    TextOfAscii(s);
    if IsInt32(n) { ParseFormat(n, TWO_31); }
  }

  lemma TilePlain(zoom: int, x: int, y: int, width: int, height: int, scale: int)
    ensures var p := TileParts(zoom, x, y, width, height, scale); forall i :: 0 <= i < |p| ==> Plain(p[i])
  {
    hide Numeral, ParseInt32;
    WordsPlain();
    NumeralPlain(zoom);
    NumeralPlain(x);
    NumeralPlain(y);
    NumeralPlain(width);
    NumeralPlain(height);
    NumeralPlain(scale);
  }

  lemma TileParsed(zoom: int, x: int, y: int, width: int, height: int, scale: int)
    requires IsInt32(zoom) && IsInt32(x) && IsInt32(y) && IsInt32(width) && IsInt32(height) && IsInt32(scale)
    ensures ParseTile(TileParts(zoom, x, y, width, height, scale)) ==
            if zoom < 0 then NegativeZoom
            else if TileOk(zoom, x, y, width, height, scale) then MapTile(zoom, x, y, width, height, scale)
            else Unknown
  {
    hide ParseInt32, TileOk, Numeral;
    NumeralPlain(zoom);
    NumeralPlain(x);
    NumeralPlain(y);
    NumeralPlain(width);
    NumeralPlain(height);
    NumeralPlain(scale);
  }

  lemma ParsedAsTile(s: seq<byte>, p: seq<seq<byte>>)
    requires Split(s) == p && |p| == 9 && p[0] == [] && p[8] == [] && p[1] == Ascii("map")
    ensures ParseConversion(s) == ParseTile(p)
  {
    hide ParseTile;
  }

  /** A map tile's conversion is understood exactly when it is within the source's
      bounds; a negative zoom never gets that far. */
  lemma TileBack(zoom: int, x: int, y: int, width: int, height: int, scale: int)
    requires IsInt32(zoom) && IsInt32(x) && IsInt32(y) && IsInt32(width) && IsInt32(height) && IsInt32(scale)
    ensures ParseConversion(Join(TileParts(zoom, x, y, width, height, scale))) ==
            if zoom < 0 then NegativeZoom
            else if 13 <= zoom <= 20 && 0 <= x < 256 * Pow2(zoom) && 0 <= y < 256 * Pow2(zoom)
                    && 16 <= width <= 1024 && 16 <= height <= 1024 && 1 <= scale <= 3
            then MapTile(zoom, x, y, width, height, scale)
            else Unknown
  {
    hide ParseTile, ParseConversion;
    var p := TileParts(zoom, x, y, width, height, scale);
    TilePlain(zoom, x, y, width, height, scale);
    SplitJoin(p);
    SplitAllPlain(p);
    ParsedAsTile(Join(p), p);
    TileParsed(zoom, x, y, width, height, scale);
  }
}
