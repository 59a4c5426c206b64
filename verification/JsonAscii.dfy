/** The rewriter of internal/response/response.go on the texts of the JSON grammar: every
    printed value comes out as pure ASCII. */
module JsonAscii {
  import opened Bytes
  import opened JsonText
  import opened EscapeJson
  import JsonScanner

  /** Every character is a byte. */
  predicate Bytewise(s: string) { forall i :: 0 <= i < |s| ==> s[i] < 256 as char }

  function ToBytes(s: string): seq<byte>
    requires Bytewise(s)
  {
    seq(|s|, i requires 0 <= i < |s| => s[i] as int)
  }

  /** From here on, inside a string or outside, the text is ASCII where it has to be. */
  predicate Fits(inString: bool, s: string) { Bytewise(s) && AsciiOutside(inString, ToBytes(s)) }

  lemma Rest(s: string, n: nat)
    requires Bytewise(s) && n <= |s|
    ensures Bytewise(s[n..]) && ToBytes(s)[n..] == ToBytes(s[n..])
  {
  }

  lemma Split(a: string, b: string)
    requires Bytewise(a + b)
    ensures Bytewise(a) && Bytewise(b) && (a + b)[|a|..] == b
  {
    forall i | 0 <= i < |a| ensures a[i] < 256 as char { assert a[i] == (a + b)[i]; }
    forall i | 0 <= i < |b| ensures b[i] < 256 as char { assert b[i] == (a + b)[|a| + i]; }
  }

  /** Passing over a character of several bytes is passing over its bytes one by one. */
  lemma OneByOne(s: seq<byte>)
    requires s != [] && s[0] >= 0x80
    ensures AsciiOutside(true, s) == AsciiOutside(true, s[1..])
    decreases |s|
  {
    var n := DecodeRune(s).1;
    if n > 1 {
      TailAlone(s[1..]);
      assert s[1..][1..] == s[2..];
      if n > 2 {
        TailAlone(s[2..]);
        assert s[2..][1..] == s[3..];
        if n > 3 {
          TailAlone(s[3..]);
          assert s[3..][1..] == s[4..];
        }
      }
    }
  }

  lemma TailAlone(s: seq<byte>)
    requires s != [] && IsTail(s[0])
    ensures AsciiOutside(true, s) == AsciiOutside(true, s[1..])
  {
    assert DecodeRune(s) == (RUNE_ERROR, 1);
  }

  /** One character that neither ends a string nor escapes. */
  lemma InsideStep(c: char, k: string)
    requires c != '"' && c != '\\' && Bytewise([c] + k) && Fits(true, k)
    ensures Fits(true, [c] + k)
  {
    var s := [c] + k;
    assert s[1..] == k;
    Rest(s, 1);
    if c >= 128 as char { OneByOne(ToBytes(s)); }
  }

  lemma EscapeStep(e: char, k: string)
    requires e < 128 as char && Bytewise(['\\', e] + k) && Fits(true, k)
    ensures Fits(true, ['\\', e] + k)
  {
    var s := ['\\', e] + k;
    assert s[2..] == k;
    Rest(s, 2);
  }

  lemma OutsideStep(c: char, k: string)
    requires c < 128 as char && Bytewise([c] + k) && Fits(c == '"', k)
    ensures Fits(false, [c] + k)
  {
    var s := [c] + k;
    assert s[1..] == k;
    Rest(s, 1);
  }

  lemma CloseStep(k: string)
    requires Bytewise(['"'] + k) && Fits(false, k)
    ensures Fits(true, ['"'] + k)
  {
    var s := ['"'] + k;
    assert s[1..] == k;
    Rest(s, 1);
  }

  lemma {:induction false} OutsideText(w: string, k: string)
    requires (forall i :: 0 <= i < |w| ==> w[i] < 128 as char && w[i] != '"') && Bytewise(w + k) && Fits(false, k)
    ensures Fits(false, w + k)
  {
    if w == "" {
      assert w + k == k;
    } else {
      assert w + k == [w[0]] + (w[1..] + k);
      Split([w[0]], w[1..] + k);
      OutsideText(w[1..], k);
      OutsideStep(w[0], w[1..] + k);
    }
  }

  lemma HexStep(digits: string, k: string)
    requires ValidElement(Hex(digits)) && Bytewise(("\\u" + digits) + k) && Fits(true, k)
    ensures Fits(true, ("\\u" + digits) + k)
  {
    var a, b, c, d := digits[0], digits[1], digits[2], digits[3];
    var k3, k2, k1 := [d] + k, [c] + ([d] + k), [b] + ([c] + ([d] + k));
    assert ("\\u" + digits) + k == ['\\', 'u'] + ([a] + k1);
    Split(['\\', 'u'], [a] + k1);
    Split([a], k1);
    Split([b], k2);
    Split([c], k3);
    InsideStep(d, k);
    InsideStep(c, k3);
    InsideStep(b, k2);
    InsideStep(a, k1);
    EscapeStep('u', [a] + k1);
  }

  lemma ElementFits(x: Element, k: string)
    requires ValidElement(x) && Bytewise(ElementText(x) + k) && Fits(true, k)
    ensures Fits(true, ElementText(x) + k)
  {
    hide Fits;
    match x
    case Plain(c) => InsideStep(c, k);
    case Escape(e) => EscapeStep(e, k);
    case Hex(digits) => HexStep(digits, k);
  }

  lemma {:induction false} ElementsFit(s: seq<Element>, k: string)
    requires ValidString(s) && Bytewise(PutElements(s, k)) && Fits(true, k)
    ensures Fits(true, PutElements(s, k))
  {
    if s != [] {
      Split(ElementText(s[0]), PutElements(s[1..], k));
      ElementsFit(s[1..], k);
      ElementFits(s[0], PutElements(s[1..], k));
    }
  }

  lemma StringFits(s: seq<Element>, k: string)
    requires ValidString(s) && Bytewise(PutString(s, k)) && Fits(false, k)
    ensures Fits(false, PutString(s, k))
  {
    Split(['"'], PutElements(s, ['"'] + k));
    ElementsTail(s, ['"'] + k);
    CloseStep(k);
    ElementsFit(s, ['"'] + k);
    OutsideStep('"', PutElements(s, ['"'] + k));
  }

  lemma {:induction false} ElementsTail(s: seq<Element>, k: string)
    requires Bytewise(PutElements(s, k))
    ensures Bytewise(k)
  {
    if s != [] {
      Split(ElementText(s[0]), PutElements(s[1..], k));
      ElementsTail(s[1..], k);
    }
  }

  lemma StringTail(s: seq<Element>, k: string)
    requires Bytewise(PutString(s, k))
    ensures Bytewise(k)
  {
    Split(['"'], PutElements(s, ['"'] + k));
    ElementsTail(s, ['"'] + k);
    Split(['"'], k);
  }

  // ---------- what follows a printed value is bytes too ----------

  lemma {:induction false} ValueTail(v: Json, k: string)
    requires Bytewise(Put(v, k))
    ensures Bytewise(k)
    decreases v, 1
  {
    PutCat(v, "", k);
    assert "" + k == k;
    Split(Put(v, ""), k);
  }

  // ---------- values ----------

  /** White space, one structural character, then what fits. */
  lemma PunctuationFits(w: string, c: char, k: string)
    requires AllWS(w) && c < 128 as char && c != '"' && Bytewise(w + ([c] + k)) && Fits(false, k)
    ensures Fits(false, w + ([c] + k))
  {
    Split(w, [c] + k);
    OutsideStep(c, k);
    OutsideText(w, [c] + k);
  }

  /** An opening bracket and white space. */
  lemma OpeningFits(c: char, w: string, k: string)
    requires AllWS(w) && c < 128 as char && c != '"' && Bytewise([c] + (w + k)) && Fits(false, k)
    ensures Fits(false, [c] + (w + k))
  {
    Split([c], w + k);
    OutsideText(w, k);
    OutsideStep(c, w + k);
  }

  lemma {:induction false} ValueFits(v: Json, k: string)
    requires ValidJson(v) && Bytewise(Put(v, k)) && Fits(false, k)
    ensures Fits(false, Put(v, k))
    decreases v, 1
  {
    hide Fits, Bytewise;
    match v
    case String(elements) => StringFits(elements, k);
    case Atom(text) => OutsideText(text, k);
    case EmptyArray(w) =>
      Split(['['], w + ([']'] + k));
      PunctuationFits(w, ']', k);
      OutsideStep('[', w + ([']'] + k));
    case Array(w, items) =>
      Split(['['], w + PutItems(items, k));
      Split(w, PutItems(items, k));
      ItemsFit(items, k);
      OpeningFits('[', w, PutItems(items, k));
    case EmptyObject(w) =>
      Split(['{'], w + (['}'] + k));
      PunctuationFits(w, '}', k);
      OutsideStep('{', w + (['}'] + k));
    case Object(w, members) =>
      Split(['{'], w + PutMembers(members, k));
      Split(w, PutMembers(members, k));
      MembersFit(members, k);
      OpeningFits('{', w, PutMembers(members, k));
  }

  lemma {:induction false} ItemsFit(items: Items, k: string)
    requires ValidItems(items) && Bytewise(PutItems(items, k)) && Fits(false, k)
    ensures Fits(false, PutItems(items, k))
    decreases items, 0
  {
    hide Fits, Bytewise;
    match items
    case LastItem(v, w) =>
      ValueTail(v, w + ([']'] + k));
      PunctuationFits(w, ']', k);
      ValueFits(v, w + ([']'] + k));
    case MoreItems(v, w, w', rest) =>
      var more := PutItems(rest, k);
      var after := w + ([','] + (w' + more));
      ValueTail(v, after);
      Split(w, [','] + (w' + more));
      Split([','], w' + more);
      Split(w', more);
      ItemsFit(rest, k);
      OpeningFits(',', w', more);
      OutsideText(w, [','] + (w' + more));
      ValueFits(v, after);
  }

  lemma {:induction false} MembersFit(m: Members, k: string)
    requires ValidMembers(m) && Bytewise(PutMembers(m, k)) && Fits(false, k)
    ensures Fits(false, PutMembers(m, k))
    decreases m, 0
  {
    hide Fits, Bytewise;
    match m
    case LastMember(key, w1, w2, v, w3) =>
      var after := w3 + (['}'] + k);
      var value := [':'] + (w2 + Put(v, after));
      StringTail(key, w1 + value);
      Split(w1, value);
      Split([':'], w2 + Put(v, after));
      Split(w2, Put(v, after));
      ValueTail(v, after);
      PunctuationFits(w3, '}', k);
      ValueFits(v, after);
      MemberFits(key, w1, w2, Put(v, after));
    case MoreMembers(key, w1, w2, v, w3, w4, rest) =>
      var more := PutMembers(rest, k);
      var after := w3 + ([','] + (w4 + more));
      var value := [':'] + (w2 + Put(v, after));
      StringTail(key, w1 + value);
      Split(w1, value);
      Split([':'], w2 + Put(v, after));
      Split(w2, Put(v, after));
      ValueTail(v, after);
      Split(w3, [','] + (w4 + more));
      Split([','], w4 + more);
      Split(w4, more);
      MembersFit(rest, k);
      OpeningFits(',', w4, more);
      OutsideText(w3, [','] + (w4 + more));
      ValueFits(v, after);
      MemberFits(key, w1, w2, Put(v, after));
  }

  lemma MemberFits(key: seq<Element>, w1: string, w2: string, value: string)
    requires ValidString(key) && AllWS(w1) && AllWS(w2)
    requires Bytewise(PutString(key, w1 + ([':'] + (w2 + value)))) && Fits(false, value)
    ensures Fits(false, PutString(key, w1 + ([':'] + (w2 + value))))
  {
    hide Fits, Bytewise;
    var colon := [':'] + (w2 + value);
    StringTail(key, w1 + colon);
    Split(w1, colon);
    OpeningFits(':', w2, value);
    OutsideText(w1, colon);
    StringFits(key, w1 + colon);
  }

  /** The text of every JSON value, with any bytes in its strings, is rewritten to pure ASCII
      that reads as the same tokens. */
  lemma PrintedIsAscii(v: Json)
    requires ValidJson(v) && Bytewise(Text(v))
    ensures var text := ToBytes(Text(v));
            IsAscii(EscapeJson.Escape(false, text)) && Lex(false, EscapeJson.Escape(false, text)) == Lex(false, text)
  {
    assert Fits(false, "");
    ValueFits(v, "");
    AsciiOutput(false, ToBytes(Text(v)));
    SameReading(false, ToBytes(Text(v)));
  }
}
