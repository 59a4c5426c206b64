/** JSON values with their white space, printed by the grammar of RFC 8259 (sections 2 to
    7), and what the scanner makes of the printed text. */
module JsonText {
  import opened Bytes
  import opened JsonScanner
  import EscapeJson

  /** One element of a string: a character that needs no escape, a two-character escape,
      or a \u escape with its four digits. */
  datatype Element = Plain(c: char) | Escape(e: char) | Hex(digits: string)

  datatype Json =
    | String(elements: seq<Element>)
    | Atom(text: string)  // a number, true, false or null
    | EmptyArray(w: string)
    | Array(w: string, items: Items)
    | EmptyObject(w: string)
    | Object(w: string, members: Members)

  /** Every string w is white space around what stands beside it. */
  datatype Items = LastItem(v: Json, w: string) | MoreItems(v: Json, w: string, w': string, rest: Items)

  datatype Members =
    | LastMember(key: seq<Element>, w1: string, w2: string, v: Json, w3: string)
    | MoreMembers(key: seq<Element>, w1: string, w2: string, v: Json, w3: string, w4: string, rest: Members)

  /** Space, tab, line feed and carriage return (section 2 of RFC 8259). */
  predicate IsSpace(c: char) { c as int in {0x20, 0x09, 0x0A, 0x0D} }

  predicate AllWS(w: string) { forall i :: 0 <= i < |w| ==> IsSpace(w[i]) }

  predicate IsHexDigit(c: char) { '0' <= c <= '9' || 'a' <= c <= 'f' || 'A' <= c <= 'F' }

  predicate ValidElement(x: Element) {
    match x
    case Plain(c) => c != '"' && c != '\\' && c >= ' '
    case Escape(e) => e in "\"\\/bfnrt"
    case Hex(digits) => |digits| == 4 && forall i :: 0 <= i < 4 ==> IsHexDigit(digits[i])
  }

  predicate ValidString(s: seq<Element>) { forall i :: 0 <= i < |s| ==> ValidElement(s[i]) }

  /** The characters of numbers, true, false and null. */
  predicate IsAtomChar(c: char) { '0' <= c <= '9' || 'a' <= c <= 'z' || c == 'E' || c == '+' || c == '-' || c == '.' }

  predicate ValidAtom(text: string) { text != "" && forall i :: 0 <= i < |text| ==> IsAtomChar(text[i]) }

  predicate ValidJson(v: Json) {
    match v
    case String(elements) => ValidString(elements)
    case Atom(text) => ValidAtom(text)
    case EmptyArray(w) => AllWS(w)
    case Array(w, items) => AllWS(w) && ValidItems(items)
    case EmptyObject(w) => AllWS(w)
    case Object(w, members) => AllWS(w) && ValidMembers(members)
  }

  predicate ValidItems(items: Items) {
    match items
    case LastItem(v, w) => ValidJson(v) && AllWS(w)
    case MoreItems(v, w, w', rest) => ValidJson(v) && AllWS(w) && AllWS(w') && ValidItems(rest)
  }

  predicate ValidMembers(m: Members) {
    && ValidString(m.key) && AllWS(m.w1) && AllWS(m.w2) && ValidJson(m.v) && AllWS(m.w3)
    && (m.MoreMembers? ==> AllWS(m.w4) && ValidMembers(m.rest))
  }

  // ---------- printing: the text of a value followed by k ----------

  function ElementText(x: Element): string {
    match x
    case Plain(c) => [c]
    case Escape(e) => ['\\', e]
    case Hex(digits) => "\\u" + digits
  }

  function PutElements(s: seq<Element>, k: string): string {
    if s == [] then k else ElementText(s[0]) + PutElements(s[1..], k)
  }

  function PutString(s: seq<Element>, k: string): string { ['"'] + PutElements(s, ['"'] + k) }

  function Put(v: Json, k: string): string {
    match v
    case String(elements) => PutString(elements, k)
    case Atom(text) => text + k
    case EmptyArray(w) => ['['] + (w + ([']'] + k))
    case Array(w, items) => ['['] + (w + PutItems(items, k))
    case EmptyObject(w) => ['{'] + (w + (['}'] + k))
    case Object(w, members) => ['{'] + (w + PutMembers(members, k))
  }

  function PutItems(items: Items, k: string): string {
    match items
    case LastItem(v, w) => Put(v, w + ([']'] + k))
    case MoreItems(v, w, w', rest) => Put(v, w + ([','] + (w' + PutItems(rest, k))))
  }

  function PutMembers(m: Members, k: string): string {
    match m
    case LastMember(key, w1, w2, v, w3) => PutString(key, w1 + ([':'] + (w2 + Put(v, w3 + (['}'] + k)))))
    case MoreMembers(key, w1, w2, v, w3, w4, rest) =>
      PutString(key, w1 + ([':'] + (w2 + Put(v, w3 + ([','] + (w4 + PutMembers(rest, k)))))))
  }

  function Text(v: Json): string { Put(v, "") }

  /** What may follow a value so that its end can be seen: after a number or a literal,
      nothing, white space, or what closes or separates. */
  predicate Ends(v: Json, k: string) { v.Atom? && k != "" ==> IsSpace(k[0]) || k[0] in {',', ']', '}'} }

  // ---------- meaning ----------

  /** A string's text: \u escapes stay as they are written. */
  function Decoded(s: seq<Element>): string
    requires ValidString(s)
  {
    if s == [] then ""
    else ElementMeaning(s[0]) + Decoded(s[1..])
  }

  function Meaning(v: Json): string
    requires ValidJson(v)
  {
    if v.String? then Decoded(v.elements) else Text(v)
  }

  function MemberPairs(m: Members): seq<(string, string)>
    requires ValidMembers(m)
  {
    [(Decoded(m.key), Meaning(m.v))] + if m.MoreMembers? then MemberPairs(m.rest) else []
  }

  // ---------- the scanner on printed text ----------

  lemma {:induction false} SkipWSBack(w: string, k: string)
    requires AllWS(w) && (k != "" ==> !IsWS(k[0]))
    ensures SkipWS(w + k) == k
  {
    if w == "" {
      assert w + k == k;
    } else {
      SkipWSBack(w[1..], k);
      assert (w + k)[1..] == w[1..] + k;
    }
  }

  /** The code points of the eight two-character escapes (section 7 of RFC 8259). */
  function EscapeMeaning(e: char): int
    requires e in "\"\\/bfnrt"
  {
    match e
    case 'b' => 0x08
    case 't' => 0x09
    case 'n' => 0x0A
    case 'f' => 0x0C
    case 'r' => 0x0D
    case '/' => 0x2F
    case '\\' => 0x5C
    case _ => 0x22
  }

  function ElementMeaning(x: Element): string
    requires ValidElement(x)
  {
    match x
    case Plain(c) => [c]
    case Escape(e) => [EscapeMeaning(e) as char]
    case Hex(digits) => "\\u" + digits
  }

  lemma HexBack(digits: string, k: string)
    requires |digits| == 4
    ensures ParseBody(("\\u" + digits) + k) == Prepend("\\u" + digits, ParseBody(k))
  {
    var s := ("\\u" + digits) + k;
    assert s[0] == '\\' && s[1] == 'u';
    assert s[..6] == "\\u" + digits && s[6..] == k;
  }

  lemma ElementBack(x: Element, k: string)
    requires ValidElement(x)
    ensures ParseBody(ElementText(x) + k) == Prepend(ElementMeaning(x), ParseBody(k))
  {
    match x
    case Plain(c) =>
      assert ([c] + k)[1..] == k;
    case Escape(e) =>
      assert (['\\', e] + k)[2..] == k;
      assert Unescape(e) == [EscapeMeaning(e) as char];
    case Hex(digits) =>
      HexBack(digits, k);
  }

  lemma {:induction false} BodyBack(s: seq<Element>, k: string)
    requires ValidString(s)
    ensures ParseBody(PutElements(s, ['"'] + k)) == Str(Decoded(s), k)
  {
    if s == [] {
    } else {
      BodyBack(s[1..], k);
      ElementBack(s[0], PutElements(s[1..], ['"'] + k));
    }
  }

  lemma StringBack(s: seq<Element>, k: string)
    requires ValidString(s)
    ensures ParseString(PutString(s, k)) == Str(Decoded(s), k)
  {
    BodyBack(s, k);
    assert PutString(s, k)[1..] == PutElements(s, ['"'] + k);
  }

  lemma {:induction false} AtomBack(text: string, k: string)
    requires forall i :: 0 <= i < |text| ==> IsAtomChar(text[i])
    ensures SkipAtom(text + k) == SkipAtom(k)
  {
    if text == "" {
      assert text + k == k;
    } else {
      AtomBack(text[1..], k);
      assert (text + k)[1..] == text[1..] + k;
    }
  }

  /** A value starts with a character that is neither white space nor structure that
      closes or separates. */
  lemma PutStarts(v: Json, k: string)
    requires ValidJson(v)
    ensures Put(v, k) != "" && !IsDelimiter(Put(v, k)[0]) && Put(v, k)[0] != ':'
    ensures Put(v, k)[0] == '"' <==> v.String?
    ensures v.Atom? ==> Put(v, k)[0] !in {'"', '{', '['}
  {
  }

  lemma CommaBack(w: string, w': string, k: string)
    requires AllWS(w) && AllWS(w') && (k != "" ==> !IsWS(k[0]))
    ensures SkipComma(w + ([','] + (w' + k))) == k
  {
    SkipWSBack(w, [','] + (w' + k));
    SkipWSBack(w', k);
    assert ([','] + (w' + k))[1..] == w' + k;
  }

  lemma CloseBack(w: string, c: char, k: string)
    requires AllWS(w) && (c == ']' || c == '}')
    ensures SkipComma(w + ([c] + k)) == [c] + k
  {
    SkipWSBack(w, [c] + k);
  }

  lemma KeyBack(key: seq<Element>, w1: string, w2: string, k: string)
    requires ValidString(key) && AllWS(w1) && AllWS(w2) && (k != "" ==> !IsWS(k[0]))
    ensures SkipKey(PutString(key, w1 + ([':'] + (w2 + k)))) == Str(Decoded(key), k)
  {
    StringBack(key, w1 + ([':'] + (w2 + k)));
    SkipWSBack(w1, [':'] + (w2 + k));
    SkipWSBack(w2, k);
    assert ([':'] + (w2 + k))[1..] == w2 + k;
  }

  lemma {:induction false} ItemsStart(items: Items, k: string)
    requires ValidItems(items)
    ensures PutItems(items, k) != "" && !IsDelimiter(PutItems(items, k)[0])
  {
    match items
    case LastItem(v, w) => PutStarts(v, w + ([']'] + k));
    case MoreItems(v, w, w', rest) => PutStarts(v, w + ([','] + (w' + PutItems(rest, k))));
  }

  lemma {:induction false} MembersStart(m: Members, k: string)
    ensures PutMembers(m, k) != "" && PutMembers(m, k)[0] == '"'
  {
  }

  lemma FollowedByWS(v: Json, w: string, c: char, k: string)
    requires AllWS(w) && (c == ',' || c == ']' || c == '}')
    ensures Ends(v, w + ([c] + k))
  {
    if w == "" { assert w + ([c] + k) == [c] + k; }
  }

  /** On the text of any valid value, with any white space, the scanner stops exactly one
      past the value; after a number or a literal it needs a delimiter to see the end. */
  lemma {:induction false} SkipBack(v: Json, k: string)
    requires ValidJson(v)
    ensures SkipValue(Put(v, k)) == At(k) <==> Ends(v, k)
    decreases v, 1
  {
    PutStarts(v, k);
    match v
    case String(elements) => StringBack(elements, k);
    case Atom(text) => AtomBack(text, k);
    case EmptyArray(w) =>
      SkipWSBack(w, [']'] + k);
      assert Put(v, k)[1..] == w + ([']'] + k);
      assert ([']'] + k)[1..] == k;
    case Array(w, items) =>
      ItemsStart(items, k);
      SkipWSBack(w, PutItems(items, k));
      SkipItemsBack(items, k);
      assert Put(v, k)[1..] == w + PutItems(items, k);
    case EmptyObject(w) =>
      SkipWSBack(w, ['}'] + k);
      assert Put(v, k)[1..] == w + (['}'] + k);
      assert (['}'] + k)[1..] == k;
    case Object(w, members) =>
      MembersStart(members, k);
      SkipWSBack(w, PutMembers(members, k));
      SkipMembersBack(members, k);
      assert Put(v, k)[1..] == w + PutMembers(members, k);
  }

  lemma {:induction false} SkipItemsBack(items: Items, k: string)
    requires ValidItems(items)
    ensures SkipItems(PutItems(items, k)) == At(k)
    decreases items, 0
  {
    ItemsStart(items, k);
    match items
    case LastItem(v, w) =>
      FollowedByWS(v, w, ']', k);
      SkipBack(v, w + ([']'] + k));
      CloseBack(w, ']', k);
      ClosedItems(PutItems(items, k), w + ([']'] + k), k);
    case MoreItems(v, w, w', rest) =>
      var more := PutItems(rest, k);
      ItemsStart(rest, k);
      FollowedByWS(v, w, ',', w' + more);
      SkipBack(v, w + ([','] + (w' + more)));
      CommaBack(w, w', more);
      SkipItemsBack(rest, k);
      MoreItemsStep(PutItems(items, k), w + ([','] + (w' + more)), more);
  }

  lemma ClosedItems(s: string, after: string, k: string)
    requires s != "" && !IsDelimiter(s[0]) && SkipValue(s) == At(after) && SkipComma(after) == [']'] + k
    ensures SkipItems(s) == At(k)
  {
    assert ([']'] + k)[1..] == k && ([']'] + k)[0] == ']';
    Progress(s);
  }

  lemma MoreItemsStep(s: string, after: string, more: string)
    requires s != "" && !IsDelimiter(s[0]) && SkipValue(s) == At(after) && SkipComma(after) == more
    ensures SkipItems(s) == SkipItems(more)
  {
    Progress(s);
  }

  lemma {:induction false} SkipMembersBack(m: Members, k: string)
    requires ValidMembers(m)
    ensures SkipMembers(PutMembers(m, k)) == At(k)
    decreases m, 0
  {
    MembersStart(m, k);
    match m
    case LastMember(key, w1, w2, v, w3) =>
      var after := w3 + (['}'] + k);
      PutStarts(v, after);
      KeyBack(key, w1, w2, Put(v, after));
      FollowedByWS(v, w3, '}', k);
      SkipBack(v, after);
      CloseBack(w3, '}', k);
      MemberStep(PutMembers(m, k), Put(v, after), after);
      assert (['}'] + k)[1..] == k;
    case MoreMembers(key, w1, w2, v, w3, w4, rest) =>
      var more := PutMembers(rest, k);
      var after := w3 + ([','] + (w4 + more));
      MembersStart(rest, k);
      PutStarts(v, after);
      KeyBack(key, w1, w2, Put(v, after));
      FollowedByWS(v, w3, ',', w4 + more);
      SkipBack(v, after);
      CommaBack(w3, w4, more);
      SkipMembersBack(rest, k);
      MemberStep(PutMembers(m, k), Put(v, after), after);
  }

  lemma MemberStep(s: string, value: string, after: string)
    requires s != "" && s[0] == '"' && SkipKey(s).Str? && SkipKey(s).rest == value && SkipValue(value) == At(after)
    ensures SkipMembers(s) == SkipMembers(SkipComma(after))
  {
  }

  /** The array loop makes no progress exactly where an item should start with '}' (or
      has already moved past the text): any other value takes at least one character. */
  lemma Progress(s: string)
    requires s != "" && s[0] != ']' && !IsWS(s[0]) && SkipValue(s).At?
    ensures |SkipComma(SkipValue(s).rest)| == |s| <==> s[0] == '}'
  {
    if s[0] == '}' {
      assert SkipAtom(s) == s;
      assert SkipComma(s) == s;
    }
  }

  /** So '}' inside an array loops for ever, whatever follows. */
  lemma EndlessArray(k: string)
    ensures SkipValue("[}" + k) == Endless
  {
    var s := "[}" + k;
    assert s[1..] == "}" + k;
    assert SkipWS(s[1..]) == s[1..];
    Progress(s[1..]);
    assert SkipAtom(s[1..]) == s[1..];
  }

  // ---------- \u escapes ----------

  /** The UTF-16 unit that four hex digits stand for. */
  function UnitOf(digits: string): (u: int)
    requires ValidElement(Hex(digits))
    ensures 0 <= u < 0x1_0000
  {
    EscapeJson.FourHex([digits[0] as int, digits[1] as int, digits[2] as int, digits[3] as int])
  }

  /** The bytes of a code point, written as characters. */
  function Utf8(r: int): (t: string)
    requires EscapeJson.IsScalar(r)
    ensures 1 <= |t| <= 4
  {
    var b := EscapeJson.EncodeRune(r);
    seq(|b|, i requires 0 <= i < |b| => b[i] as char)
  }

  /** Two \u escapes that stand for one character, if s starts with such. */
  predicate StartsPair(s: seq<Element>)
    requires ValidString(s)
  {
    && |s| > 1 && s[0].Hex? && s[1].Hex?
    && EscapeJson.IsHigh(UnitOf(s[0].digits)) && EscapeJson.IsLow(UnitOf(s[1].digits))
  }

  /** A string's text when \u escapes are replaced by what they stand for (section 7 of
      RFC 8259): surrogate pairs by one character, other units by their own. The standard
      leaves open what an unpaired surrogate gives; lone says it, in at most four bytes. */
  function StandardText(s: seq<Element>, lone: int -> string): string
    requires ValidString(s)
  {
    if s == [] then ""
    else if StartsPair(s) then
      var high, low := UnitOf(s[0].digits), UnitOf(s[1].digits);
      Utf8(0x1_0000 + (high - 0xD800) * 0x400 + (low - 0xDC00)) + StandardText(s[2..], lone)
    else if s[0].Hex? then
      var u := UnitOf(s[0].digits);
      (if EscapeJson.IsScalar(u) then Utf8(u) else lone(u)) + StandardText(s[1..], lone)
    else ElementMeaning(s[0]) + StandardText(s[1..], lone)
  }

  predicate NoHex(s: seq<Element>) { forall i :: 0 <= i < |s| ==> !s[i].Hex? }

  lemma NoHexTail(s: seq<Element>)
    requires s != []
    ensures NoHex(s) <==> !s[0].Hex? && NoHex(s[1..])
  {
    if !s[0].Hex? && NoHex(s[1..]) {
      assert forall i :: 0 < i < |s| ==> s[i] == s[1..][i - 1];
    }
  }

  /** The scanner decodes a string as the standard asks exactly when it holds no \u escape. */
  lemma {:induction false} DecodedIsStandard(s: seq<Element>, lone: int -> string)
    requires ValidString(s) && forall u :: |lone(u)| <= 4
    ensures |StandardText(s, lone)| <= |Decoded(s)|
    ensures StandardText(s, lone) == Decoded(s) <==> NoHex(s)
    ensures !NoHex(s) ==> |StandardText(s, lone)| < |Decoded(s)|
  {
    hide EscapeJson.EncodeRune, UnitOf, Utf8;
    if s != [] {
      NoHexTail(s);
      if StartsPair(s) {
        assert s[1..][1..] == s[2..];
        assert |ElementMeaning(s[0])| == 6 && |ElementMeaning(s[1])| == 6;
        assert Decoded(s) == ElementMeaning(s[0]) + (ElementMeaning(s[1]) + Decoded(s[2..]));
        DecodedIsStandard(s[2..], lone);
      } else {
        DecodedIsStandard(s[1..], lone);
        if s[0].Hex? { assert |ElementMeaning(s[0])| == 6; }
      }
    }
  }

  // ---------- objects ----------

  lemma {:induction false} PutElementsCat(s: seq<Element>, k: string, l: string)
    ensures PutElements(s, k + l) == PutElements(s, k) + l
  {
    if s != [] {
      PutElementsCat(s[1..], k, l);
      Assoc(ElementText(s[0]), PutElements(s[1..], k), l);
    }
  }

  lemma PutStringCat(s: seq<Element>, k: string, l: string)
    ensures PutString(s, k + l) == PutString(s, k) + l
  {
    PutElementsCat(s, ['"'] + k, l);
    Assoc(['"'], k, l);
    Assoc(['"'], PutElements(s, ['"'] + k), l);
  }

  lemma CatThrough(w: string, c: char, k: string, l: string)
    ensures w + ([c] + (k + l)) == (w + ([c] + k)) + l
  {
    Assoc([c], k, l);
    Assoc(w, [c] + k, l);
  }

  /** Printing before k is printing, then k. */
  lemma {:induction false} PutCat(v: Json, k: string, l: string)
    ensures Put(v, k + l) == Put(v, k) + l
    decreases v, 1
  {
    match v
    case String(elements) => PutStringCat(elements, k, l);
    case Atom(text) => Assoc(text, k, l);
    case EmptyArray(w) =>
      CatThrough(w, ']', k, l);
      Assoc(['['], w + ([']'] + k), l);
    case Array(w, items) =>
      PutItemsCat(items, k, l);
      Assoc(w, PutItems(items, k), l);
      Assoc(['['], w + PutItems(items, k), l);
    case EmptyObject(w) =>
      CatThrough(w, '}', k, l);
      Assoc(['{'], w + (['}'] + k), l);
    case Object(w, members) =>
      PutMembersCat(members, k, l);
      Assoc(w, PutMembers(members, k), l);
      Assoc(['{'], w + PutMembers(members, k), l);
  }

  lemma {:induction false} PutItemsCat(items: Items, k: string, l: string)
    ensures PutItems(items, k + l) == PutItems(items, k) + l
    decreases items, 0
  {
    match items
    case LastItem(v, w) =>
      CatThrough(w, ']', k, l);
      PutCat(v, w + ([']'] + k), l);
    case MoreItems(v, w, w', rest) =>
      PutItemsCat(rest, k, l);
      Assoc(w', PutItems(rest, k), l);
      CatThrough(w, ',', w' + PutItems(rest, k), l);
      PutCat(v, w + ([','] + (w' + PutItems(rest, k))), l);
  }

  lemma {:induction false} PutMembersCat(m: Members, k: string, l: string)
    ensures PutMembers(m, k + l) == PutMembers(m, k) + l
    decreases m, 0
  {
    var after := match m
      case LastMember(_, _, _, _, w3) => w3 + (['}'] + k)
      case MoreMembers(_, _, _, _, w3, w4, rest) => w3 + ([','] + (w4 + PutMembers(rest, k)));
    match m {
      case LastMember(_, _, _, _, w3) =>
        CatThrough(w3, '}', k, l);
      case MoreMembers(_, _, _, _, w3, w4, rest) =>
        PutMembersCat(rest, k, l);
        Assoc(w4, PutMembers(rest, k), l);
        CatThrough(w3, ',', w4 + PutMembers(rest, k), l);
    }
    PutCat(m.v, after, l);
    Assoc(m.w2, Put(m.v, after), l);
    CatThrough(m.w1, ':', m.w2 + Put(m.v, after), l);
    PutStringCat(m.key, m.w1 + ([':'] + (m.w2 + Put(m.v, after))), l);
  }

  /** A value is read as what it means: a string decoded, anything else its own text. */
  lemma ReadBack(v: Json, k: string)
    requires ValidJson(v) && Ends(v, k)
    ensures ReadValue(Put(v, k)) == JsonScanner.Text(Meaning(v), k)
  {
    PutStarts(v, k);
    if v.String? {
      StringBack(v.elements, k);
    } else {
      SkipBack(v, k);
      PutCat(v, "", k);
      assert "" + k == k;
      assert (Text(v) + k)[..|Text(v)|] == Text(v);
    }
  }

  lemma PairStep(s: string, key: string, value: string, text: string, after: string)
    requires s != "" && s[0] == '"' && SkipKey(s) == Str(key, value)
             && ReadValue(value) == JsonScanner.Text(text, after)
    ensures var more := ParsePairs(SkipComma(after)); ParsePairs(s) == Parsed([(key, text)] + more.pairs, more.status)
  {
  }

  lemma {:induction false} PairsBack(m: Members, k: string)
    requires ValidMembers(m)
    ensures ParsePairs(PutMembers(m, k)) == Parsed(MemberPairs(m), Success)
  {
    hide ReadValue, SkipKey, ParsePairs, Put, PutString, SkipComma, Meaning;
    MembersStart(m, k);
    match m
    case LastMember(key, w1, w2, v, w3) =>
      var after := w3 + (['}'] + k);
      PutStarts(v, after);
      KeyBack(key, w1, w2, Put(v, after));
      FollowedByWS(v, w3, '}', k);
      ReadBack(v, after);
      CloseBack(w3, '}', k);
      PairStep(PutMembers(m, k), Decoded(key), Put(v, after), Meaning(v), after);
      NoMorePairs(k);
    case MoreMembers(key, w1, w2, v, w3, w4, rest) =>
      var more := PutMembers(rest, k);
      var after := w3 + ([','] + (w4 + more));
      MembersStart(rest, k);
      PutStarts(v, after);
      KeyBack(key, w1, w2, Put(v, after));
      FollowedByWS(v, w3, ',', w4 + more);
      ReadBack(v, after);
      CommaBack(w3, w4, more);
      PairsBack(rest, k);
      PairStep(PutMembers(m, k), Decoded(key), Put(v, after), Meaning(v), after);
  }

  lemma NoMorePairs(k: string)
    ensures ParsePairs(['}'] + k) == Parsed([], Success)
  {
  }

  /** An object's text, with any white space before it and anything after it, is read as
      its members in order. */
  lemma ObjectBack(w: string, v: Json, k: string)
    requires AllWS(w) && ValidJson(v) && (v.Object? || v.EmptyObject?)
    ensures ParseObject(w + Put(v, k)) == Parsed(if v.Object? then MemberPairs(v.members) else [], Success)
  {
    PutStarts(v, k);
    SkipWSBack(w, Put(v, k));
    if v.Object? {
      MembersStart(v.members, k);
      SkipWSBack(v.w, PutMembers(v.members, k));
      PairsBack(v.members, k);
      assert Put(v, k)[1..] == v.w + PutMembers(v.members, k);
    } else {
      SkipWSBack(v.w, ['}'] + k);
      assert Put(v, k)[1..] == v.w + (['}'] + k);
    }
  }

  // ---------- the last one wins ----------

  /** The last value given to a name, if any. */
  function LastOf(pairs: seq<(string, string)>, name: string): Option<string>
    decreases |pairs|
  {
    if pairs == [] then None
    else if pairs[|pairs| - 1].0 == name then Some(pairs[|pairs| - 1].1)
    else LastOf(pairs[..|pairs| - 1], name)
  }

  lemma {:induction false} AssignSnoc(args: map<string, string>, pairs: seq<(string, string)>, p: (string, string))
    ensures Assign(args, pairs + [p]) == Assign(args, pairs)[p.0 := p.1]
    decreases |pairs|
  {
    if pairs == [] {
      assert (pairs + [p])[1..] == [];
    } else {
      assert (pairs + [p])[1..] == pairs[1..] + [p];
      AssignSnoc(args[pairs[0].0 := pairs[0].1], pairs[1..], p);
    }
  }

  /** Assigning in order: each name holds the last value given to it, and every other name
      what it held before. */
  lemma {:induction false} LastWins(args: map<string, string>, pairs: seq<(string, string)>, name: string)
    ensures var r, last := Assign(args, pairs), LastOf(pairs, name);
            if last.Some? then name in r && r[name] == last.value
            else (name in r <==> name in args) && (name in args ==> r[name] == args[name])
    decreases |pairs|
  {
    if pairs != [] {
      var n := |pairs| - 1;
      assert pairs == pairs[..n] + [pairs[n]];
      AssignSnoc(args, pairs[..n], pairs[n]);
      LastWins(args, pairs[..n], name);
    }
  }

  /** What Args holds after an object's text: for each name the meaning of its last member,
      and for a name without a member what was there before. */
  lemma ArgsAfterObject(args: map<string, string>, w: string, v: Json, k: string, name: string)
    requires AllWS(w) && ValidJson(v) && v.Object?
    ensures var r, last := Assign(args, ParseObject(w + Put(v, k)).pairs), LastOf(MemberPairs(v.members), name);
            if last.Some? then name in r && r[name] == last.value
            else (name in r <==> name in args) && (name in args ==> r[name] == args[name])
  {
    ObjectBack(w, v, k);
    LastWins(args, MemberPairs(v.members), name);
  }
}
