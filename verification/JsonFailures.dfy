/** Where parseJSONObject of internal/server/server.go stops on text that is not an object:
    what was read before stays read, and what comes next decides how it ends. */
module JsonFailures {
  import opened Bytes
  import opened JsonScanner
  import opened JsonText

  /** A member and the comma after it, with white space. */
  datatype Entry = Entry(key: seq<Element>, w1: string, w2: string, v: Json, w3: string, w4: string)

  predicate ValidEntry(e: Entry) {
    ValidString(e.key) && ValidJson(e.v) && AllWS(e.w1) && AllWS(e.w2) && AllWS(e.w3) && AllWS(e.w4)
  }

  predicate ValidEntries(entries: seq<Entry>) { forall i :: 0 <= i < |entries| ==> ValidEntry(entries[i]) }

  function PutEntry(e: Entry, k: string): string {
    PutString(e.key, e.w1 + ([':'] + (e.w2 + Put(e.v, e.w3 + ([','] + (e.w4 + k))))))
  }

  function PutEntries(entries: seq<Entry>, k: string): string {
    if entries == [] then k else PutEntry(entries[0], PutEntries(entries[1..], k))
  }

  function EntryPairs(entries: seq<Entry>): seq<(string, string)>
    requires ValidEntries(entries)
  {
    if entries == [] then []
    else [(Decoded(entries[0].key), Meaning(entries[0].v))] + EntryPairs(entries[1..])
  }

  lemma EntryBack(e: Entry, k: string)
    requires ValidEntry(e) && (k != "" ==> !IsWS(k[0]))
    ensures var more := ParsePairs(k);
            ParsePairs(PutEntry(e, k)) == Parsed([(Decoded(e.key), Meaning(e.v))] + more.pairs, more.status)
  {
    hide ReadValue, SkipKey, Put, SkipComma, Meaning;
    var after := e.w3 + ([','] + (e.w4 + k));
    PutStarts(e.v, after);
    KeyBack(e.key, e.w1, e.w2, Put(e.v, after));
    FollowedByWS(e.v, e.w3, ',', e.w4 + k);
    ReadBack(e.v, after);
    CommaBack(e.w3, e.w4, k);
    PairStep(PutEntry(e, k), Decoded(e.key), Put(e.v, after), Meaning(e.v), after);
  }

  lemma {:induction false} EntriesStart(entries: seq<Entry>, k: string)
    requires k != "" ==> !IsWS(k[0])
    ensures PutEntries(entries, k) != "" ==> !IsWS(PutEntries(entries, k)[0])
  {
  }

  lemma {:induction false} EntriesBack(entries: seq<Entry>, k: string)
    requires ValidEntries(entries) && (k != "" ==> !IsWS(k[0]))
    ensures var more := ParsePairs(k);
            ParsePairs(PutEntries(entries, k)) == Parsed(EntryPairs(entries) + more.pairs, more.status)
  {
    hide ParsePairs, PutEntry, Decoded, Meaning;
    if entries == [] {
      assert EntryPairs(entries) + ParsePairs(k).pairs == ParsePairs(k).pairs;
    } else {
      EntriesBack(entries[1..], k);
      EntriesStart(entries[1..], k);
      EntryBack(entries[0], PutEntries(entries[1..], k));
      Assoc([(Decoded(entries[0].key), Meaning(entries[0].v))], EntryPairs(entries[1..]), ParsePairs(k).pairs);
    }
  }

  /** What can stand where a member should. */
  datatype Next =
    | Nothing                                        // the text ends
    | Close(k: string)                               // the closing brace
    | NoName(c: char, k: string)                     // something else that is no string
    | OpenName(name: seq<Element>)                   // a string that does not end
    | NoColon(name: seq<Element>, w: string, k: string)
    | NoValueYet(name: seq<Element>, w: string, w': string)

  function NextText(n: Next): string {
    match n
    case Nothing => ""
    case Close(k) => ['}'] + k
    case NoName(c, k) => [c] + k
    case OpenName(name) => ['"'] + PutElements(name, "")
    case NoColon(name, w, k) => PutString(name, w + k)
    case NoValueYet(name, w, w') => PutString(name, w + ([':'] + w'))
  }

  predicate ValidNext(n: Next) {
    match n
    case Nothing => true
    case Close(_) => true
    case NoName(c, _) => !IsSpace(c) && c != '"' && c != '}'
    case OpenName(name) => ValidString(name)
    case NoColon(name, w, k) => ValidString(name) && AllWS(w) && (k == "" || (!IsSpace(k[0]) && k[0] != ':'))
    case NoValueYet(name, w, w') => ValidString(name) && AllWS(w) && AllWS(w')
  }

  lemma {:induction false} OpenBody(s: seq<Element>)
    requires ValidString(s)
    ensures ParseBody(PutElements(s, "")) == NoString
  {
    if s != [] {
      OpenBody(s[1..]);
      ElementBack(s[0], PutElements(s[1..], ""));
    }
  }

  lemma NextRead(n: Next)
    requires ValidNext(n)
    ensures NextText(n) != "" ==> !IsWS(NextText(n)[0])
    ensures ParsePairs(NextText(n)) == Parsed([], if n.Nothing? || n.Close? then Success else Failure)
  {
    match n
    case Nothing =>
    case Close(_) =>
    case NoName(_, _) =>
    case OpenName(name) =>
      OpenBody(name);
      assert NextText(n)[1..] == PutElements(name, "");
    case NoColon(name, w, k) =>
      StringBack(name, w + k);
      SkipWSBack(w, k);
    case NoValueYet(name, w, w') =>
      assert w' + "" == w';
      KeyBack(name, w, w', "");
  }

  /** On any members followed by anything of this kind, exactly those members are read, and
      the scan succeeds if and only if the text ends there or the brace is closed. */
  lemma ObjectStops(w: string, w0: string, entries: seq<Entry>, n: Next)
    requires AllWS(w) && AllWS(w0) && ValidEntries(entries) && ValidNext(n)
    ensures ParseObject(w + (['{'] + (w0 + PutEntries(entries, NextText(n)))))
            == Parsed(EntryPairs(entries), if n.Nothing? || n.Close? then Success else Failure)
  {
    var text := PutEntries(entries, NextText(n));
    NextRead(n);
    EntriesStart(entries, NextText(n));
    EntriesBack(entries, NextText(n));
    SkipWSBack(w0, text);
    SkipWSBack(w, ['{'] + (w0 + text));
    assert (['{'] + (w0 + text))[1..] == w0 + text;
    assert EntryPairs(entries) + [] == EntryPairs(entries);
  }

  /** Text that does not start with an opening brace gives nothing. */
  lemma NoObject(w: string, k: string)
    requires AllWS(w) && (k == "" || (!IsSpace(k[0]) && k[0] != '{'))
    ensures ParseObject(w + k) == Parsed([], Failure)
  {
    SkipWSBack(w, k);
  }

  /** Any other character after a backslash stays, with the backslash. */
  lemma OddEscape(c: char, k: string)
    requires c !in {'"', '\\', '/', 'b', 'f', 'n', 'r', 't', 'u'}
    ensures ParseBody(['\\', c] + k) == Prepend(['\\', c], ParseBody(k))
  {
    assert (['\\', c] + k)[2..] == k;
  }
}
