/** The scanner of internal/server/server.go on text that is cut short: what it finds of a
    value is decided by the value's own characters, and every cut inside one is noticed. */
module JsonCuts {
  import opened JsonScanner
  import opened JsonText

  /** What is left of n characters after m of them. */
  function Less(n: nat, m: nat): nat { if n < m then 0 else n - m }

  /** How many characters of s stand before rest. */
  function Taken(s: string, rest: string): nat
    requires |rest| <= |s|
  {
    |s| - |rest|
  }

  lemma CutTail(s: string, n: nat)
    requires 0 < n <= |s|
    ensures s[..n] != "" && s[..n][0] == s[0] && s[..n][1..] == s[1..][..n - 1]
  {
  }

  lemma {:induction false} SpaceCut(s: string, n: nat)
    requires n <= |s|
    ensures SkipWS(s[..n]) == SkipWS(s)[..Less(n, Taken(s, SkipWS(s)))]
  {
    if n > 0 {
      CutTail(s, n);
      if IsWS(s[0]) { SpaceCut(s[1..], n - 1); }
    }
  }

  lemma {:induction false} AtomCut(s: string, n: nat)
    requires n <= |s|
    ensures SkipAtom(s[..n]) == SkipAtom(s)[..Less(n, Taken(s, SkipAtom(s)))]
  {
    if n > 0 {
      CutTail(s, n);
      if !IsDelimiter(s[0]) { AtomCut(s[1..], n - 1); }
    }
  }

  lemma CommaCut(s: string, n: nat)
    requires n <= |s|
    ensures SkipComma(s[..n]) == SkipComma(s)[..Less(n, Taken(s, SkipComma(s)))]
  {
    var t, n' := SkipWS(s), Less(n, Taken(s, SkipWS(s)));
    SpaceCut(s, n);
    if n' > 0 {
      CutTail(t, n');
      if t[0] == ',' { SpaceCut(t[1..], n' - 1); }
    }
  }

  /** Where a string reads on after its first character, or after an escape as a whole. */
  function Chunk(s: string): (k: nat)
    requires s != ""
    ensures 1 <= k <= |s|
  {
    if s[0] != '\\' || |s| == 1 then 1 else if s[1] != 'u' then 2 else if |s| < 6 then |s| else 6
  }

  function ChunkText(s: string): string
    requires s != ""
  {
    if Chunk(s) == 2 && s[1] != 'u' then Unescape(s[1]) else s[..Chunk(s)]
  }

  lemma BodyChunk(s: string)
    requires s != "" && s[0] != '"'
    ensures ParseBody(s) == Prepend(ChunkText(s), ParseBody(s[Chunk(s)..]))
  {
    if Chunk(s) == 1 { assert s[..1] == [s[0]]; }
  }

  lemma ChunkCut(s: string, n: nat)
    requires s != "" && Chunk(s) <= n <= |s|
    ensures Chunk(s[..n]) == Chunk(s) && ChunkText(s[..n]) == ChunkText(s)
  {
    var k := Chunk(s);
    assert s[..n][..k] == s[..k];
  }

  lemma {:induction false} BodyCut(s: string, n: nat)
    requires n <= |s| && ParseBody(s).Str?
    ensures var r := ParseBody(s); var m := Taken(s, r.rest);
            ParseBody(s[..n]) == if n < m then NoString else Str(r.value, r.rest[..n - m])
  {
    if n > 0 {
      CutTail(s, n);
      if s[0] != '"' {
        var k := Chunk(s);
        BodyChunk(s);
        if n < k {
          CutEscape(s[..n]);
        } else {
          hide ParseBody, Chunk, ChunkText;
          BodyCut(s[k..], n - k);
          ChunkCut(s, n);
          BodyChunk(s[..n]);
          assert s[..n][k..] == s[k..][..n - k];
        }
      }
    }
  }

  /** An escape that the text ends in. */
  lemma CutEscape(p: string)
    requires p != "" && p[0] == '\\' && |p| < 6 && (|p| > 1 ==> p[1] == 'u')
    ensures ParseBody(p) == NoString
  {
    assert |p| == 1 ==> p[1..] == "";
    assert p[|p|..] == "";
  }

  lemma StringCut(s: string, n: nat)
    requires n <= |s| && ParseString(s).Str?
    ensures var r := ParseString(s); var m := Taken(s, r.rest);
            ParseString(s[..n]) == if n < m then NoString else Str(r.value, r.rest[..n - m])
  {
    if n > 0 {
      CutTail(s, n);
      BodyCut(s[1..], n - 1);
    }
  }

  lemma KeyCut(s: string, n: nat)
    requires n <= |s| && SkipKey(s).Str?
    ensures var r := SkipKey(s); var m := Taken(s, r.rest);
            || (n < m && SkipKey(s[..n]) == NoString)
            || SkipKey(s[..n]) == Str(r.value, r.rest[..Less(n, m)])
  {
    hide ParseString, SkipWS;
    var key := ParseString(s);
    StringCut(s, n);
    var m := Taken(s, key.rest);
    if n >= m {
      SpaceCut(key.rest, n - m);
      var t := SkipWS(key.rest);
      var n' := Less(n - m, Taken(key.rest, t));
      if n' > 0 {
        CutTail(t, n');
        SpaceCut(t[1..], n' - 1);
      }
    }
  }

  /** A string, an object or an array. */
  predicate Delimited(s: string) { s != "" && s[0] in {'"', '{', '['} }

  /** If the scan of a text ends, then on the first n characters of it: with none there is
      nothing to read; a string, an object or an array is found if and only if it is there to
      its last character, with the same end; anything else ends where it did or where the
      text does. */
  lemma {:induction false} ValueCut(s: string, n: nat)
    requires n <= |s| && SkipValue(s).At?
    ensures var rest := SkipValue(s).rest; var m := Taken(s, rest);
            SkipValue(s[..n]) == if n == 0 || (Delimited(s) && n < m) then Bad else At(rest[..Less(n, m)])
    decreases |s|, 1
  {
    hide ParseString, SkipAtom, SkipWS, SkipMembers, SkipItems;
    if n > 0 {
      CutTail(s, n);
      if s[0] == '"' {
        StringCut(s, n);
      } else if s[0] == '{' || s[0] == '[' {
        var t := SkipWS(s[1..]);
        SpaceCut(s[1..], n - 1);
        var n' := Less(n - 1, Taken(s[1..], t));
        if s[0] == '{' { MembersCut(t, n'); } else { ItemsCut(t, n'); }
      } else {
        AtomCut(s, n);
      }
    }
  }

  lemma {:induction false} MembersCut(s: string, n: nat)
    requires n <= |s| && SkipMembers(s).At?
    ensures |SkipMembers(s).rest| < |s|
    ensures var rest := SkipMembers(s).rest; var m := Taken(s, rest);
            SkipMembers(s[..n]) == if n < m then Bad else At(rest[..n - m])
    decreases |s|, 2
  {
    if s[0] != '}' {
      var key := SkipKey(s);
      var v := SkipValue(key.rest);
      var next := SkipComma(v.rest);
      var a := Less(n, Taken(s, key.rest));
      var b := Less(a, Taken(key.rest, v.rest));
      var c := Less(b, Taken(v.rest, next));
      MembersCut(next, c);
      if n > 0 {
        CutTail(s, n);
        KeyCut(s, n);
        if SkipKey(s[..n]).Str? {
          ValueCut(key.rest, a);
          if SkipValue(key.rest[..a]).At? { CommaCut(v.rest, b); }
        }
      }
    }
  }

  lemma {:induction false} ItemsCut(s: string, n: nat)
    requires n <= |s| && SkipItems(s).At?
    ensures |SkipItems(s).rest| < |s|
    ensures var rest := SkipItems(s).rest; var m := Taken(s, rest);
            SkipItems(s[..n]) == if n < m then Bad else At(rest[..n - m])
    decreases |s|, 2
  {
    if s[0] != ']' {
      var v := SkipValue(s);
      var next := SkipComma(v.rest);
      var b := Less(n, Taken(s, v.rest));
      var c := Less(b, Taken(v.rest, next));
      ItemsCut(next, c);
      if n > 0 {
        CutTail(s, n);
        ValueCut(s, n);
        if SkipValue(s[..n]).At? { CommaCut(v.rest, b); }
      }
    }
  }

  /** So a printed string, array or object that is cut short is never taken for a value. */
  lemma Unfinished(v: Json, n: nat)
    requires ValidJson(v) && !v.Atom? && n < |JsonText.Text(v)|
    ensures SkipValue(JsonText.Text(v)[..n]) == Bad
  {
    SkipBack(v, "");
    PutStarts(v, "");
    ValueCut(JsonText.Text(v), n);
  }

  // ---------- objects ----------

  lemma ReadCut(s: string, n: nat)
    requires n <= |s| && ReadValue(s).Text?
    ensures var r, c := ReadValue(s), ReadValue(s[..n]); var m := Taken(s, r.rest);
            || c == NoValue(Failure)
            || (n >= m && c == JsonScanner.Text(r.text, r.rest[..n - m]))
            || (n < m && c.Text? && c.text <= r.text && c.rest == "")
  {
    if n > 0 {
      CutTail(s, n);
      if s[0] == '"' { StringCut(s, n); } else { ValueCut(s, n); }
    }
  }

  /** What an object cut short gives is the beginning of what the whole would have given. */
  predicate Begins(c: seq<(string, string)>, r: seq<(string, string)>) {
    && |c| <= |r|
    && (forall i :: 0 <= i < |c| ==> c[i].0 == r[i].0 && c[i].1 <= r[i].1)
    && forall i :: 0 <= i < |c| - 1 ==> c[i].1 == r[i].1
  }

  lemma BeginsWith(p: (string, string), q: (string, string), c: seq<(string, string)>, r: seq<(string, string)>)
    requires Begins(c, r) && q.0 == p.0 && q.1 <= p.1 && (q.1 == p.1 || c == [])
    ensures Begins([q] + c, [p] + r)
  {
  }

  lemma {:induction false} PairsCut(s: string, n: nat)
    requires n <= |s| && ParsePairs(s).status == Success
    ensures Begins(ParsePairs(s[..n]).pairs, ParsePairs(s).pairs) && ParsePairs(s[..n]).status != Looping
    decreases |s|
  {
    hide ReadValue, SkipKey, SkipComma;
    if n > 0 {
      CutTail(s, n);
      if s[0] != '}' {
        var key := SkipKey(s);
        var v := ReadValue(key.rest);
        var next := SkipComma(v.rest);
        var a := Less(n, Taken(s, key.rest));
        var b := Less(a, Taken(key.rest, v.rest));
        var c := Less(b, Taken(v.rest, next));
        PairsCut(next, c);
        KeyCut(s, n);
        if SkipKey(s[..n]).Str? {
          ReadCut(key.rest, a);
          var v' := ReadValue(key.rest[..a]);
          if v'.Text? {
            CommaCut(v.rest, b);
            BeginsWith((key.value, v.text), (key.value, v'.text), ParsePairs(next[..c]).pairs, ParsePairs(next).pairs);
          }
        }
      }
    }
  }

  /** An object cut short anywhere gives its first members, the last of them perhaps with its
      value cut short as well. */
  lemma ObjectCut(s: string, n: nat)
    requires n <= |s| && ParseObject(s).status == Success
    ensures Begins(ParseObject(s[..n]).pairs, ParseObject(s).pairs) && ParseObject(s[..n]).status != Looping
  {
    var t := SkipWS(s);
    SpaceCut(s, n);
    var n' := Less(n, Taken(s, t));
    if n' > 0 {
      CutTail(t, n');
      SpaceCut(t[1..], n' - 1);
      PairsCut(SkipWS(t[1..]), Less(n' - 1, Taken(t[1..], SkipWS(t[1..]))));
    }
  }
}
