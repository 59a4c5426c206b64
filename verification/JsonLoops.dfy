/** When the JSON scanner of internal/server/server.go never ends: exactly when it meets a
    '}' where an array item should start. */
module JsonLoops {
  import opened Bytes
  import opened JsonScanner
  import opened JsonText

  /** Where the loops of the scanner stand between members or items. */
  predicate AtToken(s: string) { s == "" || !IsWS(s[0]) }

  lemma SkipLeavesToken(s: string)
    ensures AtToken(SkipWS(s)) && AtToken(SkipComma(s))
  {
  }

  /** An item that does not start with '}' takes something, or its comma does. */
  lemma ItemTakes(s: string)
    requires s != "" && AtToken(s) && s[0] != ']' && s[0] != '}' && SkipValue(s).At?
    ensures |SkipComma(SkipValue(s).rest)| < |s|
  {
    Progress(s);
  }

  /** Scanning a value, from its first character, meets a '}' at an item's start. */
  predicate MeetsValue(s: string)
    decreases |s|, 1
  {
    s != "" && (if s[0] == '{' then (SkipLeavesToken(s[1..]); MeetsMembers(SkipWS(s[1..])))
                else s[0] == '[' && (SkipLeavesToken(s[1..]); MeetsItems(SkipWS(s[1..]))))
  }

  predicate MeetsMembers(s: string)
    requires AtToken(s)
    decreases |s|, 2
  {
    s != "" && s[0] != '}' && SkipKey(s).Str?
    && var v := SkipKey(s).rest;
       MeetsValue(v)
       || (SkipValue(v).At? && (SkipLeavesToken(SkipValue(v).rest); MeetsMembers(SkipComma(SkipValue(v).rest))))
  }

  predicate MeetsItems(s: string)
    requires AtToken(s)
    decreases |s|, 2
  {
    s != "" && s[0] != ']'
    && (s[0] == '}' || MeetsValue(s)
        || (SkipValue(s).At? && (SkipLeavesToken(SkipValue(s).rest); ItemTakes(s);
            MeetsItems(SkipComma(SkipValue(s).rest)))))
  }

  /** A scan never ends exactly when it meets a '}' at an item's start. */
  lemma {:induction false} EndlessIff(s: string)
    ensures SkipValue(s) == Endless <==> MeetsValue(s)
    decreases |s|, 1
  {
    if s != "" && s[0] == '{' {
      SkipLeavesToken(s[1..]);
      EndlessMembers(SkipWS(s[1..]));
    } else if s != "" && s[0] == '[' {
      SkipLeavesToken(s[1..]);
      EndlessItems(SkipWS(s[1..]));
    }
  }

  lemma {:induction false} EndlessMembers(s: string)
    requires AtToken(s)
    ensures SkipMembers(s) == Endless <==> MeetsMembers(s)
    decreases |s|, 2
  {
    if s != "" && s[0] != '}' && SkipKey(s).Str? {
      var v := SkipKey(s).rest;
      EndlessIff(v);
      if SkipValue(v).At? {
        SkipLeavesToken(SkipValue(v).rest);
        EndlessMembers(SkipComma(SkipValue(v).rest));
      }
    }
  }

  lemma {:induction false} EndlessItems(s: string)
    requires AtToken(s)
    ensures SkipItems(s) == Endless <==> MeetsItems(s)
    decreases |s|, 2
  {
    if s != "" && s[0] == '}' {
      BraceTakesNothing(s);
    } else if s != "" && s[0] != ']' {
      EndlessIff(s);
      if SkipValue(s).At? {
        SkipLeavesToken(SkipValue(s).rest);
        ItemTakes(s);
        EndlessItems(SkipComma(SkipValue(s).rest));
      }
    }
  }

  lemma BraceTakesNothing(s: string)
    requires s != "" && s[0] == '}'
    ensures SkipItems(s) == Endless
  {
    assert SkipAtom(s) == s;
    Progress(s);
  }

  /** The member loop of the entry point meets such a '}' in a member's value. */
  predicate MeetsPairs(s: string)
    requires AtToken(s)
    decreases |s|
  {
    s != "" && s[0] != '}' && SkipKey(s).Str?
    && var v := SkipKey(s).rest;
       MeetsValue(v)
       || (ReadValue(v).Text? && (SkipLeavesToken(ReadValue(v).rest); MeetsPairs(SkipComma(ReadValue(v).rest))))
  }

  predicate MeetsObject(s: string) {
    var t := SkipWS(s);
    t != "" && t[0] == '{' && (SkipLeavesToken(t[1..]); MeetsPairs(SkipWS(t[1..])))
  }

  lemma {:induction false} PairsLoopIff(s: string)
    requires AtToken(s)
    ensures ParsePairs(s).status == Looping <==> MeetsPairs(s)
    decreases |s|
  {
    if s != "" && s[0] != '}' && SkipKey(s).Str? {
      var v := SkipKey(s).rest;
      EndlessIff(v);
      ReadsEndlessly(v);
      if ReadValue(v).Text? {
        SkipLeavesToken(ReadValue(v).rest);
        PairsLoopIff(SkipComma(ReadValue(v).rest));
      }
    }
  }

  lemma ReadsEndlessly(v: string)
    ensures ReadValue(v) == NoValue(Looping) <==> SkipValue(v) == Endless
  {
  }

  /** parseJSONObject does not return exactly on the texts that meet such a '}'. */
  lemma ObjectLoopsIff(s: string)
    ensures ParseObject(s).status == Looping <==> MeetsObject(s)
  {
    var t := SkipWS(s);
    if t != "" && t[0] == '{' {
      SkipLeavesToken(t[1..]);
      PairsLoopIff(SkipWS(t[1..]));
    }
  }

  /** For example on an object whose first member is "[}", whatever its key and whatever
      follows. */
  lemma LoopingObject(key: seq<Element>, k: string)
    requires ValidString(key)
    ensures ParseObject(['{'] + PutString(key, [':'] + ("[}" + k))).status == Looping
  {
    var value := "[}" + k;
    var s := PutString(key, [':'] + value);
    var text := ['{'] + s;
    assert "" + ([':'] + ("" + value)) == [':'] + value by { assert "" + value == value; }
    KeyBack(key, "", "", value);
    EndlessArray(k);
    ReadsEndlessly(value);
    assert text[1..] == s && s[0] == '"';
    assert SkipWS(text) == text && SkipWS(s) == s;
  }
}
