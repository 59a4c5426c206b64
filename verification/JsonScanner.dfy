/** The hand-written JSON scanner of internal/server/server.go (lines 353-535). Text is a
    sequence of bytes, written as characters. A scan of a suffix answers what is left of
    it; the methods are the source's index loops and are proved against these functions. */
module JsonScanner {
  import opened Bytes

  predicate IsWS(c: char) { c == ' ' || c == '\t' || c == '\n' || c == '\r' }

  predicate IsDelimiter(c: char) { c == ',' || c == '}' || c == ']' || IsWS(c) }

  function SkipWS(s: string): (r: string)
    ensures |r| <= |s|
    ensures r != "" ==> !IsWS(r[0])
  {
    if s != "" && IsWS(s[0]) then SkipWS(s[1..]) else s
  }

  // ---------- strings ----------

  datatype Scan = Str(value: string, rest: string) | NoString

  function Prepend(p: string, r: Scan): Scan {
    match r
    case Str(v, rest) => Str(p + v, rest)
    case NoString => NoString
  }

  function Unescape(c: char): string {
    if c == '"' || c == '\\' || c == '/' then [c]
    else if c == 'n' then "\n"
    else if c == 'r' then "\r"
    else if c == 't' then "\t"
    else if c == 'b' then [8 as char]
    else if c == 'f' then [12 as char]
    else ['\\', c]
  }

  /** After the opening quote. A \u escape is copied as it stands, six bytes of it. */
  function ParseBody(s: string): (r: Scan)
    ensures r.Str? ==> |r.rest| < |s|
  {
    if s == "" then NoString
    else if s[0] == '"' then Str("", s[1..])
    else if s[0] == '\\' && |s| > 1 then
      if s[1] == 'u' then
        var n := if |s| < 6 then |s| else 6;
        Prepend(s[..n], ParseBody(s[n..]))
      else Prepend(Unescape(s[1]), ParseBody(s[2..]))
    else Prepend([s[0]], ParseBody(s[1..]))
  }

  function ParseString(s: string): (r: Scan)
    ensures r.Str? ==> |r.rest| < |s|
  {
    if s == "" || s[0] != '"' then NoString else ParseBody(s[1..])
  }

  // ---------- values ----------

  /** At: what follows the value. Endless: the source's loop makes no progress. */
  datatype Skip = At(rest: string) | Bad | Endless

  function SkipAtom(s: string): (r: string)
    ensures |r| <= |s|
    ensures s != "" && !IsDelimiter(s[0]) ==> |r| < |s|
  {
    if s != "" && !IsDelimiter(s[0]) then SkipAtom(s[1..]) else s
  }

  /** White space, and a comma with white space around it if there is one. */
  function SkipComma(s: string): (r: string)
    ensures |r| <= |s|
  {
    var t := SkipWS(s);
    if t != "" && t[0] == ',' then SkipWS(t[1..]) else t
  }

  function SkipValue(s: string): (r: Skip)
    ensures r.At? ==> |r.rest| <= |s|
    decreases |s|, 1
  {
    if s == "" then Bad
    else if s[0] == '"' then
      var str := ParseString(s);
      if str.Str? then At(str.rest) else Bad
    else if s[0] == '{' then SkipMembers(SkipWS(s[1..]))
    else if s[0] == '[' then SkipItems(SkipWS(s[1..]))
    else At(SkipAtom(s))
  }

  /** key, ':' and white space: what follows is the value. */
  function SkipKey(s: string): (r: Scan)
    ensures r.Str? ==> |r.rest| < |s|
  {
    var key := ParseString(s);
    if key.NoString? then NoString
    else
      var t := SkipWS(key.rest);
      if t == "" || t[0] != ':' then NoString else Str(key.value, SkipWS(t[1..]))
  }

  /** The object loop: s is the text after the opening brace or the last comma. */
  function SkipMembers(s: string): (r: Skip)
    ensures r.At? ==> |r.rest| <= |s|
    decreases |s|, 2
  {
    if s == "" then Bad
    else if s[0] == '}' then At(s[1..])
    else
      var key := SkipKey(s);
      if key.NoString? then Bad
      else
        var v := SkipValue(key.rest);
        if v.At? then SkipMembers(SkipComma(v.rest)) else v
  }

  /** The array loop. Where an item takes nothing and no comma follows, it never ends. */
  function SkipItems(s: string): (r: Skip)
    ensures r.At? ==> |r.rest| <= |s|
    decreases |s|, 2
  {
    if s == "" then Bad
    else if s[0] == ']' then At(s[1..])
    else
      var v := SkipValue(s);
      if !v.At? then v
      else
        var next := SkipComma(v.rest);
        if |next| == |s| then Endless else SkipItems(next)
  }

  // ---------- objects ----------

  datatype Status = Success | Failure | Looping

  /** The assignments to Args in order, and how the scan ended. */
  datatype Parsed = Parsed(pairs: seq<(string, string)>, status: Status)

  datatype Value = Text(text: string, rest: string) | NoValue(status: Status)

  /** A string decoded, anything else as the slice of text it is. */
  function ReadValue(s: string): (r: Value)
    ensures r.Text? ==> |r.rest| <= |s|
    ensures r.NoValue? ==> !r.status.Success?
  {
    if s == "" then NoValue(Failure)
    else if s[0] == '"' then
      var str := ParseString(s);
      if str.Str? then Text(str.value, str.rest) else NoValue(Failure)
    else
      match SkipValue(s)
      case At(rest) => Text(s[..|s| - |rest|], rest)
      case Bad => NoValue(Failure)
      case Endless => NoValue(Looping)
  }

  /** Text that ends before the closing brace is accepted all the same. */
  function ParsePairs(s: string): Parsed
    decreases |s|
  {
    if s == "" || s[0] == '}' then Parsed([], Success)
    else
      var key := SkipKey(s);
      if key.NoString? then Parsed([], Failure)
      else
        var v := ReadValue(key.rest);
        if v.NoValue? then Parsed([], v.status)
        else
          var more := ParsePairs(SkipComma(v.rest));
          Parsed([(key.value, v.text)] + more.pairs, more.status)
  }

  function ParseObject(s: string): Parsed {
    var t := SkipWS(s);
    if t == "" || t[0] != '{' then Parsed([], Failure) else ParsePairs(SkipWS(t[1..]))
  }

  function Assign(args: map<string, string>, pairs: seq<(string, string)>): map<string, string>
    decreases |pairs|
  {
    if pairs == [] then args else Assign(args[pairs[0].0 := pairs[0].1], pairs[1..])
  }

  // ---------- the source's loops ----------

  lemma Suffix(s: string, i: nat)
    requires i < |s|
    ensures s[i..] == [s[i]] + s[i + 1..] && s[i..][1..] == s[i + 1..]
  {
  }

  method SkipWhite(data: string, i: nat) returns (j: nat)
    requires i <= |data|
    ensures i <= j <= |data| && data[j..] == SkipWS(data[i..])
  {
    j := i;
    while j < |data| && IsWS(data[j])
      invariant i <= j <= |data| && SkipWS(data[j..]) == SkipWS(data[i..])
    {
      Suffix(data, j);
      j := j + 1;
    }
  }

  lemma PrependTwice(p: string, q: string, r: Scan)
    ensures Prepend(p, Prepend(q, r)) == Prepend(p + q, r)
  {
    if r.Str? { Assoc(p, q, r.value); }
  }

  /** What one round of the string loop copies and how far it goes. */
  method CopyOne(data: string, i: nat) returns (copied: string, next: nat)
    requires i < |data| && data[i] != '"'
    ensures i < next <= |data|
    ensures ParseBody(data[i..]) == Prepend(copied, ParseBody(data[next..]))
  {
    Suffix(data, i);
    if data[i] == '\\' && i + 1 < |data| {
      Suffix(data, i + 1);
      if data[i + 1] == 'u' {
        next := if i + 6 < |data| then i + 6 else |data|;
        copied := data[i..next];
        assert data[i..][..next - i] == copied && data[i..][next - i..] == data[next..];
      } else {
        copied, next := Unescape(data[i + 1]), i + 2;
        assert data[i..][2..] == data[next..];
      }
    } else {
      copied, next := [data[i]], i + 1;
    }
  }

  method ParseJSONString(data: string, start: nat) returns (val: Option<string>, end: nat)
    requires start <= |data|
    ensures match ParseString(data[start..])
            case NoString => val == None
            case Str(v, rest) => val == Some(v) && start < end <= |data| && data[end..] == rest
  {
    val, end := None, start;
    if start >= |data| || data[start] != '"' { return; }
    Suffix(data, start);
    var i := start + 1;
    var buf := "";
    while i < |data|
      invariant start < i <= |data|
      invariant ParseString(data[start..]) == Prepend(buf, ParseBody(data[i..]))
    {
      if data[i] == '"' {
        Suffix(data, i);
        assert buf + "" == buf;
        return Some(buf), i + 1;
      }
      var copied, next := CopyOne(data, i);
      PrependTwice(buf, copied, ParseBody(data[next..]));
      buf, i := buf + copied, next;
    }
  }

  /** Where a scan ended: a position, or why there is none. */
  datatype Outcome = Stop(pos: nat) | Error | NoProgress

  predicate Matches(data: string, o: Outcome, r: Skip) {
    match r
    case At(rest) => o.Stop? && o.pos <= |data| && data[o.pos..] == rest
    case Bad => o.Error?
    case Endless => o.NoProgress?
  }

  method SkipDelimited(data: string, i: nat) returns (j: nat)
    requires i <= |data|
    ensures i <= j <= |data| && data[j..] == SkipAtom(data[i..])
  {
    j := i;
    while j < |data| && data[j] != ',' && data[j] != '}' && data[j] != ']' && !IsWS(data[j])
      invariant i <= j <= |data| && SkipAtom(data[j..]) == SkipAtom(data[i..])
    {
      Suffix(data, j);
      j := j + 1;
    }
  }

  method SkipSeparator(data: string, i: nat) returns (j: nat)
    requires i <= |data|
    ensures i <= j <= |data| && data[j..] == SkipComma(data[i..])
  {
    j := SkipWhite(data, i);
    if j < |data| && data[j] == ',' {
      Suffix(data, j);
      j := SkipWhite(data, j + 1);
    }
  }

  method SkipName(data: string, i: nat) returns (key: Option<string>, j: nat)
    requires i <= |data|
    ensures match SkipKey(data[i..])
            case NoString => key == None
            case Str(k, rest) => key == Some(k) && i < j <= |data| && data[j..] == rest
  {
    key, j := ParseJSONString(data, i);
    if key.None? { return; }
    j := SkipWhite(data, j);
    if j >= |data| || data[j] != ':' { return None, j; }
    Suffix(data, j);
    j := SkipWhite(data, j + 1);
  }

  method SkipJSONValue(data: string, i: nat) returns (o: Outcome)
    requires i <= |data|
    ensures Matches(data, o, SkipValue(data[i..])) && (o.Stop? ==> o.pos >= i)
    decreases |data| - i, 1
  {
    if i >= |data| { return Error; }
    Suffix(data, i);
    if data[i] == '"' {
      var val, end := ParseJSONString(data, i);
      o := if val.Some? then Stop(end) else Error;
    } else if data[i] == '{' {
      o := SkipObject(data, i);
    } else if data[i] == '[' {
      o := SkipArray(data, i);
    } else {
      var end := SkipDelimited(data, i);
      o := Stop(end);
    }
  }

  method SkipObject(data: string, start: nat) returns (o: Outcome)
    requires start < |data| && data[start] == '{'
    ensures Matches(data, o, SkipValue(data[start..])) && (o.Stop? ==> o.pos >= start)
    decreases |data| - start, 0
  {
    Suffix(data, start);
    var i := SkipWhite(data, start + 1);
    while i < |data| && data[i] != '}'
      invariant start < i <= |data| && SkipMembers(data[i..]) == SkipValue(data[start..])
    {
      var key, v := SkipName(data, i);
      if key.None? { return Error; }
      var value := SkipJSONValue(data, v);
      if !value.Stop? { return value; }
      i := SkipSeparator(data, value.pos);
    }
    if i >= |data| { return Error; }
    Suffix(data, i);
    o := Stop(i + 1);
  }

  method SkipArray(data: string, start: nat) returns (o: Outcome)
    requires start < |data| && data[start] == '['
    ensures Matches(data, o, SkipValue(data[start..])) && (o.Stop? ==> o.pos >= start)
    decreases |data| - start, 0
  {
    Suffix(data, start);
    var i := SkipWhite(data, start + 1);
    while i < |data| && data[i] != ']'
      invariant start < i <= |data| && SkipItems(data[i..]) == SkipValue(data[start..])
    {
      var value := SkipJSONValue(data, i);
      if !value.Stop? { return value; }
      var next := SkipSeparator(data, value.pos);
      if next == i { return NoProgress; }  // where the source's loop would never end
      i := next;
    }
    if i >= |data| { return Error; }
    Suffix(data, i);
    o := Stop(i + 1);
  }

  method TakeValue(data: string, v: nat) returns (text: Option<string>, end: nat, status: Status)
    requires v <= |data|
    ensures match ReadValue(data[v..])
            case NoValue(st) => text == None && status == st
            case Text(t, rest) => text == Some(t) && end <= |data| && data[end..] == rest
  {
    text, end, status := None, v, Failure;
    if v >= |data| { return; }
    Suffix(data, v);
    if data[v] == '"' {
      text, end := ParseJSONString(data, v);
    } else {
      var o := SkipJSONValue(data, v);
      if o.NoProgress? {
        status := Looping;
      } else if o.Stop? {
        text, end := Some(data[v..o.pos]), o.pos;
        assert data[v..][..o.pos - v] == data[v..o.pos];
      }
    }
  }

  lemma AssignMore(args: map<string, string>, key: string, text: string, more: seq<(string, string)>)
    ensures Assign(args, [(key, text)] + more) == Assign(args[key := text], more)
  {
    var pairs := [(key, text)] + more;
    assert pairs[0] == (key, text) && pairs[1..] == more;
  }

  class Query {
    var args: map<string, string>

    constructor (args: map<string, string>)
      ensures this.args == args
    {
      this.args := args;
    }

    method ParseJSONObject(data: string) returns (status: Status)
      modifies this
      ensures var p := ParseObject(data);
              status == p.status && args == Assign(old(args), p.pairs)
    {
      assert data[0..] == data;
      var i := SkipWhite(data, 0);
      if i >= |data| || data[i] != '{' { return Failure; }
      Suffix(data, i);
      i := SkipWhite(data, i + 1);
      ghost var args0, p := args, ParseObject(data);
      assert ParsePairs(data[i..]) == p;
      hide SkipKey, ReadValue, SkipComma, ParseObject;
      while i < |data| && data[i] != '}'
        invariant i <= |data|
        invariant ParsePairs(data[i..]).status == p.status
        invariant Assign(args, ParsePairs(data[i..]).pairs) == Assign(args0, p.pairs)
      {
        var key, v := SkipName(data, i);
        if key.None? { return Failure; }
        var text, end, st := TakeValue(data, v);
        if text.None? { return st; }
        ghost var more := SkipComma(data[end..]);
        AssignMore(args, key.value, text.value, ParsePairs(more).pairs);
        args := args[key.value := text.value];
        i := SkipSeparator(data, end);
      }
      status := Success;
    }
  }
}
