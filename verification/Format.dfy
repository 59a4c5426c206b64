/** The entity parsers of internal/convert/format.go as stack machines over code points;
    offsets and lengths count UTF-16 units. HTML starts from a list of text and tags. */
module Format {
  import opened Bytes

  datatype Style = Bold | Italic | Underline | Strike | Spoiler | Code | Pre

  datatype OpenEntity = OpenEntity(style: Style, offset: nat)

  datatype Span = Span(style: Style, offset: nat, length: nat) {
    function End(): nat { offset + length }
  }

  datatype Machine = Machine(out: string, spans: seq<Span>, stack: seq<OpenEntity>)

  /** What a parser returns; None is "can't parse entities". */
  datatype Formatted = Formatted(text: string, entities: seq<Span>)

  const EMPTY := Machine("", [], [])

  function CharWidth(c: char): nat { if c as int >= 0x1_0000 then 2 else 1 }

  /** utf16Len */
  function Width(s: string): nat { if s == "" then 0 else Width(s[..|s| - 1]) + CharWidth(s[|s| - 1]) }

  // ---------- the machine ----------

  /** The innermost open entity of a style. */
  function LastOpen(stack: seq<OpenEntity>, style: Style): (r: Option<nat>)
    ensures r.Some? ==> r.value < |stack| && stack[r.value].style == style
                        && forall j :: r.value < j < |stack| ==> stack[j].style != style
    ensures r.None? ==> forall j :: 0 <= j < |stack| ==> stack[j].style != style
  {
    if stack == [] then None
    else if stack[|stack| - 1].style == style then Some(|stack| - 1)
    else LastOpen(stack[..|stack| - 1], style)
  }

  function Write(m: Machine, s: string): Machine { m.(out := m.out + s) }

  function Push(m: Machine, style: Style): Machine { m.(stack := m.stack + [OpenEntity(style, Width(m.out))]) }

  /** Close the entity at a place in the stack; an empty one leaves no span. */
  function CloseAt(m: Machine, i: nat): Machine
    requires i < |m.stack|
  {
    var start, now := m.stack[i], Width(m.out);
    Machine(m.out,
            if now > start.offset then m.spans + [Span(start.style, start.offset, now - start.offset)] else m.spans,
            m.stack[..i] + m.stack[i + 1..])
  }

  // ---------- spansToEntities ----------

  function Insert(x: Span, s: seq<Span>): seq<Span> {
    if s == [] || x.offset <= s[0].offset then [x] + s else [s[0]] + Insert(x, s[1..])
  }

  /** The stable sort by offset. */
  function Sort(s: seq<Span>): seq<Span> { if s == [] then [] else Insert(s[0], Sort(s[1..])) }

  function Finish(m: Machine): Option<Formatted> {
    if m.stack != [] then None else Some(Formatted(m.out, Sort(m.spans)))
  }

  // ---------- Markdown ----------

  /** markdownToken: v2 is the MarkdownV2 mode. */
  function MarkdownToken(s: string, v2: bool): (r: Option<(string, Style)>)
    ensures r.Some? ==> 0 < |r.value.0| <= |s|
  {
    if "```" <= s then Some(("```", Pre))
    else if "**" <= s && v2 then Some(("**", Bold))
    else if "__" <= s then Some(("__", if v2 then Underline else Italic))
    else if "||" <= s && v2 then Some(("||", Spoiler))
    else if "~" <= s && v2 then Some(("~", Strike))
    else if "*" <= s then Some(("*", Bold))
    else if "_" <= s then Some(("_", Italic))
    else if "`" <= s then Some(("`", Code))
    else None
  }

  /** Inside code or pre: only its own closing token counts. */
  predicate Verbatim(stack: seq<OpenEntity>) { stack != [] && stack[|stack| - 1].style in {Code, Pre} }

  function CloseToken(style: Style): string { if style == Pre then "```" else "`" }

  /** One round of the loop on what is left of the text: the new state, and how much text
      it took. */
  function MarkdownStep(m: Machine, s: string, v2: bool): (r: (Machine, nat))
    requires s != ""
    ensures 1 <= r.1 <= |s|
  {
    if Verbatim(m.stack) then
      var close := CloseToken(m.stack[|m.stack| - 1].style);
      if close <= s then (CloseAt(m, |m.stack| - 1), |close|) else (Write(m, [s[0]]), 1)
    else if s[0] == '\\' && |s| > 1 then (Write(m, [s[1]]), 2)
    else
      var token := MarkdownToken(s, v2);
      if token.None? then (Write(m, [s[0]]), 1)
      else
        var i := LastOpen(m.stack, token.value.1);
        (if i.Some? then CloseAt(m, i.value) else Push(m, token.value.1), |token.value.0|)
  }

  function RunMarkdown(m: Machine, s: string, v2: bool): Machine
    decreases |s|
  {
    if s == "" then m else var (m', n) := MarkdownStep(m, s, v2); RunMarkdown(m', s[n..], v2)
  }

  function Markdown(text: string, v2: bool): Option<Formatted> { Finish(RunMarkdown(EMPTY, text, v2)) }

  // ---------- HTML ----------

  datatype HtmlToken = Text(s: string) | Opening(style: Style) | Closing(style: Style)

  function HtmlStep(m: Machine, t: HtmlToken): Option<Machine> {
    match t
    case Text(s) => Some(Write(m, s))
    case Opening(style) => Some(Push(m, style))
    case Closing(style) =>
      var i := LastOpen(m.stack, style);
      if i.Some? then Some(CloseAt(m, i.value)) else None
  }

  function RunHtml(m: Machine, tokens: seq<HtmlToken>): Option<Machine>
    decreases |tokens|
  {
    if tokens == [] then Some(m)
    else
      var m' := HtmlStep(m, tokens[0]);
      if m'.None? then None else RunHtml(m'.value, tokens[1..])
  }

  function Html(tokens: seq<HtmlToken>): Option<Formatted> {
    var m := RunHtml(EMPTY, tokens);
    if m.None? then None else Finish(m.value)
  }

  // ---------- the source's loops ----------

  method FindOpen(stack: seq<OpenEntity>, style: Style) returns (i: Option<nat>)
    ensures i == LastOpen(stack, style)
  {
    var j := |stack|;
    assert stack[..|stack|] == stack;
    while j > 0
      invariant 0 <= j <= |stack| && LastOpen(stack, style) == LastOpen(stack[..j], style)
    {
      j := j - 1;
      LastOpenStep(stack, j, style);
      if stack[j].style == style { return Some(j); }
    }
    i := None;
  }

  lemma LastOpenStep(stack: seq<OpenEntity>, j: nat, style: Style)
    requires j < |stack|
    ensures LastOpen(stack[..j + 1], style) == if stack[j].style == style then Some(j) else LastOpen(stack[..j], style)
  {
    assert stack[..j + 1][..j] == stack[..j];
  }

  /** Take one entity off the stack and record it if it is not empty. */
  method Close(out: string, spans: seq<Span>, stack: seq<OpenEntity>, idx: nat)
    returns (spans': seq<Span>, stack': seq<OpenEntity>)
    requires idx < |stack|
    ensures Machine(out, spans', stack') == CloseAt(Machine(out, spans, stack), idx)
  {
    var start := stack[idx];
    spans', stack' := spans, stack[..idx] + stack[idx + 1..];
    var length := Width(out) - start.offset;
    if length > 0 { spans' := spans + [Span(start.style, start.offset, length)]; }
  }

  /** One round of the loop at position i. */
  method Round(text: string, i: nat, v2: bool, out0: string, spans0: seq<Span>, stack0: seq<OpenEntity>)
    returns (out: string, spans: seq<Span>, stack: seq<OpenEntity>, next: nat)
    requires i < |text|
    ensures (Machine(out, spans, stack), next - i) == MarkdownStep(Machine(out0, spans0, stack0), text[i..], v2)
  {
    hide MarkdownToken, Width, LastOpen, CloseAt;
    out, spans, stack := out0, spans0, stack0;
    if Verbatim(stack) {
      var closeToken := CloseToken(stack[|stack| - 1].style);
      if closeToken <= text[i..] {
        spans, stack := Close(out, spans, stack, |stack| - 1);
        next := i + |closeToken|;
      } else {
        out, next := out + [text[i]], i + 1;
      }
      return;
    }
    if text[i] == '\\' && i + 1 < |text| {
      out, next := out + [text[i + 1]], i + 2;
      return;
    }
    var token := MarkdownToken(text[i..], v2);
    if token.None? {
      out, next := out + [text[i]], i + 1;
      return;
    }
    var idx := FindOpen(stack, token.value.1);
    if idx.Some? {
      spans, stack := Close(out, spans, stack, idx.value);
    } else {
      stack := stack + [OpenEntity(token.value.1, Width(out))];
    }
    next := i + |token.value.0|;
  }

  method ParseMarkdownText(text: string, v2: bool) returns (r: Option<Formatted>)
    ensures r == Markdown(text, v2)
  {
    hide MarkdownStep;
    var out, spans, stack := "", [], [];
    var i := 0;
    assert text[0..] == text;
    while i < |text|
      invariant 0 <= i <= |text|
      invariant RunMarkdown(Machine(out, spans, stack), text[i..], v2) == RunMarkdown(EMPTY, text, v2)
      decreases |text| - i
    {
      ghost var m, s := Machine(out, spans, stack), text[i..];
      RunStep(m, s, v2);
      var next;
      out, spans, stack, next := Round(text, i, v2, out, spans, stack);
      assert s[next - i..] == text[next..];
      i := next;
    }
    assert text[i..] == "";
    r := if stack != [] then None else Some(Formatted(out, Sort(spans)));
  }

  lemma RunStep(m: Machine, s: string, v2: bool)
    requires s != ""
    ensures var (m', n) := MarkdownStep(m, s, v2); RunMarkdown(m, s, v2) == RunMarkdown(m', s[n..], v2)
  {
  }

  method ParseHTMLText(tokens: seq<HtmlToken>) returns (r: Option<Formatted>)
    ensures r == Html(tokens)
  {
    var out, spans, stack := "", [], [];
    for k := 0 to |tokens|
      invariant RunHtml(Machine(out, spans, stack), tokens[k..]) == RunHtml(EMPTY, tokens)
    {
      assert tokens[k..][1..] == tokens[k + 1..];
      hide Width, CloseAt;
      match tokens[k]
      case Text(s) => out := out + s;
      case Opening(style) => stack := stack + [OpenEntity(style, Width(out))];
      case Closing(style) =>
        var idx := FindOpen(stack, style);
        if idx.None? { return None; }
        spans, stack := Close(out, spans, stack, idx.value);
    }
    assert tokens[|tokens|..] == [];
    r := if stack != [] then None else Some(Formatted(out, Sort(spans)));
  }
}
