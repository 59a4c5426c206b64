/** The Markdown parser against a simpler one: the text is read as characters and toggles of
    styles, and each style is paired off by itself, the first toggle with the second, the
    third with the fourth, whatever the other styles do in between. */
module FormatStyles {
  import opened Bytes
  import opened Format
  import opened FormatProofs
  import opened FormatRoundTrip
  import EscapeJson

  datatype Item = Char(c: char) | Toggle(style: Style)

  /** Reading: a backslash takes the next character as it is, and inside code or pre only the
      own closing token counts. */
  function Items(inside: Option<Style>, s: string, v2: bool): seq<Item>
    decreases |s|
  {
    if s == "" then []
    else if inside.Some? then
      var close := CloseToken(inside.value);
      if close <= s then [Toggle(inside.value)] + Items(None, s[|close|..], v2)
      else [Char(s[0])] + Items(inside, s[1..], v2)
    else if s[0] == '\\' && |s| > 1 then [Char(s[1])] + Items(None, s[2..], v2)
    else
      var token := MarkdownToken(s, v2);
      if token.None? then [Char(s[0])] + Items(None, s[1..], v2)
      else
        var (t, style) := token.value;
        [Toggle(style)] + Items(if style in {Code, Pre} then Some(style) else None, s[|t|..], v2)
  }

  function TextOf(items: seq<Item>): string {
    if items == [] then "" else (if items[0].Char? then [items[0].c] else "") + TextOf(items[1..])
  }

  function Toggles(items: seq<Item>, style: Style): nat {
    if items == [] then 0 else (if items[0] == Toggle(style) then 1 else 0) + Toggles(items[1..], style)
  }

  function SpanIf(style: Style, from: nat, to: nat): seq<Span> {
    if to > from then [Span(style, from, to - from)] else []
  }

  /** The pairs of toggles of one style that have text between them. */
  function StyleSpans(items: seq<Item>, style: Style, before: string, open: Option<nat>): seq<Span>
    decreases |items|
  {
    if items == [] then []
    else match items[0]
      case Char(c) => StyleSpans(items[1..], style, before + [c], open)
      case Toggle(t) =>
        if t != style then StyleSpans(items[1..], style, before, open)
        else if open.None? then StyleSpans(items[1..], style, before, Some(Width(before)))
        else SpanIf(style, open.value, Width(before)) + StyleSpans(items[1..], style, before, None)
  }

  function Of(spans: seq<Span>, style: Style): seq<Span> {
    if spans == [] then [] else (if spans[0].style == style then [spans[0]] else []) + Of(spans[1..], style)
  }

  // ---------- one step ----------

  /** At most one entity of a style is open, and code or pre only innermost. */
  predicate StackFine(stack: seq<OpenEntity>) {
    && (forall i, j :: 0 <= i < j < |stack| ==> stack[i].style != stack[j].style)
    && (forall i :: 0 <= i < |stack| - 1 ==> stack[i].style !in {Code, Pre})
  }

  function Inside(stack: seq<OpenEntity>): Option<Style> {
    if Verbatim(stack) then Some(stack[|stack| - 1].style) else None
  }

  function OpenOf(stack: seq<OpenEntity>, style: Style): Option<nat> {
    var i := LastOpen(stack, style);
    if i.Some? then Some(stack[i.value].offset) else None
  }

  function Take(m: Machine, item: Item): Machine {
    match item
    case Char(c) => Write(m, [c])
    case Toggle(style) =>
      var i := LastOpen(m.stack, style);
      if i.Some? then CloseAt(m, i.value) else Push(m, style)
  }

  lemma LastOpenIs(stack: seq<OpenEntity>, i: nat)
    requires i < |stack| && forall j :: i < j < |stack| ==> stack[j].style != stack[i].style
    ensures LastOpen(stack, stack[i].style) == Some(i)
  {
    var r := LastOpen(stack, stack[i].style);
    assert r.Some? && r.value >= i;
  }

  /** One step of the parser takes the item. */
  predicate Takes(m: Machine, s: string, v2: bool, item: Item)
    requires s != ""
  {
    var (m', n) := MarkdownStep(m, s, v2);
    && m' == Take(m, item) && StackFine(m'.stack)
    && Items(Inside(m.stack), s, v2) == [item] + Items(Inside(m'.stack), s[n..], v2)
  }

  lemma StepVerbatim(m: Machine, s: string, v2: bool)
    requires s != "" && StackFine(m.stack) && Verbatim(m.stack)
    ensures var style := m.stack[|m.stack| - 1].style;
            Takes(m, s, v2, if CloseToken(style) <= s then Toggle(style) else Char(s[0]))
  {
    hide MarkdownToken, CloseToken;
    var (m', n) := MarkdownStep(m, s, v2);
    var top := |m.stack| - 1;
    if CloseToken(m.stack[top].style) <= s {
      LastOpenIs(m.stack, top);
      assert m'.stack == m.stack[..top];
    }
  }

  lemma StepWrites(m: Machine, s: string, v2: bool)
    requires s != "" && StackFine(m.stack) && !Verbatim(m.stack)
    requires (s[0] == '\\' && |s| > 1) || MarkdownToken(s, v2).None?
    ensures Takes(m, s, v2, Char(if s[0] == '\\' && |s| > 1 then s[1] else s[0]))
  {
    hide MarkdownToken, CloseToken;
  }

  lemma StepTakes(m: Machine, s: string, v2: bool)
    requires s != "" && StackFine(m.stack)
    ensures exists item :: Takes(m, s, v2, item)
  {
    hide MarkdownToken, Takes, CloseToken;
    if Verbatim(m.stack) {
      StepVerbatim(m, s, v2);
    } else if (s[0] == '\\' && |s| > 1) || MarkdownToken(s, v2).None? {
      StepWrites(m, s, v2);
    } else {
      StepToggles(m, s, v2);
    }
  }

  lemma StepToggles(m: Machine, s: string, v2: bool)
    requires s != "" && StackFine(m.stack) && !Verbatim(m.stack) && !(s[0] == '\\' && |s| > 1)
    requires MarkdownToken(s, v2).Some?
    ensures Takes(m, s, v2, Toggle(MarkdownToken(s, v2).value.1))
  {
    hide MarkdownToken;
    var style := MarkdownToken(s, v2).value.1;
    var (m', n) := MarkdownStep(m, s, v2);
    TakeFine(m, style);
  }

  lemma TakeFine(m: Machine, style: Style)
    requires StackFine(m.stack) && !Verbatim(m.stack)
    ensures var m' := Take(m, Toggle(style));
            StackFine(m'.stack) && Inside(m'.stack) == if style in {Code, Pre} then Some(style) else None
  {
    hide Width;
    var i := LastOpen(m.stack, style);
    if i.Some? {
      var stack' := m.stack[..i.value] + m.stack[i.value + 1..];
      forall j | 0 <= j < |stack'| ensures stack'[j] == m.stack[if j < i.value then j else j + 1] {
        Removed(m.stack, i.value, j);
      }
    }
  }

  // ---------- what one item does to one style ----------

  lemma OfCat(a: seq<Span>, b: seq<Span>, style: Style)
    ensures Of(a + b, style) == Of(a, style) + Of(b, style)
  {
    if a == [] {
      assert a + b == b;
    } else {
      OfCat(a[1..], b, style);
      assert (a + b)[1..] == a[1..] + b;
      Assoc(if a[0].style == style then [a[0]] else [], Of(a[1..], style), Of(b, style));
    }
  }

  lemma OpenAfterRemoval(stack: seq<OpenEntity>, i: nat, style: Style)
    requires StackFine(stack) && i < |stack| && stack[i].style != style
    ensures OpenOf(stack[..i] + stack[i + 1..], style) == OpenOf(stack, style)
  {
    hide LastOpen;
    var stack' := stack[..i] + stack[i + 1..];
    forall j | 0 <= j < |stack'| ensures stack'[j] == stack[if j < i then j else j + 1] { Removed(stack, i, j); }
    var k, k' := LastOpen(stack, style), LastOpen(stack', style);
    if k.Some? {
      var moved := if k.value < i then k.value else k.value - 1;
      assert stack'[moved] == stack[k.value];
      LastOpenIs(stack', moved);
    }
  }

  lemma OpenAfterPush(stack: seq<OpenEntity>, o: OpenEntity, style: Style)
    requires StackFine(stack) && o.style != style
    ensures OpenOf(stack + [o], style) == OpenOf(stack, style)
  {
    assert (stack + [o])[..|stack|] == stack;
  }

  /** What is open of another style stays open where it is. */
  lemma OthersOpen(m: Machine, t: Style, style: Style)
    requires StackFine(m.stack) && t != style
    ensures OpenOf(Take(m, Toggle(t)).stack, style) == OpenOf(m.stack, style)
  {
    hide Width, OpenOf, LastOpen;
    var i := LastOpen(m.stack, t);
    if i.Some? {
      OpenAfterRemoval(m.stack, i.value, style);
    } else {
      OpenAfterPush(m.stack, OpenEntity(t, Width(m.out)), style);
    }
  }

  lemma OwnOpen(m: Machine, style: Style)
    requires StackFine(m.stack)
    ensures OpenOf(Take(m, Toggle(style)).stack, style)
            == if OpenOf(m.stack, style).Some? then None else Some(Width(m.out))
  {
    hide Width;
    var m' := Take(m, Toggle(style));
    var i := LastOpen(m.stack, style);
    if i.Some? {
      forall j | 0 <= j < |m'.stack| ensures m'.stack[j].style != style { Removed(m.stack, i.value, j); }
    } else {
      LastOpenIs(m'.stack, |m.stack|);
    }
  }

  lemma TakeSpans(m: Machine, t: Style, style: Style)
    requires StackFine(m.stack)
    ensures Of(Take(m, Toggle(t)).spans, style)
            == Of(m.spans, style)
               + if t == style && OpenOf(m.stack, t).Some?
                 then SpanIf(style, OpenOf(m.stack, t).value, Width(m.out)) else []
  {
    hide Width;
    var i := LastOpen(m.stack, t);
    if i.Some? {
      CloseSpans(m, i.value);
      var added := SpanIf(t, m.stack[i.value].offset, Width(m.out));
      assert Take(m, Toggle(t)).spans == m.spans + added;
      OfCat(m.spans, added, style);
      assert Of(added, style) == if t == style then added else [];
    }
  }

  /** A parse as seen by one style: its spans so far followed by what is still to come are
      the same before and after an item. */
  lemma TakeConserves(m: Machine, item: Item, items: seq<Item>, style: Style)
    requires StackFine(m.stack)
    ensures var m' := Take(m, item);
            && Of(m'.spans, style) + StyleSpans(items, style, m'.out, OpenOf(m'.stack, style))
               == Of(m.spans, style) + StyleSpans([item] + items, style, m.out, OpenOf(m.stack, style))
            && m'.out + TextOf(items) == m.out + TextOf([item] + items)
            && ((OpenOf(m'.stack, style).Some? <==> Toggles(items, style) % 2 == 1)
                <==> (OpenOf(m.stack, style).Some? <==> Toggles([item] + items, style) % 2 == 1))
  {
    hide Width, LastOpen;
    assert ([item] + items)[1..] == items;
    match item
    case Char(c) => Assoc(m.out, [c], TextOf(items));
    case Toggle(t) =>
      assert "" + TextOf(items) == TextOf(items);
      assert Of(m.spans, style) + [] == Of(m.spans, style);
      TakeSpans(m, t, style);
      if t == style {
        OwnOpen(m, style);
        var rest := StyleSpans(items, style, m.out, None);
        if OpenOf(m.stack, style).Some? {
          Assoc(Of(m.spans, style), SpanIf(style, OpenOf(m.stack, style).value, Width(m.out)), rest);
        }
      } else {
        OthersOpen(m, t, style);
      }
  }

  // ---------- whole texts ----------

  lemma {:induction false} RunItems(m: Machine, s: string, v2: bool, style: Style)
    requires StackFine(m.stack)
    ensures var end, items := RunMarkdown(m, s, v2), Items(Inside(m.stack), s, v2);
            && end.out == m.out + TextOf(items)
            && Of(end.spans, style) == Of(m.spans, style) + StyleSpans(items, style, m.out, OpenOf(m.stack, style))
            && (OpenOf(end.stack, style).None? <==>
                (OpenOf(m.stack, style).Some? <==> Toggles(items, style) % 2 == 1))
    decreases |s|
  {
    hide Items, MarkdownStep, Take, StackFine, OpenOf, Inside, Of;
    if s == "" {
      NoItems(m, v2, style);
    } else {
      var (m', n) := MarkdownStep(m, s, v2);
      StepTakes(m, s, v2);
      var item :| Takes(m, s, v2, item);
      TakeConserves(m, item, Items(Inside(m'.stack), s[n..], v2), style);
      RunItems(m', s[n..], v2, style);
      RunStep(m, s, v2);
    }
  }

  lemma NoItems(m: Machine, v2: bool, style: Style)
    ensures var items := Items(Inside(m.stack), "", v2);
            items == [] && m.out + TextOf(items) == m.out && Toggles(items, style) == 0
            && Of(m.spans, style) + StyleSpans(items, style, m.out, OpenOf(m.stack, style)) == Of(m.spans, style)
  {
  }

  lemma {:induction false} StyleSpansFrom(items: seq<Item>, style: Style, before: string, open: Option<nat>)
    requires open.Some? ==> open.value <= Width(before)
    ensures var spans := StyleSpans(items, style, before, open);
            && Sorted(spans)
            && forall i :: 0 <= i < |spans| ==>
                 spans[i].offset >= (if open.Some? then open.value else Width(before)) && spans[i].style == style
    decreases |items|
  {
    hide Width;
    if items != [] {
      match items[0]
      case Char(c) =>
        WidthCat(before, [c]);
        StyleSpansFrom(items[1..], style, before + [c], open);
      case Toggle(t) =>
        if t != style {
          StyleSpansFrom(items[1..], style, before, open);
        } else if open.None? {
          StyleSpansFrom(items[1..], style, before, Some(Width(before)));
        } else {
          StyleSpansFrom(items[1..], style, before, None);
        }
    }
  }

  lemma {:induction false} OfSorted(s: seq<Span>, style: Style)
    requires Sorted(s)
    ensures forall i :: 0 <= i < |Of(s, style)| ==> Of(s, style)[i] in s
    ensures Sorted(Of(s, style))
  {
    if s != [] {
      OfSorted(s[1..], style);
      assert forall y :: y in s[1..] ==> s[0].offset <= y.offset;
    }
  }

  lemma OfCons(x: Span, s: seq<Span>, style: Style)
    ensures Of([x] + s, style) == if x.style == style then [x] + Of(s, style) else Of(s, style)
  {
    assert ([x] + s)[1..] == s;
    assert [] + Of(s, style) == Of(s, style);
  }

  lemma InsertFirst(x: Span, s: seq<Span>)
    requires s != [] ==> x.offset <= s[0].offset
    ensures Insert(x, s) == [x] + s
  {
  }

  lemma InsertLater(x: Span, y: Span, s: seq<Span>)
    requires x.offset > y.offset
    ensures Insert(x, [y] + s) == [y] + Insert(x, s)
  {
    assert ([y] + s)[1..] == s;
  }

  lemma {:induction false} OfInsert(x: Span, s: seq<Span>, style: Style)
    requires Sorted(s)
    ensures Of(Insert(x, s), style) == if x.style == style then Insert(x, Of(s, style)) else Of(s, style)
  {
    OfSorted(s, style);
    hide Of, Insert;
    if s == [] || x.offset <= s[0].offset {
      InsertFirst(x, s);
      OfCons(x, s, style);
      forall y | y in s ensures x.offset <= y.offset { }
      if x.style == style { InsertFirst(x, Of(s, style)); }
    } else {
      var rest := s[1..];
      assert s == [s[0]] + rest;
      OfInsert(x, rest, style);
      InsertLater(x, s[0], rest);
      OfCons(s[0], Insert(x, rest), style);
      OfCons(s[0], rest, style);
      if s[0].style == style { InsertLater(x, s[0], Of(rest, style)); }
    }
  }

  /** Sorting does not mix up one style. */
  lemma {:induction false} OfSort(s: seq<Span>, style: Style)
    ensures Of(Sort(s), style) == Sort(Of(s, style))
  {
    if s != [] {
      OfSort(s[1..], style);
      SortSorted(s[1..]);
      OfInsert(s[0], Sort(s[1..]), style);
      OfCons(s[0], s[1..], style);
      assert s == [s[0]] + s[1..];
      if s[0].style == style { assert ([s[0]] + Of(s[1..], style))[1..] == Of(s[1..], style); }
    }
  }

  lemma RunByStyle(s: string, v2: bool, style: Style)
    ensures var items, end := Items(None, s, v2), RunMarkdown(EMPTY, s, v2);
            && end.out == TextOf(items)
            && (OpenOf(end.stack, style).None? <==> Toggles(items, style) % 2 == 0)
            && Of(Sort(end.spans), style) == StyleSpans(items, style, "", None)
  {
    hide Items, RunMarkdown, StyleSpans, Toggles, OpenOf, Of;
    var items, end := Items(None, s, v2), RunMarkdown(EMPTY, s, v2);
    assert Inside(EMPTY.stack) == None;
    RunItems(EMPTY, s, v2, style);
    AtStart(style, items);
    StyleSpansFrom(items, style, "", None);
    OfSort(end.spans, style);
    SortOfSorted(StyleSpans(items, style, "", None));
  }

  /** The parser on every text in both modes: it succeeds exactly if every style is toggled an
      even number of times, its text is the characters read, and its entities of each style
      are the pairs of that style's toggles with text between them, in order. */
  lemma MarkdownByStyle(s: string, v2: bool)
    ensures var items, r := Items(None, s, v2), Markdown(s, v2);
            && (r.Some? <==> forall style :: Toggles(items, style) % 2 == 0)
            && (r.Some? ==> r.value.text == TextOf(items))
            && (r.Some? ==> forall style :: Of(r.value.entities, style) == StyleSpans(items, style, "", None))
  {
    hide Items, RunMarkdown, StyleSpans, Toggles, OpenOf, Of;
    var items, end := Items(None, s, v2), RunMarkdown(EMPTY, s, v2);
    forall style
      ensures OpenOf(end.stack, style).None? <==> Toggles(items, style) % 2 == 0
      ensures Of(Sort(end.spans), style) == StyleSpans(items, style, "", None)
    {
      RunByStyle(s, v2, style);
    }
    RunByStyle(s, v2, Bold);
    if end.stack != [] {
      TopIsOpen(end.stack);
      assert Toggles(items, end.stack[|end.stack| - 1].style) % 2 != 0;
    } else {
      forall style ensures Toggles(items, style) % 2 == 0 { NoneOpen(style); }
    }
  }

  lemma AtStart(style: Style, items: seq<Item>)
    ensures OpenOf([], style) == None && "" + TextOf(items) == TextOf(items)
    ensures Of([], style) + StyleSpans(items, style, "", None) == StyleSpans(items, style, "", None)
  {
  }

  lemma TopIsOpen(stack: seq<OpenEntity>)
    requires stack != []
    ensures OpenOf(stack, stack[|stack| - 1].style).Some?
  {
  }

  lemma NoneOpen(style: Style)
    ensures OpenOf([], style) == None
  {
  }

  // ---------- widths ----------

  function CodePoints(s: string): seq<int> { if s == "" then [] else CodePoints(s[..|s| - 1]) + [s[|s| - 1] as int] }

  function Utf16(s: string): seq<int> {
    if s == "" then [] else Utf16(s[..|s| - 1]) + EscapeJson.Units(s[|s| - 1] as int)
  }

  /** Offsets and lengths count UTF-16 units. */
  lemma {:induction false} WidthIsUtf16(s: string)
    ensures Width(s) == |Utf16(s)|
  {
    if s != "" { WidthIsUtf16(s[..|s| - 1]); }
  }
}
