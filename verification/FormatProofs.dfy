/** What the entity parsers promise: entities inside the text, sorted, and of one style
    never overlapping (Markdown) or properly nested (HTML); and when HTML fails. */
module FormatProofs {
  import opened Bytes
  import opened Format

  // ---------- widths ----------

  lemma {:induction false} WidthCat(s: string, t: string)
    ensures Width(s + t) == Width(s) + Width(t)
  {
    if t == "" {
      assert s + t == s;
    } else {
      WidthCat(s, t[..|t| - 1]);
      assert (s + t)[..|s + t| - 1] == s + t[..|t| - 1];
    }
  }

  // ---------- pairs of spans ----------

  predicate Apart(a: Span, b: Span) { a.style == b.style ==> a.End() <= b.offset || b.End() <= a.offset }

  predicate Inside(a: Span, b: Span) { b.offset <= a.offset && a.End() <= b.End() }

  predicate Laminar(a: Span, b: Span) { a.style == b.style ==> Apart(a, b) || Inside(a, b) || Inside(b, a) }

  predicate Pairwise(rel: (Span, Span) -> bool, s: seq<Span>) {
    forall i, j :: 0 <= i < j < |s| ==> rel(s[i], s[j])
  }

  predicate Within(s: seq<Span>, width: nat) { forall i :: 0 <= i < |s| ==> s[i].length > 0 && s[i].End() <= width }

  predicate Sorted(s: seq<Span>) { forall i, j :: 0 <= i < j < |s| ==> s[i].offset <= s[j].offset }

  ghost predicate Symmetric(rel: (Span, Span) -> bool) { forall a, b :: rel(a, b) ==> rel(b, a) }

  // ---------- the stable sort ----------

  lemma {:induction false} InsertHolds(x: Span, s: seq<Span>)
    ensures multiset(Insert(x, s)) == multiset{x} + multiset(s)
    ensures forall y :: y in Insert(x, s) <==> y == x || y in s
  {
    if s == [] || x.offset <= s[0].offset {
    } else {
      InsertHolds(x, s[1..]);
      assert s == [s[0]] + s[1..];
    }
  }

  lemma {:induction false} SortHolds(s: seq<Span>)
    ensures multiset(Sort(s)) == multiset(s)
    ensures forall y :: y in Sort(s) <==> y in s
  {
    if s != [] {
      SortHolds(s[1..]);
      InsertHolds(s[0], Sort(s[1..]));
      assert s == [s[0]] + s[1..];
    }
  }

  lemma {:induction false} InsertSorted(x: Span, s: seq<Span>)
    requires Sorted(s)
    ensures Sorted(Insert(x, s))
  {
    if s == [] || x.offset <= s[0].offset {
    } else {
      InsertSorted(x, s[1..]);
      InsertHolds(x, s[1..]);
      var t := Insert(x, s[1..]);
      forall j | 0 <= j < |t| ensures s[0].offset <= t[j].offset { assert t[j] in t; }
    }
  }

  lemma {:induction false} SortSorted(s: seq<Span>)
    ensures Sorted(Sort(s))
  {
    if s != [] {
      SortSorted(s[1..]);
      InsertSorted(s[0], Sort(s[1..]));
    }
  }

  /** The spans at one offset, in order. */
  function At(s: seq<Span>, offset: nat): seq<Span> {
    if s == [] then [] else (if s[0].offset == offset then [s[0]] else []) + At(s[1..], offset)
  }

  lemma {:induction false} InsertStable(x: Span, s: seq<Span>, offset: nat)
    requires Sorted(s)
    ensures At(Insert(x, s), offset) == (if x.offset == offset then [x] else []) + At(s, offset)
  {
    if s == [] || x.offset <= s[0].offset {
    } else {
      InsertStable(x, s[1..], offset);
      if x.offset == offset { assert At([s[0]] + Insert(x, s[1..]), offset) == At(Insert(x, s[1..]), offset); }
    }
  }

  /** Spans that start together keep their order. */
  lemma {:induction false} SortStable(s: seq<Span>, offset: nat)
    ensures At(Sort(s), offset) == At(s, offset)
  {
    if s != [] {
      SortSorted(s[1..]);
      SortStable(s[1..], offset);
      InsertStable(s[0], Sort(s[1..]), offset);
    }
  }

  lemma {:induction false} InsertPairwise(rel: (Span, Span) -> bool, x: Span, s: seq<Span>)
    requires Symmetric(rel) && Pairwise(rel, s) && forall i :: 0 <= i < |s| ==> rel(x, s[i])
    ensures Pairwise(rel, Insert(x, s))
  {
    if s == [] || x.offset <= s[0].offset {
    } else {
      InsertPairwise(rel, x, s[1..]);
      InsertHolds(x, s[1..]);
      var t := Insert(x, s[1..]);
      forall j | 0 <= j < |t| ensures rel(s[0], t[j]) {
        if t[j] != x {
          assert t[j] in s[1..];
        }
      }
    }
  }

  lemma {:induction false} SortPairwise(rel: (Span, Span) -> bool, s: seq<Span>)
    requires Symmetric(rel) && Pairwise(rel, s)
    ensures Pairwise(rel, Sort(s))
  {
    if s != [] {
      SortPairwise(rel, s[1..]);
      SortHolds(s[1..]);
      var t := Sort(s[1..]);
      forall i | 0 <= i < |t| ensures rel(s[0], t[i]) { assert t[i] in s[1..]; }
      InsertPairwise(rel, s[0], t);
    }
  }

  lemma SortWithin(s: seq<Span>, width: nat)
    requires Within(s, width)
    ensures Within(Sort(s), width)
  {
    SortHolds(s);
    forall i | 0 <= i < |Sort(s)| ensures Sort(s)[i].length > 0 && Sort(s)[i].End() <= width { assert Sort(s)[i] in s; }
  }

  // ---------- the invariant ----------

  /** Open entities start within the text, in order. */
  predicate StackOk(m: Machine) {
    && (forall i :: 0 <= i < |m.stack| ==> m.stack[i].offset <= Width(m.out))
    && (forall i, j :: 0 <= i < j < |m.stack| ==> m.stack[i].offset <= m.stack[j].offset)
  }

  /** Seen from where an open entity starts, a span of its style lies on one side. */
  predicate Clear(s: Span, o: OpenEntity) { s.style == o.style ==> s.End() <= o.offset || o.offset <= s.offset }

  predicate HtmlInv(m: Machine) {
    && StackOk(m) && Within(m.spans, Width(m.out)) && Pairwise(Laminar, m.spans)
    && (forall i, j :: 0 <= i < |m.spans| && 0 <= j < |m.stack| ==> Clear(m.spans[i], m.stack[j]))
  }

  /** In Markdown at most one entity of a style is open, and every span of that style is
      before it. */
  predicate MarkdownInv(m: Machine) {
    && StackOk(m) && Within(m.spans, Width(m.out)) && Pairwise(Apart, m.spans)
    && (forall i, j :: 0 <= i < j < |m.stack| ==> m.stack[i].style != m.stack[j].style)
    && (forall i, j :: 0 <= i < |m.spans| && 0 <= j < |m.stack| && m.spans[i].style == m.stack[j].style ==>
          m.spans[i].End() <= m.stack[j].offset)
  }

  lemma WriteStack(m: Machine, s: string)
    requires StackOk(m) && Within(m.spans, Width(m.out))
    ensures StackOk(Write(m, s)) && Within(m.spans, Width(m.out + s))
  {
    WidthCat(m.out, s);
  }

  lemma PushHtml(m: Machine, style: Style)
    requires HtmlInv(m)
    ensures HtmlInv(Push(m, style))
  {
    hide Width;
  }

  lemma PushMarkdown(m: Machine, style: Style)
    requires MarkdownInv(m) && LastOpen(m.stack, style).None?
    ensures MarkdownInv(Push(m, style))
  {
    hide Width;
  }

  lemma Removed(stack: seq<OpenEntity>, i: nat, j: nat)
    requires i < |stack| && j < |stack| - 1
    ensures (stack[..i] + stack[i + 1..])[j] == stack[if j < i then j else j + 1]
  {
  }

  lemma CloseStack(m: Machine, i: nat)
    requires StackOk(m) && i < |m.stack|
    ensures StackOk(CloseAt(m, i))
  {
    hide Width;
    var s := m.stack[..i] + m.stack[i + 1..];
    forall j | 0 <= j < |s| ensures s[j].offset <= Width(m.out) { Removed(m.stack, i, j); }
    forall j, k | 0 <= j < k < |s| ensures s[j].offset <= s[k].offset {
      Removed(m.stack, i, j);
      Removed(m.stack, i, k);
    }
  }

  /** The span a close records, if any, is last; the others are as they were. */
  lemma CloseSpans(m: Machine, i: nat)
    requires i < |m.stack|
    ensures var spans, x := CloseAt(m, i).spans, m.stack[i];
            if Width(m.out) > x.offset then spans == m.spans + [Span(x.style, x.offset, Width(m.out) - x.offset)]
            else spans == m.spans
  {
  }

  lemma CloseWithin(m: Machine, i: nat)
    requires Within(m.spans, Width(m.out)) && i < |m.stack|
    ensures Within(CloseAt(m, i).spans, Width(m.out))
  {
    hide Width;
  }

  lemma CloseHtml(m: Machine, style: Style)
    requires HtmlInv(m) && LastOpen(m.stack, style).Some?
    ensures HtmlInv(CloseAt(m, LastOpen(m.stack, style).value))
  {
    var i := LastOpen(m.stack, style).value;
    CloseStack(m, i);
    CloseWithin(m, i);
    hide Width, StackOk;
    assert StackOk(m) ==> forall j :: 0 <= j < i ==> m.stack[j].offset <= m.stack[i].offset by { OrderedStack(m, i); }
    CloseLaminar(m, i);
    CloseClear(m, i);
  }

  lemma OrderedStack(m: Machine, i: nat)
    requires StackOk(m) && i < |m.stack|
    ensures forall j :: 0 <= j < i ==> m.stack[j].offset <= m.stack[i].offset
  {
  }

  lemma CloseLaminar(m: Machine, i: nat)
    requires i < |m.stack| && Within(m.spans, Width(m.out)) && Pairwise(Laminar, m.spans)
    requires forall k :: 0 <= k < |m.spans| ==> Clear(m.spans[k], m.stack[i])
    ensures Pairwise(Laminar, CloseAt(m, i).spans)
  {
    hide Width;
    CloseSpans(m, i);
  }

  lemma CloseClear(m: Machine, i: nat)
    requires i < |m.stack|
    requires forall j, k :: 0 <= k < |m.spans| && 0 <= j < |m.stack| ==> Clear(m.spans[k], m.stack[j])
    requires forall j :: 0 <= j < i ==> m.stack[j].offset <= m.stack[i].offset
    requires forall j :: i < j < |m.stack| ==> m.stack[j].style != m.stack[i].style
    ensures var m' := CloseAt(m, i);
            forall k, j :: 0 <= k < |m'.spans| && 0 <= j < |m'.stack| ==> Clear(m'.spans[k], m'.stack[j])
  {
    hide Width;
    var m' := CloseAt(m, i);
    CloseSpans(m, i);
    forall k, j | 0 <= k < |m'.spans| && 0 <= j < |m'.stack| ensures Clear(m'.spans[k], m'.stack[j]) {
      Removed(m.stack, i, j);
    }
  }

  lemma CloseMarkdown(m: Machine, i: nat)
    requires MarkdownInv(m) && i < |m.stack|
    ensures MarkdownInv(CloseAt(m, i))
  {
    CloseStack(m, i);
    CloseWithin(m, i);
    CloseSpans(m, i);
    hide Width, StackOk, CloseAt;
    CloseApart(m, i);
    CloseBefore(m, i);
  }

  lemma CloseApart(m: Machine, i: nat)
    requires i < |m.stack| && Pairwise(Apart, m.spans)
    requires forall k :: 0 <= k < |m.spans| && m.spans[k].style == m.stack[i].style ==>
               m.spans[k].End() <= m.stack[i].offset
    ensures Pairwise(Apart, CloseAt(m, i).spans)
  {
    hide Width;
    CloseSpans(m, i);
  }

  lemma CloseBefore(m: Machine, i: nat)
    requires i < |m.stack|
    requires forall j, k :: 0 <= j < k < |m.stack| ==> m.stack[j].style != m.stack[k].style
    requires forall k, j :: 0 <= k < |m.spans| && 0 <= j < |m.stack| && m.spans[k].style == m.stack[j].style ==>
               m.spans[k].End() <= m.stack[j].offset
    ensures var m' := CloseAt(m, i);
            (forall j, k :: 0 <= j < k < |m'.stack| ==> m'.stack[j].style != m'.stack[k].style)
            && forall k, j :: 0 <= k < |m'.spans| && 0 <= j < |m'.stack| && m'.spans[k].style == m'.stack[j].style ==>
                 m'.spans[k].End() <= m'.stack[j].offset
  {
    hide Width;
    var m' := CloseAt(m, i);
    CloseSpans(m, i);
    forall j, k | 0 <= j < k < |m'.stack| ensures m'.stack[j].style != m'.stack[k].style {
      Removed(m.stack, i, j);
      Removed(m.stack, i, k);
    }
    forall k, j | 0 <= k < |m'.spans| && 0 <= j < |m'.stack| && m'.spans[k].style == m'.stack[j].style
      ensures m'.spans[k].End() <= m'.stack[j].offset
    {
      Removed(m.stack, i, j);
      assert m.stack[if j < i then j else j + 1].style != m.stack[i].style;
    }
  }

  // ---------- whole runs ----------

  lemma StepMarkdown(m: Machine, s: string, v2: bool)
    requires s != "" && MarkdownInv(m)
    ensures MarkdownInv(MarkdownStep(m, s, v2).0)
  {
    hide MarkdownInv, MarkdownToken, LastOpen, CloseAt, Push, Write;
    WriteMarkdown(m, [s[0]]);
    if |s| > 1 { WriteMarkdown(m, [s[1]]); }
    if m.stack != [] { CloseMarkdown(m, |m.stack| - 1); }
    var token := MarkdownToken(s, v2);
    if token.Some? {
      var i := LastOpen(m.stack, token.value.1);
      if i.Some? {
        CloseMarkdown(m, i.value);
      } else {
        PushMarkdown(m, token.value.1);
      }
    }
  }

  lemma WriteMarkdown(m: Machine, s: string)
    requires MarkdownInv(m)
    ensures MarkdownInv(Write(m, s))
  {
    WriteStack(m, s);
  }

  lemma {:induction false} RunMarkdownInv(m: Machine, s: string, v2: bool)
    requires MarkdownInv(m)
    ensures MarkdownInv(RunMarkdown(m, s, v2))
    decreases |s|
  {
    hide MarkdownInv;
    if s != "" {
      StepMarkdown(m, s, v2);
      var (m', n) := MarkdownStep(m, s, v2);
      RunMarkdownInv(m', s[n..], v2);
    }
  }

  /** Every Markdown text that parses: entities are not empty, lie inside the text, are in
      order of offset, and two of one style never overlap. */
  lemma MarkdownEntities(text: string, v2: bool)
    requires Markdown(text, v2).Some?
    ensures var r := Markdown(text, v2).value;
            Within(r.entities, Width(r.text)) && Sorted(r.entities) && Pairwise(Apart, r.entities)
  {
    RunMarkdownInv(EMPTY, text, v2);
    var m := RunMarkdown(EMPTY, text, v2);
    SortSorted(m.spans);
    SortPairwise(Apart, m.spans);
    SortWithin(m.spans, Width(m.out));
  }

  lemma StepHtml(m: Machine, t: HtmlToken)
    requires HtmlInv(m)
    ensures HtmlStep(m, t).Some? ==> HtmlInv(HtmlStep(m, t).value)
  {
    match t
    case Text(s) => WriteStack(m, s);
    case Opening(style) => PushHtml(m, style);
    case Closing(style) => if LastOpen(m.stack, style).Some? { CloseHtml(m, style); }
  }

  lemma {:induction false} RunHtmlInv(m: Machine, tokens: seq<HtmlToken>)
    requires HtmlInv(m)
    ensures RunHtml(m, tokens).Some? ==> HtmlInv(RunHtml(m, tokens).value)
    decreases |tokens|
  {
    hide HtmlInv, HtmlStep;
    if tokens != [] {
      StepHtml(m, tokens[0]);
      if HtmlStep(m, tokens[0]).Some? { RunHtmlInv(HtmlStep(m, tokens[0]).value, tokens[1..]); }
    }
  }

  /** Every HTML text that parses: the same, except that entities of one style may nest. */
  lemma HtmlEntities(tokens: seq<HtmlToken>)
    requires Html(tokens).Some?
    ensures var r := Html(tokens).value;
            Within(r.entities, Width(r.text)) && Sorted(r.entities) && Pairwise(Laminar, r.entities)
  {
    RunHtmlInv(EMPTY, tokens);
    var m := RunHtml(EMPTY, tokens).value;
    SortSorted(m.spans);
    SortPairwise(Laminar, m.spans);
    SortWithin(m.spans, Width(m.out));
  }

  // ---------- when HTML fails ----------

  /** Openers less closers of a style. */
  function Depth(tokens: seq<HtmlToken>, style: Style): int {
    if tokens == [] then 0
    else
      var t := tokens[|tokens| - 1];
      Depth(tokens[..|tokens| - 1], style) + Change(t, style)
  }

  /** No closer comes before its opener, and none is missing. */
  ghost predicate Balanced(tokens: seq<HtmlToken>) {
    && (forall style, n :: 0 <= n <= |tokens| ==> Depth(tokens[..n], style) >= 0)
    && (forall style :: Depth(tokens, style) == 0)
  }

  function OpenCount(stack: seq<OpenEntity>, style: Style): nat {
    if stack == [] then 0
    else OpenCount(stack[..|stack| - 1], style) + if stack[|stack| - 1].style == style then 1 else 0
  }

  lemma {:induction false} CountCat(a: seq<OpenEntity>, b: seq<OpenEntity>, style: Style)
    ensures OpenCount(a + b, style) == OpenCount(a, style) + OpenCount(b, style)
  {
    if b == [] {
      assert a + b == a;
    } else {
      CountCat(a, b[..|b| - 1], style);
      assert (a + b)[..|a + b| - 1] == a + b[..|b| - 1];
    }
  }

  lemma {:induction false} NoneOpen(stack: seq<OpenEntity>, style: Style)
    ensures OpenCount(stack, style) == 0 <==> LastOpen(stack, style).None?
  {
    if stack != [] { NoneOpen(stack[..|stack| - 1], style); }
  }

  lemma CountOne(o: OpenEntity, style: Style)
    ensures OpenCount([o], style) == if o.style == style then 1 else 0
  {
    assert [o][..0] == [];
  }

  function Change(t: HtmlToken, style: Style): int {
    if t == Opening(style) then 1 else if t == Closing(style) then -1 else 0
  }

  lemma CountRemoved(stack: seq<OpenEntity>, i: nat, style: Style)
    requires i < |stack|
    ensures OpenCount(stack, style) ==
            OpenCount(stack[..i] + stack[i + 1..], style) + if stack[i].style == style then 1 else 0
  {
    hide OpenCount;
    var o := stack[i];
    assert stack == stack[..i] + ([o] + stack[i + 1..]);
    CountCat(stack[..i], [o] + stack[i + 1..], style);
    CountCat([o], stack[i + 1..], style);
    CountCat(stack[..i], stack[i + 1..], style);
    CountOne(o, style);
  }

  lemma CountStep(m: Machine, t: HtmlToken, style: Style)
    requires HtmlStep(m, t).Some?
    ensures OpenCount(HtmlStep(m, t).value.stack, style) == OpenCount(m.stack, style) + Change(t, style)
  {
    hide OpenCount, Width;
    match t
    case Text(s) =>
    case Opening(x) =>
      var o := OpenEntity(x, Width(m.out));
      CountCat(m.stack, [o], style);
      CountOne(o, style);
    case Closing(x) =>
      CountRemoved(m.stack, LastOpen(m.stack, x).value, style);
  }

  lemma {:induction false} RunHtmlSnoc(m: Machine, tokens: seq<HtmlToken>, t: HtmlToken)
    ensures RunHtml(m, tokens + [t]) ==
            var r := RunHtml(m, tokens); if r.None? then None else HtmlStep(r.value, t)
    decreases |tokens|
  {
    hide HtmlStep;
    if tokens == [] {
      assert (tokens + [t])[1..] == [];
    } else {
      assert (tokens + [t])[1..] == tokens[1..] + [t];
      if HtmlStep(m, tokens[0]).Some? { RunHtmlSnoc(HtmlStep(m, tokens[0]).value, tokens[1..], t); }
    }
  }

  /** The loop goes through exactly when no closer comes too early, and then the stack
      holds each style as often as it is open. */
  lemma {:induction false} RunHtmlIff(tokens: seq<HtmlToken>)
    ensures RunHtml(EMPTY, tokens).Some? <==> forall style, n :: 0 <= n <= |tokens| ==> Depth(tokens[..n], style) >= 0
    ensures RunHtml(EMPTY, tokens).Some? ==>
              forall style :: OpenCount(RunHtml(EMPTY, tokens).value.stack, style) == Depth(tokens, style)
    decreases |tokens|
  {
    if tokens == [] {
      assert forall style :: Depth(tokens[..0], style) == 0;
    } else {
      var k := |tokens| - 1;
      var before, t := tokens[..k], tokens[k];
      assert tokens == before + [t];
      RunHtmlIff(before);
      RunHtmlSnoc(EMPTY, before, t);
      assert tokens[..k + 1] == tokens;
      assert forall n :: 0 <= n <= k ==> tokens[..n] == before[..n];
      var r := RunHtml(EMPTY, before);
      if r.Some? {
        hide OpenCount, Depth, LastOpen;
        StepIff(r.value, before, t);
      }
    }
  }

  lemma DepthSnoc(before: seq<HtmlToken>, t: HtmlToken, style: Style)
    ensures Depth(before + [t], style) == Depth(before, style) + Change(t, style)
  {
    assert (before + [t])[..|before|] == before;
  }

  lemma StepIff(m: Machine, before: seq<HtmlToken>, t: HtmlToken)
    requires forall style :: OpenCount(m.stack, style) == Depth(before, style)
    ensures HtmlStep(m, t).Some? <==> forall style :: Depth(before + [t], style) >= 0
    ensures HtmlStep(m, t).Some? ==>
              forall style :: OpenCount(HtmlStep(m, t).value.stack, style) == Depth(before + [t], style)
  {
    hide OpenCount, Depth;
    if HtmlStep(m, t).Some? {
      forall style ensures OpenCount(HtmlStep(m, t).value.stack, style) == Depth(before + [t], style) {
        CountStep(m, t, style);
        DepthSnoc(before, t, style);
      }
    } else {
      NoneOpen(m.stack, t.style);
      DepthSnoc(before, t, t.style);
      assert Depth(before + [t], t.style) == -1;
    }
  }

  lemma TopCounted(stack: seq<OpenEntity>)
    ensures stack != [] ==> OpenCount(stack, stack[|stack| - 1].style) > 0
    ensures stack == [] ==> forall style :: OpenCount(stack, style) == 0
  {
  }

  /** HTML parses exactly when the tags of every style are balanced. */
  lemma HtmlIff(tokens: seq<HtmlToken>)
    ensures Html(tokens).Some? <==> Balanced(tokens)
  {
    RunHtmlIff(tokens);
    assert tokens[..|tokens|] == tokens;
    var r := RunHtml(EMPTY, tokens);
    if r.Some? {
      var stack := r.value.stack;
      TopCounted(stack);
      if stack == [] {
        forall style ensures Depth(tokens, style) == 0 { assert OpenCount(stack, style) == 0; }
        assert Balanced(tokens);
      } else {
        var style := stack[|stack| - 1].style;
        assert Depth(tokens, style) == OpenCount(stack, style);
        assert !Balanced(tokens);
      }
    }
  }
}
