/** Printing runs of text as Markdown, or a tree of elements as HTML, and parsing them
    again. v2 is the MarkdownV2 mode. */
module FormatRoundTrip {
  import opened Bytes
  import opened Format
  import opened FormatProofs

  /** The tokens that open and close a style. */
  datatype Mark = Star | DoubleStar | Underscore | DoubleUnderscore | Tilde | DoublePipe

  /** A character as it is written: after a backslash, or bare. */
  datatype Glyph = Glyph(c: char, bare: bool)

  /** A stretch of text with one style, written out, or copied inside code or pre. */
  datatype Run = Marked(mark: Mark, text: seq<Glyph>) | Copied(pre: bool, copied: string)

  /** A run and the plain text after it. */
  datatype Piece = Piece(run: Run, plain: seq<Glyph>)

  function Chars(s: seq<Glyph>): string { if s == [] then "" else [s[0].c] + Chars(s[1..]) }

  function RunChars(r: Run): string { match r case Marked(_, t) => Chars(t) case Copied(_, t) => t }

  function Token(mark: Mark): string {
    match mark
    case Star => "*"
    case DoubleStar => "**"
    case Underscore => "_"
    case DoubleUnderscore => "__"
    case Tilde => "~"
    case DoublePipe => "||"
  }

  function MarkStyle(mark: Mark, v2: bool): Style {
    match mark
    case Star => Bold
    case DoubleStar => Bold
    case Underscore => Italic
    case DoubleUnderscore => if v2 then Underline else Italic
    case Tilde => Strike
    case DoublePipe => Spoiler
  }

  /** The tokens of a mode. */
  predicate MarkIn(mark: Mark, v2: bool) { v2 || mark in {Star, Underscore, DoubleUnderscore} }

  /** A token whose doubling is another token. */
  predicate Doubles(mark: Mark, v2: bool) { mark == Underscore || (mark == Star && v2) }

  function RunStyle(r: Run, v2: bool): Style {
    match r
    case Marked(mark, _) => MarkStyle(mark, v2)
    case Copied(pre, _) => if pre then Pre else Code
  }

  function RunToken(r: Run): string {
    match r
    case Marked(mark, _) => Token(mark)
    case Copied(pre, _) => if pre then "```" else "`"
  }

  /** The text as it is written, then k. */
  function Spell(s: seq<Glyph>, k: string): string {
    if s == [] then k else (if s[0].bare then [s[0].c] else ['\\', s[0].c]) + Spell(s[1..], k)
  }

  /** Where a character means itself: before k it starts no token of the mode and escapes
      nothing. Legacy Markdown has no ~ and no ||. */
  predicate MayStand(c: char, k: string, v2: bool) {
    && c !in {'*', '_', '`'} && (c == '\\' ==> k == "")
    && (v2 ==> c != '~' && !(c == '|' && k != "" && k[0] == '|'))
  }

  predicate Spellable(s: seq<Glyph>, k: string, v2: bool) {
    s == [] || ((s[0].bare ==> MayStand(s[0].c, Spell(s[1..], k), v2)) && Spellable(s[1..], k, v2))
  }

  function PutRun(r: Run, k: string): string {
    RunToken(r) + match r case Marked(mark, t) => Spell(t, Token(mark) + k) case Copied(_, t) => t + (RunToken(r) + k)
  }

  function Put(pieces: seq<Piece>): string {
    if pieces == [] then "" else PutRun(pieces[0].run, Spell(pieces[0].plain, Put(pieces[1..])))
  }

  function Printed(plain: seq<Glyph>, pieces: seq<Piece>): string { Spell(plain, Put(pieces)) }

  /** Where the copied text of a run can be cut: not before its closing token. */
  predicate Copyable(close: string, t: string) { forall n :: 0 <= n < |t| ==> !(close <= (t + close)[n..]) }

  /** What a mode can print before k: its own tokens around text that can be read, and copied
      text that can be told from its closing token. */
  predicate Printable(r: Run, k: string, v2: bool) {
    match r
    case Marked(mark, t) => MarkIn(mark, v2) && Spellable(t, Token(mark) + k, v2)
    case Copied(_, t) => Copyable(RunToken(r), t)
  }

  /** An empty run between two tokens that double prints as the double token. */
  predicate Vanishes(r: Run, v2: bool) { r.Marked? && Doubles(r.mark, v2) && r.text == [] }

  predicate RunOk(r: Run, k: string, v2: bool) { Printable(r, k, v2) && !Vanishes(r, v2) }

  /** Printable runs with plain text, which is not empty, between any two of them. */
  predicate Separated(pieces: seq<Piece>, v2: bool) {
    pieces == [] ||
    var rest := pieces[1..];
    && Printable(pieces[0].run, Spell(pieces[0].plain, Put(rest)), v2)
    && (pieces[0].plain == [] ==> rest == [])
    && Spellable(pieces[0].plain, Put(rest), v2) && Separated(rest, v2)
  }

  predicate NoneVanishes(pieces: seq<Piece>, v2: bool) {
    forall i :: 0 <= i < |pieces| ==> !Vanishes(pieces[i].run, v2)
  }

  predicate PiecesOk(pieces: seq<Piece>, v2: bool) { Separated(pieces, v2) && NoneVanishes(pieces, v2) }

  // ---------- what should come out ----------

  function AddRun(out: string, r: Run, v2: bool): seq<Span> {
    if RunChars(r) == "" then [] else [Span(RunStyle(r, v2), Width(out), Width(RunChars(r)))]
  }

  function Texts(pieces: seq<Piece>): string {
    if pieces == [] then "" else RunChars(pieces[0].run) + (Chars(pieces[0].plain) + Texts(pieces[1..]))
  }

  /** One entity for each run that is not empty, at its place after what came before. */
  function Entities(before: string, pieces: seq<Piece>, v2: bool): seq<Span>
    decreases |pieces|
  {
    if pieces == [] then []
    else
      var r := pieces[0].run;
      AddRun(before, r, v2) + Entities(before + RunChars(r) + Chars(pieces[0].plain), pieces[1..], v2)
  }

  // ---------- step by step ----------

  lemma BareStep(m: Machine, c: char, k: string, v2: bool)
    requires !Verbatim(m.stack) && MayStand(c, k, v2)
    ensures MarkdownStep(m, [c] + k, v2) == (Write(m, [c]), 1)
  {
    var s := [c] + k;
    assert s[0] == c && (|s| > 1 ==> s[1] == k[0]);
    assert MarkdownToken(s, v2).None?;
  }

  lemma GlyphStep(m: Machine, g: Glyph, k: string, v2: bool)
    requires !Verbatim(m.stack) && (g.bare ==> MayStand(g.c, k, v2))
    ensures var s := (if g.bare then [g.c] else ['\\', g.c]) + k;
            RunMarkdown(m, s, v2) == RunMarkdown(Write(m, [g.c]), k, v2)
  {
    hide MarkdownToken, MayStand;
    var s := (if g.bare then [g.c] else ['\\', g.c]) + k;
    RunStep(m, s, v2);
    if g.bare {
      BareStep(m, g.c, k, v2);
      assert s[1..] == k;
    } else {
      assert s[2..] == k;
    }
  }

  lemma {:induction false} RunSpelled(m: Machine, t: seq<Glyph>, k: string, v2: bool)
    requires !Verbatim(m.stack) && Spellable(t, k, v2)
    ensures RunMarkdown(m, Spell(t, k), v2) == RunMarkdown(Write(m, Chars(t)), k, v2)
    decreases |t|
  {
    hide RunMarkdown;
    if t == [] {
      assert m.out + "" == m.out;
    } else {
      GlyphStep(m, t[0], Spell(t[1..], k), v2);
      RunSpelled(Write(m, [t[0].c]), t[1..], k, v2);
      Assoc(m.out, [t[0].c], Chars(t[1..]));
    }
  }

  /** The token is read whole when what follows does not continue it. */
  lemma TokenRead(mark: Mark, k: string, v2: bool)
    requires MarkIn(mark, v2) && (Doubles(mark, v2) ==> !(Token(mark) <= k))
    ensures MarkdownToken(Token(mark) + k, v2) == Some((Token(mark), MarkStyle(mark, v2)))
  {
    var s := Token(mark) + k;
    assert s[0] == Token(mark)[0];
    match mark
    case Star => assert |s| > 1 ==> s[1] == k[0];
    case Underscore => assert |s| > 1 ==> s[1] == k[0];
    case DoubleStar => assert s[1] == '*';
    case DoubleUnderscore => assert s[1] == '_';
    case DoublePipe => assert s[1] == '|';
    case Tilde =>
  }

  lemma StepToken(m: Machine, s: string, token: string, style: Style, v2: bool)
    requires s != "" && s[0] != '\\' && !Verbatim(m.stack) && MarkdownToken(s, v2) == Some((token, style))
    ensures MarkdownStep(m, s, v2) ==
            (if LastOpen(m.stack, style).Some? then CloseAt(m, LastOpen(m.stack, style).value) else
              Push(m, style), |token|)
  {
  }

  lemma AfterToken(m: Machine, token: string, k: string, m': Machine, v2: bool)
    requires token != "" && MarkdownStep(m, token + k, v2) == (m', |token|)
    ensures RunMarkdown(m, token + k, v2) == RunMarkdown(m', k, v2)
  {
    assert (token + k)[|token|..] == k;
    RunStep(m, token + k, v2);
  }

  lemma OneOpen(o: OpenEntity)
    ensures LastOpen([o], o.style) == Some(0)
  {
  }

  lemma NoneYet(style: Style)
    ensures LastOpen([], style) == None
  {
  }

  /** Closing the only open entity after t was written. */
  lemma CloseOnly(m: Machine, style: Style, t: string)
    requires m.stack == []
    ensures CloseAt(Write(Push(m, style), t), 0) ==
            Machine(m.out + t, m.spans + (if t == "" then [] else [Span(style, Width(m.out), Width(t))]), [])
  {
    hide Width;
    WidthCat(m.out, t);
    WidthPositive(t);
    var o := OpenEntity(style, Width(m.out));
    var m' := Write(Push(m, style), t);
    assert m'.stack == [o] && [o][..0] + [o][1..] == [];
    assert m.spans + [] == m.spans;
  }

  lemma WidthPositive(t: string)
    ensures Width(t) > 0 <==> t != ""
  {
  }

  /** What may follow a run: nothing that would continue its closing token. */
  predicate Follows(k: string) { k == "" || k[0] !in {'*', '_', '`'} }

  lemma SpelledFollows(t: seq<Glyph>, k: string, v2: bool)
    requires Spellable(t, k, v2) && (t == [] ==> k == "")
    ensures Follows(Spell(t, k))
  {
  }

  lemma TokenStarts(mark: Mark, k: string)
    ensures Token(mark) + k != "" && (Token(mark) + k)[0] != '\\'
  {
  }

  lemma RunMarked(m: Machine, mark: Mark, t: seq<Glyph>, k: string, v2: bool)
    requires m.stack == [] && RunOk(Marked(mark, t), k, v2) && Follows(k)
    ensures RunMarkdown(m, PutRun(Marked(mark, t), k), v2) ==
            RunMarkdown(Machine(m.out + Chars(t), m.spans + AddRun(m.out, Marked(mark, t), v2), []), k, v2)
  {
    var token, style := Token(mark), MarkStyle(mark, v2);
    var rest := Spell(t, token + k);
    if t != [] { SpelledFollows(t, token + k, v2); }
    TokenRead(mark, rest, v2);
    TokenRead(mark, k, v2);
    hide MarkdownStep, MarkdownToken, RunMarkdown, Token, MarkStyle, Width, CloseAt, LastOpen, Spell, Chars, Spellable;
    TokenStarts(mark, rest);
    StepToken(m, token + rest, token, style, v2);
    NoneYet(style);
    AfterToken(m, token, rest, Push(m, style), v2);
    StyleIsMarked(mark, v2);
    RunSpelled(Push(m, style), t, token + k, v2);
    var m' := Write(Push(m, style), Chars(t));
    OneOpen(OpenEntity(style, Width(m.out)));
    TokenStarts(mark, k);
    StepToken(m', token + k, token, style, v2);
    AfterToken(m', token, k, CloseAt(m', 0), v2);
    CloseOnly(m, style, Chars(t));
  }

  lemma StyleIsMarked(mark: Mark, v2: bool)
    ensures MarkStyle(mark, v2) !in {Code, Pre}
  {
  }

  lemma SamePrefix(close: string, t: string, k: string)
    ensures close <= t + (close + k) <==> close <= t + close
  {
    assert (t + (close + k))[..|close|] == (t + close)[..|close|];
  }

  lemma CopyableTail(close: string, t: string)
    requires t != "" && Copyable(close, t)
    ensures Copyable(close, t[1..]) && !(close <= t + close)
  {
    assert (t + close)[0..] == t + close;
    forall n | 0 <= n < |t[1..]| ensures !(close <= (t[1..] + close)[n..]) {
      assert (t[1..] + close)[n..] == (t + close)[n + 1..];
    }
  }

  lemma CopyStep(m: Machine, s: string, v2: bool)
    requires Verbatim(m.stack) && s != "" && !(CloseToken(m.stack[|m.stack| - 1].style) <= s)
    ensures RunMarkdown(m, s, v2) == RunMarkdown(Write(m, [s[0]]), s[1..], v2)
  {
    RunStep(m, s, v2);
  }

  lemma {:induction false} RunCopiedText(m: Machine, t: string, k: string, v2: bool)
    requires Verbatim(m.stack) && Copyable(CloseToken(m.stack[|m.stack| - 1].style), t)
    ensures var close := CloseToken(m.stack[|m.stack| - 1].style);
            RunMarkdown(m, t + (close + k), v2) == RunMarkdown(Write(m, t), close + k, v2)
    decreases |t|
  {
    hide RunMarkdown, Copyable, CloseToken;
    var close := CloseToken(m.stack[|m.stack| - 1].style);
    if t == "" {
      assert m.out + "" == m.out && t + (close + k) == close + k;
    } else {
      var s := t + (close + k);
      CopyableTail(close, t);
      SamePrefix(close, t, k);
      CopyStep(m, s, v2);
      assert s[1..] == t[1..] + (close + k);
      RunCopiedText(Write(m, [t[0]]), t[1..], k, v2);
      assert [t[0]] + t[1..] == t;
      Assoc(m.out, [t[0]], t[1..]);
    }
  }

  lemma StepClose(m: Machine, k: string, v2: bool)
    requires Verbatim(m.stack)
    ensures var close := CloseToken(m.stack[|m.stack| - 1].style);
            MarkdownStep(m, close + k, v2) == (CloseAt(m, |m.stack| - 1), |close|)
  {
  }

  lemma OneTick(s: string)
    ensures "`" <= s <==> s != "" && s[0] == '`'
  {
  }

  lemma SingleTick(s: string, v2: bool)
    requires |s| > 0 && s[0] == '`' && (|s| > 2 ==> s[1] != '`' || s[2] != '`')
    ensures MarkdownToken(s, v2) == Some(("`", Code))
  {
    OneTick(s);
  }

  lemma OpenCopied(pre: bool, t: string, k: string, v2: bool)
    requires Copyable(if pre then "```" else "`", t) && Follows(k)
    ensures var token := if pre then "```" else "`";
            MarkdownToken(token + (t + (token + k)), v2) == Some((token, if pre then Pre else Code))
  {
    var token := if pre then "```" else "`";
    var s := token + (t + (token + k));
    if pre {
      assert s[..3] == "```";
    } else {
      if t != "" {
        CopyableTail(token, t);
        OneTick(t + token);
        assert s[1] == t[0];
      } else {
        assert t + (token + k) == token + k;
        assert |s| > 2 ==> s[2] == k[0];
      }
      SingleTick(s, v2);
    }
  }

  lemma RunCopied(m: Machine, pre: bool, t: string, k: string, v2: bool)
    requires m.stack == [] && Copyable(if pre then "```" else "`", t) && Follows(k)
    ensures RunMarkdown(m, PutRun(Copied(pre, t), k), v2) ==
            RunMarkdown(Machine(m.out + t, m.spans + AddRun(m.out, Copied(pre, t), v2), []), k, v2)
  {
    var token, style := if pre then "```" else "`", if pre then Pre else Code;
    var rest := t + (token + k);
    OpenCopied(pre, t, k, v2);
    assert token + rest != "" && (token + rest)[0] != '\\';
    assert token == CloseToken(style) && Copyable(token, t);
    hide MarkdownStep, MarkdownToken, RunMarkdown, Width, CloseAt, LastOpen, Copyable, CloseToken;
    StepToken(m, token + rest, token, style, v2);
    NoneYet(style);
    var m1 := Push(m, style);
    AfterToken(m, token, rest, m1, v2);
    RunCopiedText(m1, t, k, v2);
    StepClose(Write(m1, t), k, v2);
    AfterToken(Write(m1, t), token, k, CloseAt(Write(m1, t), 0), v2);
    CloseOnly(m, style, t);
  }

  lemma RunOne(m: Machine, r: Run, k: string, v2: bool)
    requires m.stack == [] && RunOk(r, k, v2) && Follows(k)
    ensures RunMarkdown(m, PutRun(r, k), v2)
            == RunMarkdown(Machine(m.out + RunChars(r), m.spans + AddRun(m.out, r, v2), []), k, v2)
  {
    match r
    case Marked(mark, t) => RunMarked(m, mark, t, k, v2);
    case Copied(pre, t) => RunCopied(m, pre, t, k, v2);
  }

  lemma {:induction false} RunPieces(m: Machine, pieces: seq<Piece>, v2: bool)
    requires m.stack == [] && PiecesOk(pieces, v2)
    ensures RunMarkdown(m, Put(pieces), v2) ==
            Machine(m.out + Texts(pieces), m.spans + Entities(m.out, pieces, v2), [])
    decreases |pieces|
  {
    hide PutRun, AddRun, RunChars, Chars, Spellable, Printable, Vanishes;
    if pieces == [] {
      assert m.out + "" == m.out && m.spans + [] == m.spans;
    } else {
      var r, plain, rest := pieces[0].run, pieces[0].plain, pieces[1..];
      hide RunMarkdown;
      var k := Spell(plain, Put(rest));
      SpelledFollows(plain, Put(rest), v2);
      assert !Vanishes(pieces[0].run, v2) && NoneVanishes(rest, v2);
      RunOne(m, r, k, v2);
      var m1 := Machine(m.out + RunChars(r), m.spans + AddRun(m.out, r, v2), []);
      RunSpelled(m1, plain, Put(rest), v2);
      RunPieces(Write(m1, Chars(plain)), rest, v2);
      Assoc(m.out + RunChars(r), Chars(plain), Texts(rest));
      Assoc(m.out, RunChars(r), Chars(plain) + Texts(rest));
      Assoc(m.spans, AddRun(m.out, r, v2), Entities(m.out + RunChars(r) + Chars(plain), rest, v2));
    }
  }

  // ---------- order ----------

  lemma SortedFrom(own: seq<Span>, later: seq<Span>, w: nat)
    requires |own| <= 1 && Sorted(later) && (own != [] ==> own[0].offset == w)
    requires forall i :: 0 <= i < |later| ==> later[i].offset >= w
    ensures Sorted(own + later) && forall i :: 0 <= i < |own + later| ==> (own + later)[i].offset >= w
  {
  }

  lemma {:induction false} EntitiesFrom(before: string, pieces: seq<Piece>, v2: bool)
    ensures Sorted(Entities(before, pieces, v2))
    ensures forall i :: 0 <= i < |Entities(before, pieces, v2)| ==>
              Entities(before, pieces, v2)[i].offset >= Width(before)
    decreases |pieces|
  {
    hide Width, Chars, RunChars, Sorted;
    if pieces == [] {
      SortedNothing();
    } else {
      var r, plain := RunChars(pieces[0].run), Chars(pieces[0].plain);
      EntitiesFrom(before + r + plain, pieces[1..], v2);
      WidthCat(before, r);
      WidthCat(before + r, plain);
      SortedFrom(AddRun(before, pieces[0].run, v2), Entities(before + r + plain, pieces[1..], v2), Width(before));
    }
  }

  lemma SortedNothing()
    ensures Sorted([])
  {
  }

  lemma {:induction false} SortOfSorted(s: seq<Span>)
    requires Sorted(s)
    ensures Sort(s) == s
  {
    if s != [] { SortOfSorted(s[1..]); }
  }

  lemma PrintedBack(plain: seq<Glyph>, pieces: seq<Piece>, v2: bool)
    requires Spellable(plain, Put(pieces), v2) && PiecesOk(pieces, v2)
    ensures var text := Chars(plain);
            Markdown(Printed(plain, pieces), v2) == Some(Formatted(text + Texts(pieces), Entities(text, pieces, v2)))
  {
    var text := Chars(plain);
    RunSpelled(EMPTY, plain, Put(pieces), v2);
    assert "" + text == text;
    RunPieces(Write(EMPTY, text), pieces, v2);
    EntitiesFrom(text, pieces, v2);
    SortOfSorted(Entities(text, pieces, v2));
    assert [] + Entities(text, pieces, v2) == Entities(text, pieces, v2);
  }

  // ---------- runs that vanish ----------

  predicate SpanAt(spans: seq<Span>, w: nat) { exists i :: 0 <= i < |spans| && spans[i].offset == w }

  predicate OpenAt(stack: seq<OpenEntity>, w: nat) { exists i :: 0 <= i < |stack| && stack[i].offset == w }

  /** Text has been written since an entity was opened at w, and it is open still or has
      left a span there. */
  predicate Spoiled(m: Machine, w: nat) { Width(m.out) > w && (OpenAt(m.stack, w) || SpanAt(m.spans, w)) }

  lemma WriteSpoiled(m: Machine, t: string, w: nat)
    requires Spoiled(m, w)
    ensures Spoiled(Write(m, t), w)
  {
    hide Width;
    WidthCat(m.out, t);
  }

  lemma PushSpoiled(m: Machine, style: Style, w: nat)
    requires Spoiled(m, w)
    ensures Spoiled(Push(m, style), w)
  {
    hide Width;
    if i :| 0 <= i < |m.stack| && m.stack[i].offset == w { assert Push(m, style).stack[i].offset == w; }
  }

  lemma CloseSpoiled(m: Machine, i: nat, w: nat)
    requires Spoiled(m, w) && i < |m.stack|
    ensures Spoiled(CloseAt(m, i), w)
  {
    hide Width;
    var m' := CloseAt(m, i);
    if j :| 0 <= j < |m.spans| && m.spans[j].offset == w {
      assert m'.spans[j].offset == w;
    } else {
      var j :| 0 <= j < |m.stack| && m.stack[j].offset == w;
      if j == i {
        assert m'.spans[|m.spans|].offset == w;
      } else {
        assert m'.stack[if j < i then j else j - 1] == m.stack[j];
      }
    }
  }

  /** Nothing in the text to come undoes that. */
  lemma {:induction false} RunSpoiled(m: Machine, s: string, v2: bool, w: nat)
    requires Spoiled(m, w)
    ensures Spoiled(RunMarkdown(m, s, v2), w)
    decreases |s|
  {
    hide Spoiled, MarkdownToken, CloseAt, Push, LastOpen;
    if s != "" {
      var (m', n) := MarkdownStep(m, s, v2);
      forall t { WriteSpoiled(m, t, w); }
      forall style { PushSpoiled(m, style, w); }
      forall i: nat | i < |m.stack| { CloseSpoiled(m, i, w); }
      RunSpoiled(m', s[n..], v2, w);
    }
  }

  /** A run that vanishes opens an entity where it should have left nothing. */
  lemma VanishingOpens(m: Machine, mark: Mark, k: string, v2: bool) returns (style: Style)
    requires m.stack == [] && Doubles(mark, v2) && Follows(k)
    ensures RunMarkdown(m, PutRun(Marked(mark, []), k), v2) == RunMarkdown(Push(m, style), k, v2)
    ensures style !in {Code, Pre}
  {
    var pair := if mark == Star then DoubleStar else DoubleUnderscore;
    style := MarkStyle(pair, v2);
    assert Spell([], Token(mark) + k) == Token(mark) + k;
    assert PutRun(Marked(mark, []), k) == Token(pair) + k;
    TokenRead(pair, k, v2);
    TokenStarts(pair, k);
    StepToken(m, Token(pair) + k, Token(pair), style, v2);
    NoneYet(style);
    AfterToken(m, Token(pair), k, Push(m, style), v2);
  }

  /** What one vanishing run among separated ones leaves in the end: an entity that is still
      open, or a span at a place w that no run has. */
  lemma {:induction false} VanishingSpoils(m: Machine, pieces: seq<Piece>, v2: bool) returns (w: nat)
    requires m.stack == [] && Separated(pieces, v2) && !NoneVanishes(pieces, v2)
    ensures w >= Width(m.out) && !SpanAt(Entities(m.out, pieces, v2), w)
    ensures var end := RunMarkdown(m, Put(pieces), v2); end.stack != [] || SpanAt(end.spans, w)
    decreases |pieces|
  {
    hide PutRun, RunMarkdown, Width, Chars, RunChars, Spellable, Printable;
    var r, plain, rest := pieces[0].run, pieces[0].plain, pieces[1..];
    var k := Spell(plain, Put(rest));
    SpelledFollows(plain, Put(rest), v2);
    if Vanishes(r, v2) {
      w := Width(m.out);
      var style := VanishingOpens(m, r.mark, k, v2);
      VanishedLast(m, plain, rest, style, v2);
      VanishedText(r, v2);
      NoEntityThere(m.out, pieces, v2);
    } else {
      RunOne(m, r, k, v2);
      var m1 := Machine(m.out + RunChars(r), m.spans + AddRun(m.out, r, v2), []);
      RunSpelled(m1, plain, Put(rest), v2);
      w := VanishingSpoils(Write(m1, Chars(plain)), rest, v2);
      EarlierEntity(m.out, pieces, v2, w);
    }
  }

  lemma VanishedText(r: Run, v2: bool)
    requires Vanishes(r, v2)
    ensures RunChars(r) == "" && r == Marked(r.mark, [])
  {
  }

  /** The text after the vanished run is written behind the entity it opened. */
  lemma VanishedLast(m: Machine, plain: seq<Glyph>, rest: seq<Piece>, style: Style, v2: bool)
    requires m.stack == [] && style !in {Code, Pre} && (plain == [] ==> rest == [])
    requires Spellable(plain, Put(rest), v2)
    ensures var end := RunMarkdown(Push(m, style), Spell(plain, Put(rest)), v2);
            end.stack != [] || SpanAt(end.spans, Width(m.out))
  {
    var begun := Push(m, style);
    assert begun.stack[0].offset == Width(m.out);
    if plain != [] {
      RunSpelled(begun, plain, Put(rest), v2);
      WidthCat(m.out, Chars(plain));
      WidthPositive(Chars(plain));
      hide RunMarkdown, Width;
      RunSpoiled(Write(begun, Chars(plain)), Put(rest), v2, Width(m.out));
    }
  }

  lemma NoChars(s: seq<Glyph>)
    ensures Chars(s) == "" <==> s == []
  {
  }

  lemma NoEntityThere(before: string, pieces: seq<Piece>, v2: bool)
    requires pieces != [] && RunChars(pieces[0].run) == "" && (pieces[0].plain == [] ==> pieces[1..] == [])
    ensures !SpanAt(Entities(before, pieces, v2), Width(before))
  {
    hide Width, Chars, Sorted, RunChars;
    var plain := Chars(pieces[0].plain);
    assert before + "" + plain == before + plain;
    assert pieces[0].plain == [] <==> plain == "" by { NoChars(pieces[0].plain); }
    EntitiesFrom(before + plain, pieces[1..], v2);
    WidthCat(before, plain);
    WidthPositive(plain);
    assert Entities(before, pieces, v2) == Entities(before + plain, pieces[1..], v2);
  }

  lemma EarlierEntity(before: string, pieces: seq<Piece>, v2: bool, w: nat)
    requires pieces != []
    requires var r, plain := RunChars(pieces[0].run), Chars(pieces[0].plain);
             w >= Width(before + r + plain) && !SpanAt(Entities(before + r + plain, pieces[1..], v2), w)
    ensures w >= Width(before) && !SpanAt(Entities(before, pieces, v2), w)
  {
    hide Width;
    var r, plain := RunChars(pieces[0].run), Chars(pieces[0].plain);
    WidthCat(before, r);
    WidthCat(before + r, plain);
    WidthPositive(r);
    var own, later := AddRun(before, pieces[0].run, v2), Entities(before + r + plain, pieces[1..], v2);
    var all := own + later;
    forall i | 0 <= i < |all| ensures all[i].offset != w {
      if i >= |own| { assert all[i] == later[i - |own|]; }
    }
  }

  /** Printing and parsing returns the concatenated text and exactly one entity for each run
      that is not empty, where the run is, with code and pre text as it was, whichever
      characters are escaped and whichever stand bare where they may: exactly if no run
      vanishes. An empty one between single tokens that double spoils the result wherever it
      stands, also where a second one closes what it has opened. */
  lemma RoundTrip(plain: seq<Glyph>, pieces: seq<Piece>, v2: bool)
    requires Spellable(plain, Put(pieces), v2) && Separated(pieces, v2)
    ensures Markdown(Printed(plain, pieces), v2)
              == Some(Formatted(Chars(plain) + Texts(pieces), Entities(Chars(plain), pieces, v2)))
       <==> forall i :: 0 <= i < |pieces| && pieces[i].run.Marked? && Doubles(pieces[i].run.mark, v2) ==>
                          pieces[i].run.text != []
  {
    if NoneVanishes(pieces, v2) {
      assert forall i :: 0 <= i < |pieces| ==> !Vanishes(pieces[i].run, v2);
      PrintedBack(plain, pieces, v2);
    } else {
      NotBack(plain, pieces, v2);
      var i :| 0 <= i < |pieces| && Vanishes(pieces[i].run, v2);
      assert pieces[i].run.Marked? && Doubles(pieces[i].run.mark, v2) && pieces[i].run.text == [];
    }
  }

  lemma NotBack(plain: seq<Glyph>, pieces: seq<Piece>, v2: bool)
    requires Spellable(plain, Put(pieces), v2) && Separated(pieces, v2) && !NoneVanishes(pieces, v2)
    ensures var text := Chars(plain);
            Markdown(Printed(plain, pieces), v2) != Some(Formatted(text + Texts(pieces), Entities(text, pieces, v2)))
  {
    hide RunMarkdown, Width, Separated, NoneVanishes, Spellable, Chars;
    var text := Chars(plain);
    RunSpelled(EMPTY, plain, Put(pieces), v2);
    assert "" + text == text;
    var w := VanishingSpoils(Write(EMPTY, text), pieces, v2);
    var end := RunMarkdown(Write(EMPTY, text), Put(pieces), v2);
    if end.stack == [] {
      SortHolds(end.spans);
      var i :| 0 <= i < |end.spans| && end.spans[i].offset == w;
      assert end.spans[i] in Sort(end.spans);
      var j :| 0 <= j < |Sort(end.spans)| && Sort(end.spans)[j] == end.spans[i];
      assert SpanAt(Sort(end.spans), w);
    }
  }

  /** For example, nothing is left between two single tokens, and what is printed reads as
      one token that is never closed. */
  lemma EmptySingleToken(mark: Mark, v2: bool)
    requires Doubles(mark, v2)
    ensures Markdown(Token(mark) + Token(mark), v2) == None
  {
    var s := Token(mark) + Token(mark);
    var style := if mark == Star then Bold else MarkStyle(DoubleUnderscore, v2);
    assert MarkdownStep(EMPTY, s, v2) == (Push(EMPTY, style), 2);
    assert s[2..] == "";
    RunStep(EMPTY, s, v2);
  }

  // ---------- text without tokens ----------

  function Bare(s: string): seq<Glyph> { if s == "" then [] else [Glyph(s[0], true)] + Bare(s[1..]) }

  lemma {:induction false} BareSpelled(s: string, v2: bool)
    requires forall i :: 0 <= i < |s| ==> s[i] !in {'\\', '*', '_', '`'}
    requires v2 ==> forall i :: 0 <= i < |s| ==> s[i] != '~' && s[i] != '|'
    ensures Chars(Bare(s)) == s && Spell(Bare(s), "") == s && Spellable(Bare(s), "", v2)
  {
    if s != "" { BareSpelled(s[1..], v2); }
  }

  /** A text with no backslash and no token character of the mode is its own meaning. */
  lemma PlainText(s: string, v2: bool)
    requires forall i :: 0 <= i < |s| ==> s[i] !in {'\\', '*', '_', '`'}
    requires v2 ==> forall i :: 0 <= i < |s| ==> s[i] != '~' && s[i] != '|'
    ensures Markdown(s, v2) == Some(Formatted(s, []))
  {
    BareSpelled(s, v2);
    PrintedBack(Bare(s), [], v2);
    assert s + "" == s;
  }

  // ---------- HTML ----------

  /** A list of text and elements. */
  datatype Tree = Nothing | Leaf(s: string, rest: Tree) | Element(style: Style, inner: Tree, rest: Tree)

  function Tokens(t: Tree, k: seq<HtmlToken>): seq<HtmlToken> {
    match t
    case Nothing => k
    case Leaf(s, rest) => [Text(s)] + Tokens(rest, k)
    case Element(style, inner, rest) => [Opening(style)] + Tokens(inner, [Closing(style)] + Tokens(rest, k))
  }

  function TreeText(t: Tree): string {
    match t
    case Nothing => ""
    case Leaf(s, rest) => s + TreeText(rest)
    case Element(_, inner, rest) => TreeText(inner) + TreeText(rest)
  }

  /** One span for each element that is not empty, after those inside it. */
  function TreeSpans(before: string, t: Tree): seq<Span>
    decreases t
  {
    match t
    case Nothing => []
    case Leaf(s, rest) => TreeSpans(before + s, rest)
    case Element(style, inner, rest) =>
      TreeSpans(before, inner)
      + ((if TreeText(inner) == "" then [] else [Span(style, Width(before), Width(TreeText(inner)))])
         + TreeSpans(before + TreeText(inner), rest))
  }

  lemma RunHtmlFirst(m: Machine, t: HtmlToken, k: seq<HtmlToken>, m': Machine)
    requires HtmlStep(m, t) == Some(m')
    ensures RunHtml(m, [t] + k) == RunHtml(m', k)
  {
    assert ([t] + k)[0] == t && ([t] + k)[1..] == k;
  }

  lemma LastOpenTop(stack: seq<OpenEntity>, o: OpenEntity)
    ensures LastOpen(stack + [o], o.style) == Some(|stack|)
  {
  }

  /** Closing what was just opened, after the text s inside it. */
  lemma CloseTop(out: string, style: Style, s: string, spans: seq<Span>, stack: seq<OpenEntity>)
    ensures CloseAt(Machine(out + s, spans, stack + [OpenEntity(style, Width(out))]), |stack|) ==
            Machine(out + s, spans + (if s == "" then [] else [Span(style, Width(out), Width(s))]), stack)
  {
    hide Width;
    WidthCat(out, s);
    WidthPositive(s);
    var o := OpenEntity(style, Width(out));
    assert (stack + [o])[..|stack|] + (stack + [o])[|stack| + 1..] == stack;
    assert spans + [] == spans;
  }

  lemma {:induction false} RunTree(m: Machine, t: Tree, k: seq<HtmlToken>)
    ensures RunHtml(m, Tokens(t, k)) ==
            RunHtml(Machine(m.out + TreeText(t), m.spans + TreeSpans(m.out, t), m.stack), k)
    decreases t
  {
    hide RunHtml, Width, CloseAt, LastOpen;
    match t
    case Nothing =>
      assert m.out + "" == m.out && m.spans + [] == m.spans;
    case Leaf(s, rest) =>
      RunHtmlFirst(m, Text(s), Tokens(rest, k), Write(m, s));
      RunTree(Write(m, s), rest, k);
      Assoc(m.out, s, TreeText(rest));
    case Element(style, inner, rest) =>
      var text, o := TreeText(inner), OpenEntity(style, Width(m.out));
      var inside := m.spans + TreeSpans(m.out, inner);
      var own := if text == "" then [] else [Span(style, Width(m.out), Width(text))];
      var closing := [Closing(style)] + Tokens(rest, k);
      RunHtmlFirst(m, Opening(style), Tokens(inner, closing), Push(m, style));
      RunTree(Push(m, style), inner, closing);
      LastOpenTop(m.stack, o);
      CloseTop(m.out, style, text, inside, m.stack);
      var m1 := Machine(m.out + text, inside + own, m.stack);
      RunHtmlFirst(Machine(m.out + text, inside, m.stack + [o]), Closing(style), Tokens(rest, k), m1);
      RunTree(m1, rest, k);
      Assoc(m.out, text, TreeText(rest));
      Assoc(inside, own, TreeSpans(m.out + text, rest));
      Assoc(m.spans, TreeSpans(m.out, inner), own + TreeSpans(m.out + text, rest));
  }

  /** Printing a tree and parsing it returns its text and one entity for each element that
      is not empty, where its text is. */
  lemma HtmlRoundTrip(t: Tree)
    ensures Html(Tokens(t, [])) == Some(Formatted(TreeText(t), Sort(TreeSpans("", t))))
  {
    RunTree(EMPTY, t, []);
    assert "" + TreeText(t) == TreeText(t) && [] + TreeSpans("", t) == TreeSpans("", t);
  }
}
