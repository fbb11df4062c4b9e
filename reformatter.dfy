/**
 * The line wrapper and code-block colouriser of base/ai.py (`reformat`): a
 * single pass over the splitter's tokens that word-wraps prose to a target
 * width, passes fenced code blocks through untouched and colours them with
 * ANSI escapes, and ends the output with one extra newline.
 */
module Reformatter {
  import opened Text
  import opened WhitespaceSplitter

  /** The code-block marker, recognised only as the first token of a line. */
  const Fence: string := "```"
  /** Bold red, queued after an opening fence for the next newline. */
  const StartCode: string := "\U{1B}[31;1m"
  /** Colour reset, emitted just before a closing fence. */
  const ResetColor: string := "\U{1B}[0m"

  datatype Mode = Paragraph | Code

  /** The four mutable locals of the loop of base/ai.py:45-91. */
  datatype State = State(mode: Mode, lineLen: nat, pendingSpace: bool, ansiAfterNewline: Option<string>)

  const Initial: State := State(Paragraph, 0, false, None)

  /** The wrap width: the terminal's column count, capped at 80. */
  function TargetWidth(columns: nat): (width: nat)
    ensures width <= 80 && width <= columns
    ensures width == 80 || width == columns
  {
    if columns < 80 then columns else 80
  }

  /**
   * What holds of every state the loop reaches from the start: code mode
   * never counts columns, and the only escape ever queued is the colour start.
   */
  predicate Consistent(st: State) {
    (st.mode == Code ==> st.lineLen == 0) &&
    (st.ansiAfterNewline == None || st.ansiAfterNewline == Some(StartCode))
  }

  /** Output pieces that only lay text out: separators and colour escapes. */
  predicate IsLayout(t: string) {
    t == " " || t == "\n" || t == StartCode || t == ResetColor
  }

  /** The pieces of `out` that carry text, in order. */
  function Content(out: seq<string>): (r: seq<string>)
  {
    if out == [] then []
    else
      var last := out[|out| - 1];
      Content(out[..|out| - 1]) + (if IsLayout(last) then [] else [last])
  }

  /** The text-carrying pieces are exactly the pieces of `out` that are not layout. */
  lemma {:induction false} ContentMembers(out: seq<string>)
    ensures forall t :: t in Content(out) <==> t in out && !IsLayout(t)
  {
    if out != [] {
      ContentMembers(out[..|out| - 1]);
      assert out == out[..|out| - 1] + [out[|out| - 1]];
    }
  }

  lemma {:induction false} ContentAppend(a: seq<string>, b: seq<string>)
    ensures Content(a + b) == Content(a) + Content(b)
    decreases |b|
  {
    if b == [] {
      assert a + b == a;
    } else {
      assert (a + b)[..|a + b| - 1] == a + b[..|b| - 1];
      ContentAppend(a, b[..|b| - 1]);
    }
  }

  /** Every colour start directly follows a newline; every reset directly precedes a fence. */
  predicate EscapesPlaced(out: seq<string>) {
    (forall i :: 0 <= i < |out| && out[i] == StartCode ==> 0 < i && out[i - 1] == "\n") &&
    (forall i :: 0 <= i < |out| && out[i] == ResetColor ==> i + 1 < |out| && out[i + 1] == Fence)
  }

  lemma EscapesPlacedAppend(a: seq<string>, b: seq<string>)
    requires EscapesPlaced(a) && EscapesPlaced(b)
    ensures EscapesPlaced(a + b)
  {
    var ab := a + b;
    forall i | 0 <= i < |ab| && ab[i] == StartCode
      ensures 0 < i && ab[i - 1] == "\n"
    {
      if i >= |a| {
        assert b[i - |a|] == StartCode;
      }
    }
    forall i | 0 <= i < |ab| && ab[i] == ResetColor
      ensures i + 1 < |ab| && ab[i + 1] == Fence
    {
      if i >= |a| {
        assert b[i - |a|] == ResetColor;
      } else {
        assert a[i] == ResetColor;
      }
    }
  }

  /**
   * One turn of the loop of base/ai.py:54-91: the next state and the pieces
   * yielded for token `tok`. A fence toggles the mode exactly when it opens a
   * line, and no token changes the text it carries.
   */
  function Step(st: State, tok: string, width: nat): (r: (State, seq<string>))
    ensures r.0.mode != st.mode <==> st.lineLen == 0 && tok == Fence
    ensures Consistent(st) ==> Consistent(r.0)
  {
    if st.lineLen == 0 && tok == Fence then
      match st.mode
      case Paragraph => (st.(mode := Code, ansiAfterNewline := Some(StartCode)), [tok])
      case Code => (st.(mode := Paragraph), [ResetColor, tok])
    else if tok == "\n" then
      if st.ansiAfterNewline.Some? && st.ansiAfterNewline.value != [] then
        (st.(lineLen := 0, ansiAfterNewline := None), [tok, st.ansiAfterNewline.value])
      else
        (st.(lineLen := 0), [tok])
    else if st.mode == Paragraph && tok == " " then
      (st.(pendingSpace := true, lineLen := st.lineLen + 1), [])
    else if st.mode == Paragraph then
      var newLen := st.lineLen + |tok|;
      if st.pendingSpace then
        if newLen > width then
          (st.(lineLen := |tok|, pendingSpace := false), ["\n", tok])
        else
          (st.(lineLen := newLen, pendingSpace := false), [" ", tok])
      else
        (st.(lineLen := newLen, pendingSpace := false), [tok])
    else
      (st, [tok])
  }

  /** A step yields the text of its token and nothing else that carries text. */
  lemma StepKeepsContent(st: State, tok: string, width: nat)
    requires Consistent(st)
    ensures Content(Step(st, tok, width).1) == Content([tok])
  {
    var out := Step(st, tok, width).1;
    assert [tok][..0] == [];
    if |out| == 2 {
      assert [out[0]][..0] == [] && [out[1]][..0] == [];
      ContentAppend([out[0]], [out[1]]);
      assert [out[0]] + [out[1]] == out;
    }
  }

  /** A step places its own escapes: the colour start after its newline, the reset before its fence. */
  lemma StepPlacesEscapes(st: State, tok: string, width: nat)
    requires Consistent(st) && tok != StartCode && tok != ResetColor
    ensures EscapesPlaced(Step(st, tok, width).1)
  {
  }

  /** The loop run over `tokens` from `st`: the final state and everything yielded. */
  function Run(st: State, tokens: seq<string>, width: nat): (r: (State, seq<string>))
  {
    if tokens == [] then (st, [])
    else
      var prev := Run(st, tokens[..|tokens| - 1], width);
      var last := Step(prev.0, tokens[|tokens| - 1], width);
      (last.0, prev.1 + last.1)
  }

  /** The whole output of `reformat` for a token stream: the loop, then one newline. */
  function Render(tokens: seq<string>, width: nat): (out: seq<string>)
    ensures |out| > 0 && out[|out| - 1] == "\n"
  {
    Run(Initial, tokens, width).1 + ["\n"]
  }

  /** Running one more token is one more step after the run so far. */
  lemma RunSnoc(st: State, tokens: seq<string>, t: string, width: nat)
    ensures Run(st, tokens + [t], width).0 == Step(Run(st, tokens, width).0, t, width).0
    ensures Run(st, tokens + [t], width).1 == Run(st, tokens, width).1 + Step(Run(st, tokens, width).0, t, width).1
  {
    assert (tokens + [t])[..|tokens|] == tokens;
  }

  /** The run over one more token of a stream is one more step after the run so far. */
  lemma RunPrefix(st: State, tokens: seq<string>, i: nat, width: nat)
    requires i < |tokens|
    ensures Run(st, tokens[..i + 1], width).0 == Step(Run(st, tokens[..i], width).0, tokens[i], width).0
    ensures Run(st, tokens[..i + 1], width).1 == Run(st, tokens[..i], width).1 + Step(Run(st, tokens[..i], width).0, tokens[i], width).1
  {
    assert tokens[..i + 1] == tokens[..i] + [tokens[i]];
    RunSnoc(st, tokens[..i], tokens[i], width);
  }

  /** Every state the loop reaches is consistent; in particular the fence's third branch is dead. */
  lemma {:induction false} RunConsistent(st: State, tokens: seq<string>, width: nat)
    requires Consistent(st)
    ensures Consistent(Run(st, tokens, width).0)
    decreases |tokens|
  {
    if tokens != [] {
      RunConsistent(st, tokens[..|tokens| - 1], width);
    }
  }

  /** In code mode no column is counted, so any fence token closes the block. */
  lemma FenceClosesCode(st: State, width: nat)
    requires Consistent(st) && st.mode == Code
    ensures Step(st, Fence, width) == (st.(mode := Paragraph), [ResetColor, Fence])
  {
  }

  /** At the start of a prose line a fence opens a block: it is yielded alone and the colour start is queued. */
  lemma FenceOpensCode(st: State, width: nat)
    requires st.mode == Paragraph && st.lineLen == 0
    ensures Step(st, Fence, width) == (st.(mode := Code, ansiAfterNewline := Some(StartCode)), [Fence])
  {
  }

  /** After an opening fence the colour start stays queued until a newline comes. */
  lemma {:induction false} QueueHeldUntilNewline(tokens: seq<string>, i: nat, k: nat, width: nat)
    requires i < k <= |tokens|
    requires Run(Initial, tokens[..i], width).0.mode == Paragraph
    requires Run(Initial, tokens[..i], width).0.lineLen == 0
    requires tokens[i] == Fence
    requires forall m :: i < m < k ==> tokens[m] != "\n"
    ensures Run(Initial, tokens[..k], width).0.ansiAfterNewline == Some(StartCode)
    decreases k
  {
    RunPrefix(Initial, tokens, k - 1, width);
    if k > i + 1 {
      QueueHeldUntilNewline(tokens, i, k - 1, width);
      QueueKept(Run(Initial, tokens[..k - 1], width).0, tokens[k - 1], width);
    } else {
      FenceOpensCode(Run(Initial, tokens[..i], width).0, width);
    }
  }

  /** Only a newline takes the colour start off the queue; a fence may queue it again. */
  lemma QueueKept(st: State, t: string, width: nat)
    requires st.ansiAfterNewline == Some(StartCode) && t != "\n"
    ensures Step(st, t, width).0.ansiAfterNewline == Some(StartCode)
  {
  }

  /** The first newline after an opening fence is followed by the colour start. */
  lemma ColourFollowsOpeningLine(tokens: seq<string>, i: nat, j: nat, width: nat)
    requires i < j < |tokens|
    requires Run(Initial, tokens[..i], width).0.mode == Paragraph
    requires Run(Initial, tokens[..i], width).0.lineLen == 0
    requires tokens[i] == Fence && tokens[j] == "\n"
    requires forall m :: i < m < j ==> tokens[m] != "\n"
    ensures Step(Run(Initial, tokens[..j], width).0, tokens[j], width).1 == ["\n", StartCode]
    ensures Run(Initial, tokens[..j + 1], width).1 == Run(Initial, tokens[..j], width).1 + ["\n", StartCode]
  {
    QueueHeldUntilNewline(tokens, i, j, width);
    RunPrefix(Initial, tokens, j, width);
  }

  /**
   * A newline, in either mode, ends the counted line, is yielded itself and
   * is followed by the queued colour start exactly once; a pending space
   * survives it.
   */
  lemma NewlineFlushesQueue(st: State, width: nat)
    requires Consistent(st)
    ensures var (next, out) := Step(st, "\n", width);
      next == st.(lineLen := 0, ansiAfterNewline := None) &&
      out == (if st.ansiAfterNewline == Some(StartCode) then ["\n", StartCode] else ["\n"])
  {
  }

  /**
   * The width is consulted only for a prose word behind a pending space: every
   * other step yields the same whatever the width, so a word with no space
   * before it is never wrapped.
   */
  lemma WidthOnlyAfterSpace(st: State, tok: string, width1: nat, width2: nat)
    requires !st.pendingSpace || st.mode == Code || tok == " " || tok == "\n"
    ensures Step(st, tok, width1) == Step(st, tok, width2)
  {
  }

  /** Every text-carrying token is yielded once, unchanged and in order; nothing else carries text. */
  lemma {:induction false} RunKeepsContent(st: State, tokens: seq<string>, width: nat)
    requires Consistent(st)
    ensures Content(Run(st, tokens, width).1) == Content(tokens)
    decreases |tokens|
  {
    if tokens != [] {
      var init := tokens[..|tokens| - 1];
      var last := tokens[|tokens| - 1];
      RunKeepsContent(st, init, width);
      RunConsistent(st, init, width);
      var prev := Run(st, init, width);
      StepKeepsContent(prev.0, last, width);
      ContentAppend(prev.1, Step(prev.0, last, width).1);
      ContentAppend(init, [last]);
      assert init + [last] == tokens;
    }
  }

  lemma RenderKeepsContent(tokens: seq<string>, width: nat)
    ensures Content(Render(tokens, width)) == Content(tokens)
  {
    RunKeepsContent(Initial, tokens, width);
    ContentAppend(Run(Initial, tokens, width).1, ["\n"]);
    assert Content(["\n"]) == [];
  }

  /**
   * Unless the input itself carries escape codes, the colour start only ever
   * follows a newline and the reset only ever precedes a fence.
   */
  lemma {:induction false} RunPlacesEscapes(st: State, tokens: seq<string>, width: nat)
    requires Consistent(st)
    requires forall t :: t in tokens ==> t != StartCode && t != ResetColor
    ensures EscapesPlaced(Run(st, tokens, width).1)
    decreases |tokens|
  {
    if tokens != [] {
      var init := tokens[..|tokens| - 1];
      var last := tokens[|tokens| - 1];
      assert last in tokens;
      assert forall t :: t in init ==> t in tokens;
      RunPlacesEscapes(st, init, width);
      RunConsistent(st, init, width);
      var prev := Run(st, init, width);
      StepPlacesEscapes(prev.0, last, width);
      EscapesPlacedAppend(prev.1, Step(prev.0, last, width).1);
    }
  }

  lemma RenderPlacesEscapes(tokens: seq<string>, width: nat)
    requires forall t :: t in tokens ==> t != StartCode && t != ResetColor
    ensures EscapesPlaced(Render(tokens, width))
  {
    RunPlacesEscapes(Initial, tokens, width);
    EscapesPlacedAppend(Run(Initial, tokens, width).1, ["\n"]);
  }

  /**
   * Inside a code block every token other than a newline or a fence is
   * yielded exactly as it came, spaces included, and the state does not move.
   */
  lemma {:induction false} CodePassthrough(st: State, tokens: seq<string>, width: nat)
    requires st.mode == Code
    requires forall t :: t in tokens ==> t != "\n" && t != Fence
    ensures Run(st, tokens, width) == (st, tokens)
    decreases |tokens|
  {
    if tokens != [] {
      var init := tokens[..|tokens| - 1];
      assert forall t :: t in init ==> t in tokens;
      assert tokens[|tokens| - 1] in tokens;
      CodePassthrough(st, init, width);
      assert init + [tokens[|tokens| - 1]] == tokens;
    }
  }

  /**
   * The wrap decision for a word behind a pending space: a line break when
   * the word would reach past the width, a single space otherwise.
   */
  lemma WrapDecision(st: State, word: string, width: nat)
    requires st.mode == Paragraph && st.pendingSpace
    requires IsWord(word) && (word != Fence || st.lineLen > 0)
    ensures var (next, out) := Step(st, word, width);
      out == (if st.lineLen + |word| > width then ["\n", word] else [" ", word]) &&
      !next.pendingSpace && (next.lineLen <= width || next.lineLen == |word|)
  {
    assert word != "\n" && word != " " by {
      assert !IsDelimiter(word[0]);
    }
  }

  /** Tokens of prose with no fence: the splitter's shapes, wrapped in paragraph mode throughout. */
  predicate Prose(tokens: seq<string>) {
    forall t :: t in tokens ==> IsToken(t) && t != Fence
  }

  /**
   * In prose the column the output leaves the cursor in never exceeds the
   * counted line length, plus one when no space is pending (a pending space
   * that survived a newline is printed before the next word without being
   * counted).
   */
  lemma {:induction false} ColumnBoundedByLineLen(tokens: seq<string>, width: nat)
    requires Prose(tokens)
    ensures var (st, out) := Run(Initial, tokens, width);
      st.mode == Paragraph && st.ansiAfterNewline == None &&
      Column(Concat(out)) <= st.lineLen + (if st.pendingSpace then 0 else 1)
    decreases |tokens|
  {
    if tokens != [] {
      var init := tokens[..|tokens| - 1];
      var t := tokens[|tokens| - 1];
      assert t in tokens;
      assert forall x :: x in init ==> x in tokens;
      ColumnBoundedByLineLen(init, width);
      var (mid, out) := Run(Initial, init, width);
      var (next, more) := Step(mid, t, width);
      ConcatAppend(out, more);
      ProseStepColumn(mid, t, width, Concat(out));
    }
  }

  /** One prose step moves the column as the counted line length allows. */
  lemma ProseStepColumn(st: State, t: string, width: nat, printed: string)
    requires IsToken(t) && t != Fence
    requires st.mode == Paragraph && st.ansiAfterNewline == None
    requires Column(printed) <= st.lineLen + (if st.pendingSpace then 0 else 1)
    ensures var (next, more) := Step(st, t, width);
      next.mode == Paragraph && next.ansiAfterNewline == None &&
      Column(printed + Concat(more)) <= next.lineLen + (if next.pendingSpace then 0 else 1)
  {
    var (next, more) := Step(st, t, width);
    if t == "\n" {
      assert Concat(more) == "\n";
      ColumnAppend(printed, "\n");
    } else if t == " " {
      assert Concat(more) == [];
      assert printed + [] == printed;
    } else {
      assert '\n' !in t by {
        assert IsWord(t);
      }
      if st.pendingSpace && st.lineLen + |t| > width {
        ConcatPair("\n", t);
        assert Concat(more) == "\n" + t;
        ColumnAppend("\n", t);
        ColumnAppend(printed, "\n" + t);
      } else if st.pendingSpace {
        ConcatPair(" ", t);
        assert Concat(more) == " " + t;
        assert '\n' !in " " + t;
        ColumnAppend(printed, " " + t);
      } else {
        assert Concat(more) == t;
        ColumnAppend(printed, t);
      }
    }
  }

  /**
   * Once a word behind a pending space has been placed, the current line is
   * at most one column wider than the width, or the word starts it alone.
   */
  lemma SpacedWordFitsLine(tokens: seq<string>, word: string, width: nat)
    requires Prose(tokens) && IsWord(word) && word != Fence
    requires Run(Initial, tokens, width).0.pendingSpace
    ensures var c := Column(Concat(Run(Initial, tokens + [word], width).1));
      c <= width + 1 || c == |word|
  {
    ColumnBoundedByLineLen(tokens, width);
    RunSnoc(Initial, tokens, word, width);
    var prev := Run(Initial, tokens, width);
    ConcatAppend(prev.1, Step(prev.0, word, width).1);
    SpacedWordColumn(prev.0, word, width, Concat(prev.1));
  }

  /** The column after one word placed behind a pending space. */
  lemma SpacedWordColumn(st: State, word: string, width: nat, printed: string)
    requires IsWord(word) && word != Fence
    requires st.mode == Paragraph && st.pendingSpace
    requires Column(printed) <= st.lineLen
    ensures var c := Column(printed + Concat(Step(st, word, width).1));
      c <= width + 1 || c == |word|
  {
    WrapDecision(st, word, width);
    assert '\n' !in word by {
      assert IsWord(word);
    }
    var more := Step(st, word, width).1;
    if st.lineLen + |word| > width {
      ConcatPair("\n", word);
      assert Concat(more) == "\n" + word;
      ColumnAppend("\n", word);
      ColumnAppend(printed, "\n" + word);
    } else {
      ConcatPair(" ", word);
      assert Concat(more) == " " + word;
      assert '\n' !in " " + word;
      ColumnAppend(printed, " " + word);
    }
  }

  /**
   * The current line of `s` is at most width + 1 columns, or it is exactly
   * one of the words of `tokens`: a word too long for the width stands alone.
   */
  predicate LineFits(s: string, width: nat, tokens: seq<string>) {
    Column(s) <= width + 1 ||
    exists w :: w in tokens && IsWord(w) && s[|s| - Column(s)..] == w
  }

  lemma LineFitsGrows(s: string, width: nat, fewer: seq<string>, more: seq<string>)
    requires LineFits(s, width, fewer)
    requires forall x :: x in fewer ==> x in more
    ensures LineFits(s, width, more)
  {
    if Column(s) > width + 1 {
      var w :| w in fewer && IsWord(w) && s[|s| - Column(s)..] == w;
      assert w in more;
    }
  }

  /**
   * After one step from `st` on `t`, with `printed` already on screen: the
   * line still fits, a counted length of 0 is an empty line, and a non-word
   * token that leaves no space pending ends the counted line.
   */
  predicate StepKeepsLineFitting(st: State, t: string, width: nat, printed: string, seen: seq<string>) {
    var (next, more) := Step(st, t, width);
    LineFits(printed + Concat(more), width, seen) &&
    (next.lineLen == 0 ==> Column(printed + Concat(more)) == 0) &&
    (!next.pendingSpace && !IsWord(t) ==> next.lineLen == 0)
  }

  /**
   * One prose step keeps the current line fitting, given that a word with no
   * space before it starts a fresh counted line and that a counted line of
   * length 0 is an empty printed line.
   */
  lemma WrapStepColumn(st: State, t: string, width: nat, printed: string, seen: seq<string>)
    requires IsToken(t) && t != Fence && t in seen
    requires st.mode == Paragraph && st.ansiAfterNewline == None
    requires Column(printed) <= st.lineLen + (if st.pendingSpace then 0 else 1)
    requires st.lineLen == 0 ==> Column(printed) == 0
    requires LineFits(printed, width, seen)
    requires IsWord(t) && !st.pendingSpace ==> st.lineLen == 0
    ensures StepKeepsLineFitting(st, t, width, printed, seen)
  {
    if t == "\n" {
      ConcatPair("\n", "");
      ColumnAppend(printed, "\n");
    } else if t == " " {
      assert printed + Concat(Step(st, t, width).1) == printed;
    } else if st.pendingSpace && st.lineLen + |t| > width {
      BrokenWordFits(st, t, width, printed, seen);
    } else if st.pendingSpace {
      SpacedWordFits(st, t, width, printed, seen);
    } else {
      UnspacedWordFits(st, t, width, printed, seen);
    }
  }

  /** A word that does not fit behind the pending space goes to a new line, alone. */
  lemma BrokenWordFits(st: State, t: string, width: nat, printed: string, seen: seq<string>)
    requires IsWord(t) && t != Fence && t in seen
    requires st.mode == Paragraph && st.pendingSpace && st.lineLen + |t| > width
    ensures StepKeepsLineFitting(st, t, width, printed, seen)
  {
    assert '\n' !in t by {
      assert IsWord(t);
    }
    var more := Step(st, t, width).1;
    ConcatPair("\n", t);
    ColumnAppend(printed, "\n");
    assert printed + Concat(more) == (printed + "\n") + t;
    LastLineIsWord(printed + "\n", t);
  }

  /** A word that fits behind the pending space keeps the line within width + 1. */
  lemma SpacedWordFits(st: State, t: string, width: nat, printed: string, seen: seq<string>)
    requires IsWord(t) && t != Fence
    requires st.mode == Paragraph && st.pendingSpace && st.lineLen + |t| <= width
    requires Column(printed) <= st.lineLen
    ensures StepKeepsLineFitting(st, t, width, printed, seen)
  {
    assert '\n' !in " " + t by {
      assert IsWord(t);
    }
    ConcatPair(" ", t);
    ColumnAppend(printed, " " + t);
  }

  /** A word with no space before it, on an empty line, is that line alone. */
  lemma UnspacedWordFits(st: State, t: string, width: nat, printed: string, seen: seq<string>)
    requires IsWord(t) && t != Fence && t in seen
    requires st.mode == Paragraph && !st.pendingSpace && st.lineLen == 0
    requires Column(printed) == 0
    ensures StepKeepsLineFitting(st, t, width, printed, seen)
  {
    assert '\n' !in t by {
      assert IsWord(t);
    }
    ConcatPair(t, "");
    LastLineIsWord(printed, t);
  }

  /**
   * When runs are maximal, the line the cursor stands on is at most
   * width + 1 columns or one word alone; a counted length of 0 means an
   * empty line, and a prose token that is not a word and leaves no space
   * pending ends the counted line.
   */
  lemma {:induction false} LinesWithinWidth(tokens: seq<string>, width: nat)
    requires Prose(tokens) && MaximalRuns(tokens)
    ensures var (st, out) := Run(Initial, tokens, width);
      LineFits(Concat(out), width, tokens) &&
      (st.lineLen == 0 ==> Column(Concat(out)) == 0) &&
      (!st.pendingSpace && (tokens == [] || !IsWord(tokens[|tokens| - 1])) ==> st.lineLen == 0)
    decreases |tokens|
  {
    if tokens != [] {
      var init := tokens[..|tokens| - 1];
      var t := tokens[|tokens| - 1];
      assert t in tokens;
      assert forall x :: x in init ==> x in tokens;
      LinesWithinWidth(init, width);
      ColumnBoundedByLineLen(init, width);
      var (mid, out) := Run(Initial, init, width);
      LineFitsGrows(Concat(out), width, init, tokens);
      if init != [] {
        assert init[|init| - 1] == tokens[|tokens| - 2];
      }
      ConcatAppend(out, Step(mid, t, width).1);
      WrapStepColumn(mid, t, width, Concat(out), tokens);
      assert StepKeepsLineFitting(mid, t, width, Concat(out), tokens);
    }
  }

  /**
   * The wrap bound over the whole output: after every token of a prose
   * stream with maximal runs, the current line is at most width + 1 columns
   * or one word of the stream alone. A line is longest just before the
   * newline that ends it, which is where some token's pieces end.
   */
  lemma EveryLineWithinWidth(tokens: seq<string>, width: nat)
    requires Prose(tokens) && MaximalRuns(tokens)
    ensures forall i :: 0 <= i <= |tokens| ==> LineFits(Concat(Run(Initial, tokens[..i], width).1), width, tokens)
  {
    forall i | 0 <= i <= |tokens|
      ensures LineFits(Concat(Run(Initial, tokens[..i], width).1), width, tokens)
    {
      var p := tokens[..i];
      assert forall x :: x in p ==> x in tokens;
      assert MaximalRuns(p) by {
        forall j | 0 <= j < |p| - 1
          ensures !(IsWord(p[j]) && IsWord(p[j + 1]))
        {
          assert p[j] == tokens[j] && p[j + 1] == tokens[j + 1];
        }
      }
      LinesWithinWidth(p, width);
      LineFitsGrows(Concat(Run(Initial, p, width).1), width, p, tokens);
    }
  }

  /** When moreover no word is longer than the width, every line is at most width + 1 columns. */
  lemma ShortWordsWithinWidth(tokens: seq<string>, width: nat)
    requires Prose(tokens) && MaximalRuns(tokens)
    requires forall t :: t in tokens && IsWord(t) ==> |t| <= width
    ensures forall i :: 0 <= i <= |tokens| ==> Column(Concat(Run(Initial, tokens[..i], width).1)) <= width + 1
  {
    EveryLineWithinWidth(tokens, width);
    forall i | 0 <= i <= |tokens|
      ensures Column(Concat(Run(Initial, tokens[..i], width).1)) <= width + 1
    {
      var s := Concat(Run(Initial, tokens[..i], width).1);
      assert LineFits(s, width, tokens);
    }
  }

  /**
   * The wrap bound reaches `reformat`: when no fragment boundary falls
   * between two words (as for a single fragment, `SingleFragmentRuns`) and
   * there is no fence, after every token the line is at most one column past
   * the target width, or one word of the stream alone.
   */
  lemma StreamLinesWithinWidth(chunks: seq<Option<string>>, columns: nat)
    requires MaximalRuns(Split(chunks))
    requires forall t :: t in Split(chunks) ==> t != Fence
    ensures forall i :: 0 <= i <= |Split(chunks)| ==>
      LineFits(Concat(Run(Initial, Split(chunks)[..i], TargetWidth(columns)).1), TargetWidth(columns), Split(chunks))
  {
    SplitShape(chunks);
    EveryLineWithinWidth(Split(chunks), TargetWidth(columns));
  }

  /** The extra column is real: a space before a newline resurfaces at the start of the next line. */
  lemma PendingSpaceSurvivesNewline()
    ensures Render(["x", " ", "\n", "abc"], 3) == ["x", "\n", " ", "abc", "\n"]
  {
    var toks := ["x", " ", "\n", "abc"];
    assert toks[..3] == ["x", " ", "\n"] && toks[..2] == ["x", " "] && toks[..1] == ["x"];
    assert toks[..3][..2] == toks[..2] && toks[..2][..1] == toks[..1];
    assert Run(Initial, toks[..1], 3).0 == State(Paragraph, 1, false, None);
    assert Run(Initial, toks[..1], 3).1 == ["x"];
    assert Run(Initial, toks[..2], 3).0 == State(Paragraph, 2, true, None);
    assert Run(Initial, toks[..2], 3).1 == ["x"];
    assert Run(Initial, toks[..3], 3).0 == State(Paragraph, 0, true, None);
    assert Run(Initial, toks[..3], 3).1 == ["x", "\n"];
    assert Run(Initial, toks, 3).1 == ["x", "\n", " ", "abc"];
  }

  /** A fenced block: colour after the opening line's newline, reset before the closing fence. */
  lemma FencedBlockScenario(width: nat)
    ensures Render([Fence, "\n", "code", "\n", Fence, "\n"], width)
      == [Fence, "\n", StartCode, "code", "\n", ResetColor, Fence, "\n", "\n"]
  {
    var toks := [Fence, "\n", "code", "\n", Fence, "\n"];
    assert toks[..5] == [Fence, "\n", "code", "\n", Fence];
    assert toks[..4] == [Fence, "\n", "code", "\n"];
    assert toks[..3] == [Fence, "\n", "code"];
    assert toks[..2] == [Fence, "\n"];
    assert toks[..1] == [Fence];
    assert toks[..5][..4] == toks[..4] && toks[..4][..3] == toks[..3];
    assert toks[..3][..2] == toks[..2] && toks[..2][..1] == toks[..1];
    assert Run(Initial, toks[..1], width).0 == State(Code, 0, false, Some(StartCode));
    assert Run(Initial, toks[..1], width).1 == [Fence];
    assert Run(Initial, toks[..2], width).0 == State(Code, 0, false, None);
    assert Run(Initial, toks[..2], width).1 == [Fence, "\n", StartCode];
    assert Run(Initial, toks[..3], width).0 == State(Code, 0, false, None);
    assert Run(Initial, toks[..3], width).1 == [Fence, "\n", StartCode, "code"];
    assert Run(Initial, toks[..4], width).0 == State(Code, 0, false, None);
    assert Run(Initial, toks[..4], width).1 == [Fence, "\n", StartCode, "code", "\n"];
    assert Run(Initial, toks[..5], width).0 == State(Paragraph, 0, false, None);
    assert Run(Initial, toks[..5], width).1 == [Fence, "\n", StartCode, "code", "\n", ResetColor, Fence];
    assert Run(Initial, toks, width).1 == [Fence, "\n", StartCode, "code", "\n", ResetColor, Fence, "\n"];
  }

  /**
   * A block closed before its first newline leaves the colour start queued:
   * the next newline, now in prose, prints it, and no reset follows it.
   */
  lemma ColourOutlivesEmptyBlock()
    ensures Render([Fence, " ", Fence, "\n", "x"], 80)
      == [Fence, " ", ResetColor, Fence, "\n", StartCode, "x", "\n"]
  {
    var toks := [Fence, " ", Fence, "\n", "x"];
    assert toks[..4] == [Fence, " ", Fence, "\n"];
    assert toks[..3] == [Fence, " ", Fence];
    assert toks[..2] == [Fence, " "];
    assert toks[..1] == [Fence];
    assert toks[..4][..3] == toks[..3] && toks[..3][..2] == toks[..2] && toks[..2][..1] == toks[..1];
    assert Run(Initial, toks[..1], 80).0 == State(Code, 0, false, Some(StartCode));
    assert Run(Initial, toks[..1], 80).1 == [Fence];
    assert Run(Initial, toks[..2], 80).0 == State(Code, 0, false, Some(StartCode));
    assert Run(Initial, toks[..2], 80).1 == [Fence, " "];
    assert Run(Initial, toks[..3], 80).0 == State(Paragraph, 0, false, Some(StartCode));
    assert Run(Initial, toks[..3], 80).1 == [Fence, " ", ResetColor, Fence];
    assert Run(Initial, toks[..4], 80).0 == State(Paragraph, 0, false, None);
    assert Run(Initial, toks[..4], 80).1 == [Fence, " ", ResetColor, Fence, "\n", StartCode];
    assert Run(Initial, toks, 80).1 == [Fence, " ", ResetColor, Fence, "\n", StartCode, "x"];
  }

  /**
   * The reformatter of base/ai.py:43-92 over the raw fragments: split them,
   * then run the four locals of the loop token by token, appending to `out`
   * what the source yields, and finish with one newline.
   */
  method Reformat(chunks: seq<Option<string>>, columns: nat) returns (out: seq<string>)
    ensures out == Render(Split(chunks), TargetWidth(columns))
    ensures |out| > 0 && out[|out| - 1] == "\n"
    ensures Content(out) == Content(Split(chunks))
    ensures (forall t :: t in Split(chunks) ==> t != StartCode && t != ResetColor) ==> EscapesPlaced(out)
  {
    var targetWidth := TargetWidth(columns);
    var lineLen: nat := 0;
    var justDidParagraphSpace := false;
    var ansiAfterNextNewline: Option<string> := None;
    var mode := Paragraph;
    var tokens := ExtractWhitespace(chunks);
    out := [];
    for i := 0 to |tokens|
      invariant Run(Initial, tokens[..i], targetWidth).0 == State(mode, lineLen, justDidParagraphSpace, ansiAfterNextNewline)
      invariant Run(Initial, tokens[..i], targetWidth).1 == out
    {
      var s := tokens[i];
      ghost var before, outBefore := State(mode, lineLen, justDidParagraphSpace, ansiAfterNextNewline), out;
      ghost var step := Step(before, s, targetWidth);
      if lineLen == 0 && s == Fence {
        match mode {
          case Paragraph =>
            assert step == (before.(mode := Code, ansiAfterNewline := Some(StartCode)), [s]);
            out := out + [s];
            ansiAfterNextNewline := Some(StartCode);
            mode := Code;
          case Code =>
            assert step == (before.(mode := Paragraph), [ResetColor, s]);
            out := out + [ResetColor];
            out := out + [s];
            mode := Paragraph;
        }
      } else if s == "\n" {
        lineLen := 0;
        out := out + [s];
        if ansiAfterNextNewline.Some? && ansiAfterNextNewline.value != [] {
          out := out + [ansiAfterNextNewline.value];
          ansiAfterNextNewline := None;
        }
      } else if mode == Paragraph && s == " " {
        justDidParagraphSpace := true;
        lineLen := lineLen + 1;
      } else if mode == Paragraph {
        var newLen := lineLen + |s|;
        if justDidParagraphSpace {
          if newLen > targetWidth {
            out := out + ["\n"];
            lineLen := |s|;
          } else {
            out := out + [" "];
            lineLen := newLen;
          }
          out := out + [s];
          justDidParagraphSpace := false;
        } else {
          out := out + [s];
          lineLen := newLen;
          justDidParagraphSpace := false;
        }
      } else {
        out := out + [s];
      }
      assert step.0 == State(mode, lineLen, justDidParagraphSpace, ansiAfterNextNewline);
      assert out == outBefore + step.1;
      RunPrefix(Initial, tokens, i, targetWidth);
    }
    assert tokens[..|tokens|] == tokens;
    out := out + ["\n"];
    RenderKeepsContent(tokens, targetWidth);
    if forall t :: t in tokens ==> t != StartCode && t != ResetColor {
      RenderPlacesEscapes(tokens, targetWidth);
    }
  }
}
