/**
 * What the directive grammar does to pieces of input: the directive name
 * and its check, the declared indentation, code, quoted spans, `?`, and
 * the indentation consumed at the start of each continuation line.  Each
 * is stated as the run of the combined grammar over that piece from the
 * state it starts in.  Markup without `?` runs as in the markup grammar.
 */
module DirectiveRuns {
  import opened Wrappers
  import opened Strings
  import opened Guards
  import opened Elements
  import opened Errors
  import opened ParseState
  import opened Generic
  import opened Accumulator
  import DA = DirectiveActions
  import MA = MarkupActions
  import MG = MarkupGrammar
  import MR = MarkupRuns
  import opened DirectiveGrammar

  /** A run of the directive grammar from state q at position pos. */
  function From(q: int, pos: Pos, s: Stack, input: string): Run<Stack> {
    RunBy(States, Transition, Step, q, pos, s, input)
  }

  /** k spaces. */
  function Spaces(k: nat): (r: string)
    ensures |r| == k && forall i :: 0 <= i < k ==> r[i] == ' '
  {
    seq(k, i => ' ')
  }

  lemma SpacesCons(k: nat)
    requires k >= 1
    ensures Spaces(k) == [' '] + Spaces(k - 1)
  {
  }

  /** A code character with no meaning of its own to the grammar. */
  predicate PlainChar(c: char) {
    c != '\n' && c != '\'' && c != '"' && c != '?'
  }

  predicate IsPlainCode(t: string) {
    forall i :: 0 <= i < |t| ==> PlainChar(t[i])
  }

  /** The state reading a span opened by quote character qt. */
  function QuoteState(qt: char): int {
    if qt == '\'' then 45 else 46
  }

  predicate IsQuote(qt: char) {
    qt == '\'' || qt == '"'
  }

  /** Text a quote opened by qt runs over: anything but qt. */
  predicate Unquoted(b: string, qt: char) {
    forall i :: 0 <= i < |b| ==> b[i] != qt
  }

  lemma PushCodeTwice(s: Stack, x: string, y: string)
    ensures DA.PushCode(DA.PushCode(s, x), y) == DA.PushCode(s, x + y)
  {
    assert (s.dchpContent + x) + y == s.dchpContent + (x + y);
  }

  // Composition.

  lemma Then(q: int, pos: Pos, s: Stack, x: string, y: string)
    requires From(q, pos, s, x).Finished?
    ensures From(q, pos, s, x + y) == From(From(q, pos, s, x).state, From(q, pos, s, x).pos, From(q, pos, s, x).stack, y)
  {
    RunByAppend(States, Transition, Step, q, pos, s, x, y);
  }

  lemma ThenFailed(q: int, pos: Pos, s: Stack, x: string, y: string)
    requires From(q, pos, s, x).Failed?
    ensures From(q, pos, s, x + y) == From(q, pos, s, x)
  {
    RunByAppend(States, Transition, Step, q, pos, s, x, y);
  }

  /** Two pieces in a row, the first ending where the second starts. */
  lemma Chain(q: int, pos: Pos, s: Stack, x: string, y: string, q1: int, s1: Stack, r: Run<Stack>)
    requires From(q, pos, s, x) == Finished(q1, AdvanceAll(pos, x), s1)
    requires From(q1, AdvanceAll(pos, x), s1, y) == r
    ensures From(q, pos, s, x + y) == r
  {
    Then(q, pos, s, x, y);
  }

  /** Two pieces in a row that both finish. */
  lemma Chain2(q: int, pos: Pos, s: Stack, x: string, y: string, q1: int, s1: Stack, q2: int, s2: Stack)
    requires From(q, pos, s, x) == Finished(q1, AdvanceAll(pos, x), s1)
    requires From(q1, AdvanceAll(pos, x), s1, y) == Finished(q2, AdvanceAll(AdvanceAll(pos, x), y), s2)
    ensures From(q, pos, s, x + y) == Finished(q2, AdvanceAll(pos, x + y), s2)
  {
    Then(q, pos, s, x, y);
    AdvanceAllAppend(pos, x, y);
  }

  /** One character on its own: the transition, the action, the next state. */
  lemma One(q: int, pos: Pos, s: Stack, c: char)
    ensures From(q, pos, s, [c]) ==
      var t := Transition(q, c);
      if t.None? then Failed(SyntaxAt(pos.line, pos.col, NoMatchingEdge(c)))
      else
        var out := if t.value.1.None? then Continue(s, None) else Step(t.value.1.value, c, s);
        if out.Raise? then Failed(FromAction(out.error, pos.line, pos.col))
        else
          var next := if out.next.Some? then out.next.value else t.value.0;
          if next !in States then Failed(UnknownState(t.value.0))
          else Finished(next, AdvanceAll(pos, [c]), out.stack)
  {
    assert [c][0] == c && [c][1..] == [];
    var t := Transition(q, c);
    if t.Some? {
      var out := if t.value.1.None? then Continue(s, None) else Step(t.value.1.value, c, s);
      if out.Continue? {
        var next := if out.next.Some? then out.next.value else t.value.0;
        assert From(next, Advance(pos, c), out.stack, []) == Finished(next, Advance(pos, c), out.stack);
      }
    }
  }

  /** One character, then the rest. */
  lemma OneThen(q: int, pos: Pos, s: Stack, c: char, rest: string, q1: int, s1: Stack, r: Run<Stack>)
    requires From(q, pos, s, [c]) == Finished(q1, AdvanceAll(pos, [c]), s1)
    requires From(q1, AdvanceAll(pos, [c]), s1, rest) == r
    ensures From(q, pos, s, [c] + rest) == r
  {
    Then(q, pos, s, [c], rest);
  }

  // The markup grammar inside the combined one.

  /** The markup transition function stays among the markup states and names no directive state change. */
  lemma MarkupTargets(q: int, c: char)
    requires MG.IsState(q)
    ensures var t := MG.Transition(q, c);
      t.Some? ==> (MG.IsState(t.value.0) &&
        (t.value.1.Some? ==> t.value.1.value != ReduceIndent && t.value.1.value != AfterIndentQuestion))
  {
  }

  /**
   * From a markup state, input without `?` runs in the combined grammar
   * exactly as in the markup grammar: the directive edges are only reached
   * through `<?`.
   */
  lemma {:induction false} MarkupUnchanged(q: int, pos: Pos, s: Stack, input: string)
    requires MG.IsState(q) && '?' !in input
    ensures From(q, pos, s, input) == MR.From(q, pos, s, input)
    decreases |input|
  {
    if input != [] {
      var c := input[0];
      assert c != '?';
      assert Transition(q, c) == MG.Transition(q, c);
      var t := MG.Transition(q, c);
      if t.Some? {
        MarkupTargets(q, c);
        var out := if t.value.1.None? then Continue(s, None) else Step(t.value.1.value, c, s);
        if out.Continue? {
          if t.value.1.Some? {
            StepKeepsHead(t.value.1.value, c, s);
          }
          MarkupUnchanged(t.value.0, Advance(pos, c), out.stack, input[1..]);
        }
      }
    }
  }

  /** A document without `?` parses as the markup parser parses it. */
  lemma MarkupParsesUnchanged(input: string)
    requires '?' !in input
    ensures ParseSpec(input) == MG.ParseSpec(input)
  {
    MarkupUnchanged(0, Start, Fresh(MG.Root), input);
  }

  /** `?` after `<` opens a directive here; the markup grammar has no edge for it. */
  lemma QuestionAfterLt(pos: Pos, s: Stack)
    ensures From(1, pos, s, "?") == Finished(30, AdvanceAll(pos, "?"), s)
    ensures MR.From(1, pos, s, "?") == Failed(SyntaxAt(pos.line, pos.col, NoMatchingEdge('?')))
  {
    One(1, pos, s, '?');
    MR.One(1, pos, s, '?');
  }

  // The directive name.

  lemma {:induction false} NameRest(pos: Pos, s: Stack, n: string)
    requires forall i :: 0 <= i < |n| ==> IsAlnum(n[i])
    ensures From(31, pos, s, n) == Finished(31, AdvanceAll(pos, n), s.(dchpElementName := s.dchpElementName + n))
    decreases |n|
  {
    if n == [] {
      assert s.dchpElementName + n == s.dchpElementName;
    } else {
      var c := n[0];
      One(31, pos, s, c);
      NameRest(Advance(pos, c), DA.PushDirectiveName(s, c), n[1..]);
      assert s.dchpElementName + n == (s.dchpElementName + [c]) + n[1..];
      assert n == [c] + n[1..];
    }
  }

  /** After `<?` (state 30) a name is read into the directive name buffer. */
  lemma DirectiveName(pos: Pos, s: Stack, n: string)
    requires MR.IsName(n)
    ensures From(30, pos, s, n) == Finished(31, AdvanceAll(pos, n), s.(dchpElementName := s.dchpElementName + n))
  {
    var c := n[0];
    One(30, pos, s, c);
    NameRest(Advance(pos, c), DA.PushDirectiveName(s, c), n[1..]);
    assert s.dchpElementName + n == (s.dchpElementName + [c]) + n[1..];
    assert n == [c] + n[1..];
  }

  /**
   * A space, a newline or `?` ends the name: only "dchp" is accepted, and
   * the declared indentation starts at 0; `?` leads where only `>` may follow.
   */
  lemma NameEnd(pos: Pos, s: Stack, c: char)
    requires c == ' ' || c == '\n' || c == '?'
    ensures s.dchpElementName == "dchp" ==>
      From(31, pos, s, [c]) == Finished(if c == '?' then 48 else 41, AdvanceAll(pos, [c]), s.(dchpElementName := [], dchpIndent := 0))
    ensures s.dchpElementName != "dchp" ==>
      From(31, pos, s, [c]) == Failed(SyntaxAt(pos.line, pos.col, UnexpectedDirectiveName(s.dchpElementName)))
  {
    One(31, pos, s, c);
  }

  /** `<?` from text: the text read so far is flushed and the directive name begins. */
  lemma DirectiveStart(q: int, pos: Pos, s: Stack)
    requires MR.TextState(q)
    ensures From(q, pos, s, "<?") == Finished(30, AdvanceAll(pos, "<?"), MA.FlushText(s))
  {
    One(q, pos, s, '<');
    One(1, AdvanceAll(pos, "<"), MA.FlushText(s), '?');
    Chain2(q, pos, s, "<", "?", 1, MA.FlushText(s), 30, MA.FlushText(s));
    assert "<" + "?" == "<?";
  }

  /**
   * `<?n` and the character c ending the name, from text: with n == "dchp"
   * the body begins with no indentation declared; any other name is a
   * syntax error at the character ending it.
   */
  lemma DirectiveOpen(q: int, pos: Pos, s: Stack, n: string, c: char)
    requires MR.TextState(q) && MR.IsName(n) && s.dchpElementName == []
    requires c == ' ' || c == '\n' || c == '?'
    ensures n == "dchp" ==>
      From(q, pos, s, "<?" + n + [c]) ==
        Finished(if c == '?' then 48 else 41, AdvanceAll(pos, "<?" + n + [c]), MA.FlushText(s).(dchpIndent := 0))
    ensures n != "dchp" ==>
      var p := AdvanceAll(pos, "<?" + n);
      From(q, pos, s, "<?" + n + [c]) == Failed(SyntaxAt(p.line, p.col, UnexpectedDirectiveName(n)))
  {
    var f := MA.FlushText(s);
    DirectiveStart(q, pos, s);
    DirectiveName(AdvanceAll(pos, "<?"), f, n);
    assert f.dchpElementName + n == n;
    var named := f.(dchpElementName := n);
    Chain2(q, pos, s, "<?", n, 30, f, 31, named);
    var p := AdvanceAll(pos, "<?" + n);
    NameEnd(p, named, c);
    if n == "dchp" {
      assert named.(dchpElementName := [], dchpIndent := 0) == f.(dchpIndent := 0);
      Chain2(q, pos, s, "<?" + n, [c], 31, named, if c == '?' then 48 else 41, f.(dchpIndent := 0));
    } else {
      Chain(q, pos, s, "<?" + n, [c], 31, named, Failed(SyntaxAt(p.line, p.col, UnexpectedDirectiveName(n))));
    }
  }

  // The declared indentation.

  /** The indentation a directive declares: each space counts one, a newline starts counting again. */
  function DeclaredIndent(d: int, w: string): int
    decreases |w|
  {
    if w == [] then d else DeclaredIndent(if w[0] == ' ' then d + 1 else 0, w[1..])
  }

  lemma {:induction false} DeclaredIndentAppend(d: int, x: string, y: string)
    ensures DeclaredIndent(d, x + y) == DeclaredIndent(DeclaredIndent(d, x), y)
    decreases |x|
  {
    if x == [] {
      assert x + y == y;
    } else {
      assert (x + y)[0] == x[0] && (x + y)[1..] == x[1..] + y;
      DeclaredIndentAppend(if x[0] == ' ' then d + 1 else 0, x[1..], y);
    }
  }

  /** k spaces add k to the count. */
  lemma {:induction false} DeclaredSpaces(d: int, k: nat)
    ensures DeclaredIndent(d, Spaces(k)) == d + k
    decreases k
  {
    if k > 0 {
      SpacesCons(k);
      assert Spaces(k)[1..] == Spaces(k - 1);
      DeclaredSpaces(d + 1, k - 1);
    }
  }

  /** Whatever came before, the declared indentation is the number of spaces after the last newline. */
  lemma DeclaredAfterNewline(d: int, w: string, k: nat)
    ensures DeclaredIndent(d, w + "\n" + Spaces(k)) == k
  {
    DeclaredIndentAppend(d, w + "\n", Spaces(k));
    DeclaredIndentAppend(d, w, "\n");
    assert DeclaredIndent(DeclaredIndent(d, w), "\n") == 0 by {
      assert "\n"[1..] == [];
    }
    DeclaredSpaces(0, k);
  }

  /** After the name (state 41), spaces and newlines only set the declared indentation. */
  lemma {:induction false} Indentation(pos: Pos, s: Stack, w: string)
    requires MR.IsWhitespace(w)
    ensures From(41, pos, s, w) == Finished(41, AdvanceAll(pos, w), s.(dchpIndent := DeclaredIndent(s.dchpIndent, w)))
    decreases |w|
  {
    if w == [] {
      assert s.(dchpIndent := s.dchpIndent) == s;
    } else {
      var c := w[0];
      One(41, pos, s, c);
      var s1 := s.(dchpIndent := if c == ' ' then s.dchpIndent + 1 else 0);
      assert MR.IsWhitespace(w[1..]) by {
        forall i | 0 <= i < |w[1..]| ensures w[1..][i] == ' ' || w[1..][i] == '\n' {
          assert w[1..][i] == w[i + 1];
        }
      }
      Indentation(AdvanceAll(pos, [c]), s1, w[1..]);
      assert w == [c] + w[1..];
      AdvanceAllAppend(pos, [c], w[1..]);
      OneThen(41, pos, s, c, w[1..], 41, s1, Finished(41, AdvanceAll(pos, w), s.(dchpIndent := DeclaredIndent(s.dchpIndent, w))));
    }
  }

  // Code.

  /** In the code (state 42) plain characters are copied to the code buffer. */
  lemma {:induction false} Code(pos: Pos, s: Stack, t: string)
    requires IsPlainCode(t)
    ensures From(42, pos, s, t) == Finished(42, AdvanceAll(pos, t), DA.PushCode(s, t))
    decreases |t|
  {
    if t == [] {
      assert s.dchpContent + t == s.dchpContent;
    } else {
      var c := t[0];
      One(42, pos, s, c);
      assert IsPlainCode(t[1..]) by {
        forall i | 0 <= i < |t[1..]| ensures PlainChar(t[1..][i]) {
          assert t[1..][i] == t[i + 1];
        }
      }
      Code(AdvanceAll(pos, [c]), DA.PushCode(s, [c]), t[1..]);
      PushCodeTwice(s, [c], t[1..]);
      assert t == [c] + t[1..];
      AdvanceAllAppend(pos, [c], t[1..]);
      OneThen(42, pos, s, c, t[1..], 42, DA.PushCode(s, [c]), Finished(42, AdvanceAll(pos, t), DA.PushCode(s, t)));
    }
  }

  /** The first character of the code ends the indentation declaration and is copied. */
  lemma FirstCode(pos: Pos, s: Stack, t: string)
    requires IsPlainCode(t) && t != [] && t[0] != ' '
    ensures From(41, pos, s, t) == Finished(42, AdvanceAll(pos, t), DA.PushCode(s, t))
  {
    var c := t[0];
    One(41, pos, s, c);
    assert IsPlainCode(t[1..]) by {
      forall i | 0 <= i < |t[1..]| ensures PlainChar(t[1..][i]) {
        assert t[1..][i] == t[i + 1];
      }
    }
    Code(AdvanceAll(pos, [c]), DA.PushCode(s, [c]), t[1..]);
    PushCodeTwice(s, [c], t[1..]);
    assert t == [c] + t[1..];
    AdvanceAllAppend(pos, [c], t[1..]);
    OneThen(41, pos, s, c, t[1..], 42, DA.PushCode(s, [c]), Finished(42, AdvanceAll(pos, t), DA.PushCode(s, t)));
  }

  // Quoted spans.

  /** Inside a quoted span everything up to the closing quote is copied, `?`, `>` and newlines included. */
  lemma {:induction false} QuotedRest(pos: Pos, s: Stack, qt: char, b: string)
    requires IsQuote(qt) && Unquoted(b, qt)
    ensures From(QuoteState(qt), pos, s, b) == Finished(QuoteState(qt), AdvanceAll(pos, b), DA.PushCode(s, b))
    decreases |b|
  {
    if b == [] {
      assert s.dchpContent + b == s.dchpContent;
    } else {
      var c := b[0];
      One(QuoteState(qt), pos, s, c);
      assert Unquoted(b[1..], qt) by {
        forall i | 0 <= i < |b[1..]| ensures b[1..][i] != qt {
          assert b[1..][i] == b[i + 1];
        }
      }
      QuotedRest(AdvanceAll(pos, [c]), DA.PushCode(s, [c]), qt, b[1..]);
      PushCodeTwice(s, [c], b[1..]);
      assert b == [c] + b[1..];
      AdvanceAllAppend(pos, [c], b[1..]);
      OneThen(QuoteState(qt), pos, s, c, b[1..], QuoteState(qt), DA.PushCode(s, [c]),
        Finished(QuoteState(qt), AdvanceAll(pos, b), DA.PushCode(s, b)));
    }
  }

  /** The opening quote moves to its span (from the start of the code, or inside it) and is copied. */
  lemma QuoteOpens(q: int, pos: Pos, s: Stack, qt: char)
    requires (q == 41 || q == 42) && IsQuote(qt)
    ensures From(q, pos, s, [qt]) == Finished(QuoteState(qt), AdvanceAll(pos, [qt]), DA.PushCode(s, [qt]))
  {
    One(q, pos, s, qt);
  }

  /** The closing quote returns to the code and is copied. */
  lemma QuoteCloses(pos: Pos, s: Stack, qt: char)
    requires IsQuote(qt)
    ensures From(QuoteState(qt), pos, s, [qt]) == Finished(42, AdvanceAll(pos, [qt]), DA.PushCode(s, [qt]))
  {
    One(QuoteState(qt), pos, s, qt);
  }

  /** A whole quoted span, from the start of the code or inside it, is copied as it stands. */
  lemma Quoted(q: int, pos: Pos, s: Stack, qt: char, b: string)
    requires (q == 41 || q == 42) && IsQuote(qt) && Unquoted(b, qt)
    ensures From(q, pos, s, [qt] + b + [qt]) == Finished(42, AdvanceAll(pos, [qt] + b + [qt]), DA.PushCode(s, [qt] + b + [qt]))
  {
    QuoteOpens(q, pos, s, qt);
    var s1 := DA.PushCode(s, [qt]);
    QuotedRest(AdvanceAll(pos, [qt]), s1, qt, b);
    Chain2(q, pos, s, [qt], b, QuoteState(qt), s1, QuoteState(qt), DA.PushCode(s1, b));
    var s2 := DA.PushCode(s1, b);
    QuoteCloses(AdvanceAll(pos, [qt] + b), s2, qt);
    Chain2(q, pos, s, [qt] + b, [qt], QuoteState(qt), s2, 42, DA.PushCode(s2, [qt]));
    PushCodeTwice(s, [qt], b);
    PushCodeTwice(s, [qt] + b, [qt]);
  }

  // `?` and the end of the directive.

  /** `?>` in the code ends the directive: the code becomes a directive child of the current node. */
  lemma Close(q: int, pos: Pos, s: Stack)
    requires q == 41 || q == 42
    ensures From(q, pos, s, "?>") == Finished(0, AdvanceAll(pos, "?>"), DA.Finalize(s))
  {
    One(q, pos, s, '?');
    One(44, AdvanceAll(pos, "?"), s, '>');
    Chain2(q, pos, s, "?", ">", 44, s, 0, DA.Finalize(s));
    assert "?" + ">" == "?>";
  }

  /** `?` then anything but `>` or a newline: both are copied, and a quote still opens its span. */
  lemma QuestionCode(q: int, pos: Pos, s: Stack, c: char)
    requires (q == 41 || q == 42) && c != '>' && c != '\n'
    ensures From(q, pos, s, ['?', c]) ==
      Finished(if IsQuote(c) then QuoteState(c) else 42, AdvanceAll(pos, ['?', c]), DA.PushCode(s, ['?', c]))
  {
    One(q, pos, s, '?');
    One(44, AdvanceAll(pos, "?"), s, c);
    Chain2(q, pos, s, "?", [c], 44, s, if IsQuote(c) then QuoteState(c) else 42, DA.PushCode(s, ['?', c]));
    assert "?" + [c] == ['?', c];
  }

  /** `?` then a newline: only the newline is copied, and a continuation line begins. */
  lemma QuestionNewline(q: int, pos: Pos, s: Stack)
    requires q == 41 || q == 42
    ensures From(q, pos, s, "?\n") == Finished(47, AdvanceAll(pos, "?\n"), DA.ResetActiveIndent(s, '\n'))
  {
    One(q, pos, s, '?');
    One(44, AdvanceAll(pos, "?"), s, '\n');
    Chain2(q, pos, s, "?", "\n", 44, s, 47, DA.ResetActiveIndent(s, '\n'));
    assert "?" + "\n" == "?\n";
  }

  // Continuation lines.

  /** A newline in the code is copied and the whole declared indentation is due on the next line. */
  lemma Newline(pos: Pos, s: Stack)
    ensures From(42, pos, s, "\n") == Finished(47, AdvanceAll(pos, "\n"), DA.ResetActiveIndent(s, '\n'))
  {
    One(42, pos, s, '\n');
  }

  /** A blank continuation line is copied and the indentation is due again. */
  lemma BlankLine(pos: Pos, s: Stack)
    ensures From(47, pos, s, "\n") == Finished(47, AdvanceAll(pos, "\n"), DA.ResetActiveIndent(s, '\n'))
  {
    One(47, pos, s, '\n');
  }

  /**
   * With an indentation declared, the a spaces still due are consumed and
   * not copied; the last of them resumes the code.
   */
  lemma {:induction false} ConsumeIndent(pos: Pos, s: Stack, a: nat)
    requires s.dchpIndent >= 1 && a >= 1 && s.dchpActiveIndent == a
    ensures From(47, pos, s, Spaces(a)) == Finished(42, AdvanceAll(pos, Spaces(a)), s.(dchpActiveIndent := 1))
    decreases a
  {
    One(47, pos, s, ' ');
    SpacesCons(a);
    if a == 1 {
      assert Spaces(1) == [' '];
      assert s.(dchpActiveIndent := 1) == s;
    } else {
      var s1 := s.(dchpActiveIndent := a - 1);
      ConsumeIndent(AdvanceAll(pos, [' ']), s1, a - 1);
      assert s1.(dchpActiveIndent := 1) == s.(dchpActiveIndent := 1);
      AdvanceAllAppend(pos, [' '], Spaces(a - 1));
      OneThen(47, pos, s, ' ', Spaces(a - 1), 47, s1, Finished(42, AdvanceAll(pos, Spaces(a)), s.(dchpActiveIndent := 1)));
    }
  }

  /**
   * Fewer spaces than are due, then a character that is neither a space, a
   * newline nor `?`: a syntax error there, reporting the declared and the
   * found indentation.
   */
  lemma {:induction false} ShortIndent(pos: Pos, s: Stack, k: nat, c: char)
    requires s.dchpIndent >= 1 && k < s.dchpActiveIndent
    requires c != ' ' && c != '\n' && c != '?'
    ensures From(47, pos, s, Spaces(k) + [c]) ==
      Failed(SyntaxAt(pos.line, pos.col + k, IndentationMismatch(s.dchpIndent, s.dchpIndent - s.dchpActiveIndent + k)))
    decreases k
  {
    if k == 0 {
      assert Spaces(0) + [c] == [c];
      One(47, pos, s, c);
    } else {
      One(47, pos, s, ' ');
      var s1 := s.(dchpActiveIndent := s.dchpActiveIndent - 1);
      ShortIndent(AdvanceAll(pos, [' ']), s1, k - 1, c);
      assert AdvanceAll(pos, [' ']) == Pos(pos.line, pos.col + 1);
      SpacesCons(k);
      assert Spaces(k) + [c] == [' '] + (Spaces(k - 1) + [c]);
      OneThen(47, pos, s, ' ', Spaces(k - 1) + [c], 47, s1,
        Failed(SyntaxAt(pos.line, pos.col + k, IndentationMismatch(s.dchpIndent, s.dchpIndent - s.dchpActiveIndent + k))));
    }
  }

  /** With no indentation declared, the first character of a continuation line is copied and the code resumes. */
  lemma LineStartNoIndent(pos: Pos, s: Stack, c: char)
    requires s.dchpIndent == 0 && c != '\n' && c != '?'
    ensures From(47, pos, s, [c]) == Finished(42, AdvanceAll(pos, [c]), DA.PushCode(s, [c]))
  {
    One(47, pos, s, c);
  }

  /**
   * `?` inside the indentation is not copied; with at most one space still
   * due it acts as a `?` in the code, otherwise only `>` may follow.
   */
  lemma IndentQuestion(pos: Pos, s: Stack)
    ensures From(47, pos, s, "?") ==
      Finished(if s.dchpActiveIndent <= 1 then 44 else 48, AdvanceAll(pos, "?"), s)
  {
    One(47, pos, s, '?');
  }

  /** Where only `>` may follow, anything else is a syntax error. */
  lemma OnlyGreater(pos: Pos, s: Stack, c: char)
    requires c != '>'
    ensures From(48, pos, s, [c]) == Failed(SyntaxAt(pos.line, pos.col, NoMatchingEdge(c)))
  {
    One(48, pos, s, c);
  }
}
