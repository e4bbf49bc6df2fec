/**
 * A quote at the start of a continuation line, in a directive that
 * declares no indentation.  reduce_indent copies that first character and
 * resumes the code in state 42 whatever it is, so a quote there does not
 * open a quoted span: a `?>` inside it ends the directive.  Everywhere else
 * (at the start of the code, inside it, after `?`, and after a declared
 * indentation) a quote is seen by state 41, 42 or 44 and does open one.
 *
 * This module states the difference on an input, then defines the
 * quote-aware reduce_indent and proves that with it such a quoted span is
 * copied whole.
 */
module DirectiveFinding {
  import opened Wrappers
  import opened Elements
  import opened Errors
  import opened ParseState
  import opened Generic
  import opened Accumulator
  import DA = DirectiveActions
  import MG = MarkupGrammar
  import opened DirectiveGrammar
  import opened DirectiveRuns
  import DP = DirectiveParses

  // The code as written.

  const Sample := "<?dchp x\n\"?>\"?>"

  lemma SamplePieces(input: string)
    requires input == Sample
    ensures input == "<?dchp " + "x" + "\n" + "\"" + "?>" + "\"" + "?>"
  {
  }

  lemma SamplePosition()
    ensures AdvanceAll(Start, "<?dchp " + "x" + "\n" + "\"" + "?>") == Pos(2, 3)
  {
    var a := "<?dchp " + "x";
    AdvanceAllFlat(Start, a);
    AdvanceAllAppend(Start, a, "\n");
    AdvanceAllAppend(Start, a + "\n", "\"" + "?>");
    AdvanceAllFlat(AdvanceAll(Start, a + "\n"), "\"" + "?>");
    assert a + "\n" + "\"" + "?>" == (a + "\n") + ("\"" + "?>");
  }

  /**
   * As written: the quote opening the second line is copied as code, the
   * `?>` after it ends the directive, and the closing quote is then text
   * the markup grammar has no edge for.
   */
  lemma QuoteAtLineStartAsWritten(input: string)
    requires input == Sample
    ensures ParseSpec(input) == Err(SyntaxAt(2, 3, NoMatchingEdge('"')))
  {
    SamplePieces(input);
    var f := Fresh(MG.Root);
    var p4 := "<?dchp " + "x" + "\n" + "\"" + "?>";
    var s4 := SampleDirective;
    SampleDirectiveEnds();
    SamplePosition();
    One(0, AdvanceAll(Start, p4), s4, '"');
    var err := Failed(SyntaxAt(2, 3, NoMatchingEdge('"')));
    Chain(0, Start, f, p4, "\"", 0, s4, err);
    ThenFailed(0, Start, f, p4 + "\"", "?>");
  }

  /** The stack once the sample's directive is read: the code `x`, a newline and the quote, finalized. */
  const SampleDirective: Stack :=
    DA.Finalize(DA.PushCode(DA.ResetActiveIndent(DA.PushCode(Fresh(MG.Root), "x"), '\n'), "\""))

  /** The directive of the sample ends at the first `?>`, just after the quote that starts its second line. */
  lemma SampleDirectiveEnds()
    ensures From(0, Start, Fresh(MG.Root), "<?dchp " + "x" + "\n" + "\"" + "?>") ==
      Finished(0, AdvanceAll(Start, "<?dchp " + "x" + "\n" + "\"" + "?>"), SampleDirective)
  {
    var f := Fresh(MG.Root);
    var p0 := "<?dchp ";
    DP.OpensFresh(' ');
    assert "<?dchp" + [' '] == p0;
    var s1 := DA.PushCode(f, "x");
    FirstCode(AdvanceAll(Start, p0), f, "x");
    Chain2(0, Start, f, p0, "x", 41, f, 42, s1);
    var p1 := p0 + "x";
    var s2 := DA.ResetActiveIndent(s1, '\n');
    Newline(AdvanceAll(Start, p1), s1);
    Chain2(0, Start, f, p1, "\n", 42, s1, 47, s2);
    var p2 := p1 + "\n";
    var s3 := DA.PushCode(s2, "\"");
    LineStartNoIndent(AdvanceAll(Start, p2), s2, '"');
    Chain2(0, Start, f, p2, "\"", 47, s2, 42, s3);
    var p3 := p2 + "\"";
    Close(42, AdvanceAll(Start, p3), s3);
    Chain2(0, Start, f, p3, "?>", 42, s3, 0, DA.Finalize(s3));
  }

  // The quote-aware version.

  /**
   * reduce_indent as evidently intended: as written, except that with no
   * indentation declared a quote starting the line opens its quoted span.
   */
  function ReduceIndentQuoting(s: Stack, c: char): (r: Result<(Stack, Option<int>), ActionError>)
    ensures s.dchpIndent == 0 && IsQuote(c) ==> r == Ok((DA.PushCode(s, [c]), Some(QuoteState(c))))
    ensures !(s.dchpIndent == 0 && IsQuote(c)) ==> r == DA.ReduceIndent(s, c)
  {
    if s.dchpIndent == 0 && IsQuote(c) then Ok((DA.PushCode(s, [c]), Some(QuoteState(c))))
    else DA.ReduceIndent(s, c)
  }

  /** The step function with the quote-aware reduce_indent. */
  function QuotingStep(a: Action, c: char, s: Stack): StepOutcome<Stack> {
    if a == ReduceIndent then
      var r := ReduceIndentQuoting(s, c);
      if r.Ok? then Continue(r.value.0, r.value.1) else Raise(r.error)
    else Step(a, c, s)
  }

  function QuotingFrom(q: int, pos: Pos, s: Stack, input: string): Run<Stack> {
    RunBy(States, Transition, QuotingStep, q, pos, s, input)
  }

  /** parse with the quote-aware reduce_indent. */
  function QuotingParseSpec(input: string): Result<seq<Child>, ParseError> {
    var run := QuotingFrom(0, Start, Fresh(MG.Root), input);
    if run.Failed? then Err(run.error) else MG.TopLevel(run.stack)
  }

  /** Only state 47 names reduce_indent or q47, and only a newline leads into it. */
  lemma AvoidsIndentState(q: int, c: char)
    requires IsState(q) && q != 47 && c != '\n'
    ensures var t := Transition(q, c);
      t.Some? ==> (t.value.0 != 47 && IsState(t.value.0) &&
        (t.value.1.Some? ==> t.value.1.value != ReduceIndent && t.value.1.value != AfterIndentQuestion))
  {
  }

  /** Away from state 47 and without a newline, both versions run alike. */
  lemma {:induction false} QuotingAgrees(q: int, pos: Pos, s: Stack, input: string)
    requires IsState(q) && q != 47 && '\n' !in input
    ensures QuotingFrom(q, pos, s, input) == From(q, pos, s, input)
    decreases |input|
  {
    if input != [] {
      var c := input[0];
      var t := Transition(q, c);
      assert c != '\n';
      AvoidsIndentState(q, c);
      if t.Some? {
        var out := if t.value.1.None? then Continue(s, None) else Step(t.value.1.value, c, s);
        if t.value.1.Some? {
          assert QuotingStep(t.value.1.value, c, s) == Step(t.value.1.value, c, s);
          StepKeepsHead(t.value.1.value, c, s);
        }
        if out.Continue? {
          QuotingAgrees(t.value.0, Advance(pos, c), out.stack, input[1..]);
        }
      }
    }
  }

  lemma QuotingOne(q: int, pos: Pos, s: Stack, c: char, q1: int, s1: Stack)
    requires QuotingFrom(q, pos, s, [c]) == Finished(q1, Advance(pos, c), s1)
    ensures QuotingFrom(q, pos, s, [c]) == Finished(q1, AdvanceAll(pos, [c]), s1)
  {
    assert [c][0] == c && [c][1..] == [];
  }

  lemma QuotingChain2(q: int, pos: Pos, s: Stack, x: string, y: string, q1: int, s1: Stack, q2: int, s2: Stack)
    requires QuotingFrom(q, pos, s, x) == Finished(q1, AdvanceAll(pos, x), s1)
    requires QuotingFrom(q1, AdvanceAll(pos, x), s1, y) == Finished(q2, AdvanceAll(AdvanceAll(pos, x), y), s2)
    ensures QuotingFrom(q, pos, s, x + y) == Finished(q2, AdvanceAll(pos, x + y), s2)
  {
    RunByAppend(States, Transition, QuotingStep, q, pos, s, x, y);
    AdvanceAllAppend(pos, x, y);
  }

  /** A newline in the code is handled alike by both versions. */
  lemma QuotingNewline(pos: Pos, s: Stack)
    ensures QuotingFrom(42, pos, s, "\n") == Finished(47, AdvanceAll(pos, "\n"), DA.ResetActiveIndent(s, '\n'))
  {
    assert "\n"[0] == '\n' && "\n"[1..] == [];
    assert QuotingFrom(47, Advance(pos, '\n'), DA.ResetActiveIndent(s, '\n'), []) ==
      Finished(47, Advance(pos, '\n'), DA.ResetActiveIndent(s, '\n'));
    QuotingOne(42, pos, s, '\n', 47, DA.ResetActiveIndent(s, '\n'));
  }

  /** With the quote-aware version a quote starting an unindented line opens its span. */
  lemma QuoteStartsLine(pos: Pos, s: Stack, qt: char)
    requires s.dchpIndent == 0 && IsQuote(qt)
    ensures QuotingFrom(47, pos, s, [qt]) == Finished(QuoteState(qt), AdvanceAll(pos, [qt]), DA.PushCode(s, [qt]))
  {
    assert [qt][0] == qt && [qt][1..] == [];
    assert QuotingFrom(QuoteState(qt), Advance(pos, qt), DA.PushCode(s, [qt]), []) ==
      Finished(QuoteState(qt), Advance(pos, qt), DA.PushCode(s, [qt]));
    QuotingOne(47, pos, s, qt, QuoteState(qt), DA.PushCode(s, [qt]));
  }

  /**
   * The intended property: with no indentation declared, a quoted span
   * (on one line) starting a continuation line is copied whole, `?>`
   * inside it included, and the code resumes after it.
   */
  lemma QuotedLineStartOpaque(pos: Pos, s: Stack, qt: char, b: string)
    requires s.dchpIndent == 0 && IsQuote(qt) && Unquoted(b, qt) && '\n' !in b
    ensures QuotingFrom(47, pos, s, [qt] + b + [qt]) ==
      Finished(42, AdvanceAll(pos, [qt] + b + [qt]), DA.PushCode(s, [qt] + b + [qt]))
  {
    var s1 := DA.PushCode(s, [qt]);
    QuoteStartsLine(pos, s, qt);
    var p1 := AdvanceAll(pos, [qt]);
    QuotedRest(p1, s1, qt, b);
    QuoteCloses(AdvanceAll(p1, b), DA.PushCode(s1, b), qt);
    Chain2(QuoteState(qt), p1, s1, b, [qt], QuoteState(qt), DA.PushCode(s1, b), 42, DA.PushCode(DA.PushCode(s1, b), [qt]));
    assert '\n' !in b + [qt];
    QuotingAgrees(QuoteState(qt), p1, s1, b + [qt]);
    QuotingChain2(47, pos, s, [qt], b + [qt], QuoteState(qt), s1, 42, DA.PushCode(DA.PushCode(s1, b), [qt]));
    PushCodeTwice(s, [qt], b);
    PushCodeTwice(s, [qt] + b, [qt]);
    assert [qt] + (b + [qt]) == [qt] + b + [qt];
  }

  lemma SampleQuotedPieces(input: string)
    requires input == Sample
    ensures input == ("<?dchp " + "x") + "\n" + ("\"" + "?>" + "\"") + "?>"
  {
  }

  lemma SampleCode()
    ensures [] + "x" + "\n" + ("\"" + "?>" + "\"") == "x\n\"?>\""
  {
  }

  /** The stack once the quote-aware version has read the sample's first line, the newline and the quoted span. */
  const QuotedSample: Stack :=
    DA.PushCode(DA.ResetActiveIndent(DA.PushCode(Fresh(MG.Root), "x"), '\n'), "\"" + "?>" + "\"")

  /** The first line of the sample, read by the quote-aware version as by the code as written. */
  lemma QuotingFirstLine()
    ensures QuotingFrom(0, Start, Fresh(MG.Root), "<?dchp " + "x" + "\n") ==
      Finished(47, AdvanceAll(Start, "<?dchp " + "x" + "\n"), DA.ResetActiveIndent(DA.PushCode(Fresh(MG.Root), "x"), '\n'))
  {
    var f := Fresh(MG.Root);
    var p0 := "<?dchp ";
    DP.OpensFresh(' ');
    assert "<?dchp" + [' '] == p0;
    var s1 := DA.PushCode(f, "x");
    FirstCode(AdvanceAll(Start, p0), f, "x");
    Chain2(0, Start, f, p0, "x", 41, f, 42, s1);
    var p1 := p0 + "x";
    var s2 := DA.ResetActiveIndent(s1, '\n');
    assert '\n' !in p1;
    QuotingAgrees(0, Start, f, p1);
    QuotingNewline(AdvanceAll(Start, p1), s1);
    QuotingChain2(0, Start, f, p1, "\n", 42, s1, 47, s2);
  }

  /** Then the quote at the start of the second line opens a span that takes the `?>` with it. */
  lemma QuotingSampleSpan()
    ensures QuotingFrom(0, Start, Fresh(MG.Root), "<?dchp " + "x" + "\n" + ("\"" + "?>" + "\"")) ==
      Finished(42, AdvanceAll(Start, "<?dchp " + "x" + "\n" + ("\"" + "?>" + "\"")), QuotedSample)
  {
    var f := Fresh(MG.Root);
    var p2 := "<?dchp " + "x" + "\n";
    var s2 := DA.ResetActiveIndent(DA.PushCode(f, "x"), '\n');
    QuotingFirstLine();
    var quoted := "\"" + "?>" + "\"";
    assert Unquoted("?>", '"');
    QuotedLineStartOpaque(AdvanceAll(Start, p2), s2, '"', "?>");
    QuotingChain2(0, Start, f, p2, quoted, 47, s2, 42, QuotedSample);
  }

  /** With the quote-aware version the sample parses to one directive holding the quoted `?>`. */
  lemma QuoteAtLineStartQuoting(input: string)
    requires input == Sample
    ensures QuotingParseSpec(input) == Ok([Elem(DirectiveElement("x\n\"?>\""))])
  {
    SampleQuotedPieces(input);
    var f := Fresh(MG.Root);
    var p3 := "<?dchp " + "x" + "\n" + ("\"" + "?>" + "\"");
    var s3 := QuotedSample;
    QuotingSampleSpan();
    Close(42, AdvanceAll(Start, p3), s3);
    QuotingAgrees(42, AdvanceAll(Start, p3), s3, "?>");
    QuotingChain2(0, Start, f, p3, "?>", 42, s3, 0, DA.Finalize(s3));
    DP.EndsWithDirective(s3);
    SampleCode();
  }
}
