/**
 * Whole documents through the directive parser: a one-line directive, a
 * directive whose continuation lines carry the declared indentation, and
 * one whose continuation line is indented too little.
 */
module DirectiveParses {
  import opened Wrappers
  import opened Strings
  import opened Elements
  import opened Errors
  import opened ParseState
  import opened Generic
  import DA = DirectiveActions
  import MA = MarkupActions
  import MG = MarkupGrammar
  import MR = MarkupRuns
  import opened DirectiveGrammar
  import opened DirectiveRuns

  lemma DchpIsName()
    ensures MR.IsName("dchp")
  {
    assert forall i :: 0 <= i < 4 ==> "dchp"[i] in "dchp";
  }

  /** `<?dchp` and a space or newline leave the fresh stack as it was, in state 41. */
  lemma OpensFresh(c: char)
    requires c == ' ' || c == '\n'
    ensures From(0, Start, Fresh(MG.Root), "<?dchp" + [c]) == Finished(41, AdvanceAll(Start, "<?dchp" + [c]), Fresh(MG.Root))
  {
    DchpIsName();
    DirectiveOpen(0, Start, Fresh(MG.Root), "dchp", c);
    assert "<?" + "dchp" + [c] == "<?dchp" + [c];
    assert MA.FlushText(Fresh(MG.Root)).(dchpIndent := 0) == Fresh(MG.Root);
  }

  /** A directive closed with the root current is the whole result. */
  lemma EndsWithDirective(s: Stack)
    requires s.element == [] && s.current == MG.Root
    ensures MG.TopLevel(DA.Finalize(s)) == Ok([Elem(DirectiveElement(s.dchpContent))])
  {
    var f := DA.Finalize(s);
    assert f.current.content == [Elem(DirectiveElement(s.dchpContent))];
  }

  /** `<?dchp code?>` with plain code on one line parses to one directive holding that code. */
  lemma OneLineDirective(input: string, code: string)
    requires input == "<?dchp " + code + "?>"
    requires IsPlainCode(code) && code != [] && code[0] != ' '
    ensures ParseSpec(input) == Ok([Elem(DirectiveElement(code))])
  {
    var f := Fresh(MG.Root);
    var x := "<?dchp ";
    OpensFresh(' ');
    assert "<?dchp" + [' '] == x;
    FirstCode(AdvanceAll(Start, x), f, code);
    Chain2(0, Start, f, x, code, 41, f, 42, DA.PushCode(f, code));
    Close(42, AdvanceAll(Start, x + code), DA.PushCode(f, code));
    Chain2(0, Start, f, x + code, "?>", 42, DA.PushCode(f, code), 0, DA.Finalize(DA.PushCode(f, code)));
    EndsWithDirective(DA.PushCode(f, code));
    assert [] + code == code;
  }

  /** The first line of the code: k spaces declare the indentation, then the code x is copied. */
  lemma FirstLine(pos: Pos, s: Stack, k: nat, x: string)
    requires s.dchpIndent == 0
    requires IsPlainCode(x) && x != [] && x[0] != ' '
    ensures From(41, pos, s, Spaces(k) + x) ==
      Finished(42, AdvanceAll(pos, Spaces(k) + x), DA.PushCode(s.(dchpIndent := k), x))
  {
    assert MR.IsWhitespace(Spaces(k));
    Indentation(pos, s, Spaces(k));
    DeclaredSpaces(0, k);
    FirstCode(AdvanceAll(pos, Spaces(k)), s.(dchpIndent := k), x);
    Chain2(41, pos, s, Spaces(k), x, 41, s.(dchpIndent := k), 42, DA.PushCode(s.(dchpIndent := k), x));
  }

  /**
   * A continuation line carrying exactly the declared indentation adds a
   * newline and its code y to the code; the indentation is not copied.
   */
  lemma ContinuationLine(pos: Pos, s: Stack, k: nat, y: string)
    requires s.dchpIndent == k >= 1
    requires IsPlainCode(y)
    ensures From(42, pos, s, "\n" + Spaces(k) + y) ==
      Finished(42, AdvanceAll(pos, "\n" + Spaces(k) + y), s.(dchpContent := s.dchpContent + "\n" + y, dchpActiveIndent := 1))
  {
    Newline(pos, s);
    var s1 := DA.ResetActiveIndent(s, '\n');
    ConsumeIndent(AdvanceAll(pos, "\n"), s1, k);
    var s2 := s1.(dchpActiveIndent := 1);
    Chain2(42, pos, s, "\n", Spaces(k), 47, s1, 42, s2);
    Code(AdvanceAll(pos, "\n" + Spaces(k)), s2, y);
    Chain2(42, pos, s, "\n" + Spaces(k), y, 42, s2, 42, DA.PushCode(s2, y));
  }

  /** A document of three pieces and the closing `?>`, regrouped. */
  lemma Regroup(input: string, p: string, a: string, b: string, c: string, d: string, e: string)
    requires input == p + a + b + c + d + e + "?>"
    ensures input == (p + (a + b)) + (c + d + e) + "?>"
  {
  }

  lemma TwoLineCode(x: string, y: string)
    ensures [] + x + "\n" + y == x + "\n" + y
  {
  }

  /**
   * A directive over two lines, the second indented as the first declares:
   * the code is the two lines without their indentation.
   */
  lemma IndentedDirective(input: string, k: nat, x: string, y: string)
    requires input == "<?dchp\n" + Spaces(k) + x + "\n" + Spaces(k) + y + "?>"
    requires k >= 1 && IsPlainCode(x) && x != [] && x[0] != ' ' && IsPlainCode(y)
    ensures ParseSpec(input) == Ok([Elem(DirectiveElement(x + "\n" + y))])
  {
    var f := Fresh(MG.Root);
    var p1 := "<?dchp\n";
    var l1 := Spaces(k) + x;
    var l2 := "\n" + Spaces(k) + y;
    Regroup(input, p1, Spaces(k), x, "\n", Spaces(k), y);
    assert input == (p1 + l1) + l2 + "?>";
    OpensFresh('\n');
    assert "<?dchp" + ['\n'] == p1;
    var s1 := DA.PushCode(f.(dchpIndent := k), x);
    FirstLine(AdvanceAll(Start, p1), f, k, x);
    Chain2(0, Start, f, p1, l1, 41, f, 42, s1);
    var s2 := s1.(dchpContent := s1.dchpContent + "\n" + y, dchpActiveIndent := 1);
    ContinuationLine(AdvanceAll(Start, p1 + l1), s1, k, y);
    Chain2(0, Start, f, p1 + l1, l2, 42, s1, 42, s2);
    Close(42, AdvanceAll(Start, (p1 + l1) + l2), s2);
    Chain2(0, Start, f, (p1 + l1) + l2, "?>", 42, s2, 0, DA.Finalize(s2));
    EndsWithDirective(s2);
    TwoLineCode(x, y);
  }

  /**
   * A continuation line indented by j spaces where k are declared, followed
   * by code: a syntax error reporting both, at the first code character.
   */
  lemma ShortLine(pos: Pos, s: Stack, k: nat, j: nat, y: string)
    requires s.dchpIndent == k >= 1 && j < k
    requires y != [] && PlainChar(y[0]) && y[0] != ' '
    ensures From(42, pos, s, "\n" + Spaces(j) + y) == Failed(SyntaxAt(pos.line + 1, j, IndentationMismatch(k, j)))
  {
    Newline(pos, s);
    var s1 := DA.ResetActiveIndent(s, '\n');
    assert AdvanceAll(pos, "\n") == Pos(pos.line + 1, 0);
    ShortIndent(AdvanceAll(pos, "\n"), s1, j, y[0]);
    var err := Failed(SyntaxAt(pos.line + 1, j, IndentationMismatch(k, j)));
    ThenFailed(47, AdvanceAll(pos, "\n"), s1, Spaces(j) + [y[0]], y[1..]);
    assert Spaces(j) + [y[0]] + y[1..] == Spaces(j) + y;
    Chain(42, pos, s, "\n", Spaces(j) + y, 47, s1, err);
    assert "\n" + (Spaces(j) + y) == "\n" + Spaces(j) + y;
  }

  /** The first line of the document ends with `<?dchp` and its newline: what follows is on line 2. */
  lemma SecondLine(k: nat, x: string)
    requires IsPlainCode(x)
    ensures AdvanceAll(Start, "<?dchp\n" + (Spaces(k) + x)).line == 2
  {
    AdvanceAllAppend(Start, "<?dchp\n", Spaces(k) + x);
    AdvanceAllAppend(Start, "<?dchp", "\n");
    AdvanceAllFlat(Start, "<?dchp");
    assert "<?dchp" + "\n" == "<?dchp\n";
    assert forall i :: 0 <= i < |Spaces(k) + x| ==> (Spaces(k) + x)[i] != '\n';
    AdvanceAllFlat(AdvanceAll(Start, "<?dchp\n"), Spaces(k) + x);
  }

  /**
   * A directive whose second line is indented by j spaces where the first
   * declares k > j: a syntax error on line 3 at column j, reporting k and j.
   */
  lemma MisindentedDirective(input: string, k: nat, j: nat, x: string, y: string)
    requires input == "<?dchp\n" + Spaces(k) + x + "\n" + Spaces(j) + y + "?>"
    requires j < k && IsPlainCode(x) && x != [] && x[0] != ' '
    requires y != [] && PlainChar(y[0]) && y[0] != ' '
    ensures ParseSpec(input) == Err(SyntaxAt(3, j, IndentationMismatch(k, j)))
  {
    var f := Fresh(MG.Root);
    var p1 := "<?dchp\n";
    var l1 := Spaces(k) + x;
    var l2 := "\n" + Spaces(j) + y;
    Regroup(input, p1, Spaces(k), x, "\n", Spaces(j), y);
    assert input == (p1 + l1) + l2 + "?>";
    OpensFresh('\n');
    assert "<?dchp" + ['\n'] == p1;
    var s1 := DA.PushCode(f.(dchpIndent := k), x);
    FirstLine(AdvanceAll(Start, p1), f, k, x);
    Chain2(0, Start, f, p1, l1, 41, f, 42, s1);
    SecondLine(k, x);
    var err := Failed(SyntaxAt(3, j, IndentationMismatch(k, j)));
    ShortLine(AdvanceAll(Start, p1 + l1), s1, k, j, y);
    Chain(0, Start, f, p1 + l1, l2, 42, s1, err);
    ThenFailed(0, Start, f, (p1 + l1) + l2, "?>");
  }
}
