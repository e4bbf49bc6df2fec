/**
 * Whole documents through the older markup parser.  Each is read with the
 * newer grammar's lemmas over the shared edges, from the older parse's
 * seeded stack, and where the two parsers part ways both results are
 * stated.
 */
module OldMarkupParses {
  import opened Wrappers
  import opened Strings
  import opened Guards
  import opened Elements
  import opened Errors
  import opened ParseState
  import opened Generic
  import MA = MarkupActions
  import MG = MarkupGrammar
  import MR = MarkupRuns
  import MP = MarkupParses
  import opened OldMarkupGrammar
  import opened OldMarkupRuns

  /** Names hold no newline. */
  lemma NameFlat(n: string)
    requires IsAlnumText(n)
    ensures forall i :: 0 <= i < |n| ==> n[i] != '\n'
  {
  }

  /** The newer grammar's text words include the older grammar's. */
  lemma AlnumIsWord(t: string)
    requires IsAlnumText(t)
    ensures MR.IsWord(t)
  {
  }

  /** Along a shared path the older parse runs as the newer grammar does from the seeded stack. */
  lemma RunsAsNewer(input: string)
    requires Along(0, input)
    ensures RunGrammar(input) == MR.From(0, Start, Seeded(), input)
  {
    AlongAgrees(0, Start, Seeded(), input);
  }

  /** The empty document is the root's empty content here; the newer parser finds no top-level item. */
  lemma EmptyDocument()
    ensures ParseSpec("") == Ok([])
    ensures MG.ParseSpec("") == Err(IndexError)
  {
  }

  /** `<u>w</u>`: one element u holding the alphanumeric text w. */
  lemma ElementWithText(input: string, u: string, w: string)
    requires input == ("<" + u + ">") + w + ("</" + u + ">")
    requires MR.IsName(u) && IsLowerString(u) && u !in NonClosing
    requires |w| > 0 && IsAlnumText(w)
    ensures ParseSpec(input) == Ok([Elem(Node(KindFor(u), u, [Text(w)], [], []))])
  {
    var x := "<" + u + ">";
    var z := "</" + u + ">";
    AlongOpenTag(0, u);
    AlongWord(0, w);
    AlongAppend(0, x, w);
    AlongCloseTag(0, u);
    AlongAppend(0, x + w, z);
    RunsAsNewer(input);
    AlnumIsWord(w);
    var s0 := Seeded();
    MP.TextChild(Start, s0, u, w);
    var child := Node(KindFor(u), u, [Text(w)], [], []);
    var s1 := s0.(current := Append(s0.current, Elem(child)));
    assert RunGrammar(input) == Finished(0, AdvanceAll(Start, input), s1);
    assert s1.current.content == [Elem(child)];
  }

  /** An element left open leaves a second entry on the ancestor list: an error. */
  lemma UnclosedElement(n: string)
    requires MR.IsName(n) && Lower(n) !in NonClosing
    ensures ParseSpec("<" + n + ">") == Err(Unterminated)
  {
    AlongOpenTag(0, n);
    AlongAgrees(0, Start, Seeded(), "<" + n + ">");
    MR.OpenTag(0, Start, Seeded(), n);
  }

  /**
   * A non-closing element alone is the whole document.  With no doctype
   * rule that includes `<doctype>`, which the newer parser refuses for
   * want of an html element after it.
   */
  lemma LoneNonClosing(n: string)
    requires MR.IsName(n) && Lower(n) in NonClosing
    ensures ParseSpec("<" + n + ">") == Ok([Elem(ByTag(Lower(n)))])
    ensures Lower(n) == "doctype" ==> MG.ParseSpec("<" + n + ">") == Err(IndexError)
  {
    var s0 := Seeded();
    AlongOpenTag(0, n);
    RunsAsNewer("<" + n + ">");
    MR.OpenTag(0, Start, s0, n);
    assert MA.FlushText(s0) == s0;
    var s1 := s0.(current := Append(MG.Root, Elem(ByTag(Lower(n)))));
    assert RunGrammar("<" + n + ">") == Finished(0, AdvanceAll(Start, "<" + n + ">"), s1);
    assert s1.current.content == [Elem(ByTag(Lower(n)))];
    MR.OpenTag(0, Start, Fresh(MG.Root), n);
    assert MA.FlushText(Fresh(MG.Root)) == Fresh(MG.Root);
  }

  /** In the newer grammar from the seeded stack, `<t />` opens t above the root and finishes it into the root. */
  lemma SelfClosingRun(t: string)
    requires MR.IsName(t)
    ensures MR.From(0, Start, Seeded(), ("<" + t + " ") + "/>") ==
      Finished(0, AdvanceAll(Start, ("<" + t + " ") + "/>"), Seeded().(current := Append(MG.Root, Elem(ByTag(Lower(t))))))
  {
    var s0 := Seeded();
    var x := "<" + t + " ";
    MR.OpenTagSpace(0, Start, s0, t);
    var s1 := s0.(element := [MG.Root, MG.Root], current := ByTag(Lower(t)));
    assert MA.OpenElement(MR.Named(s0, t)) == s1;
    MR.SelfClose(AdvanceAll(Start, x), s1);
    var s2 := s0.(current := Append(MG.Root, Elem(ByTag(Lower(t)))));
    assert MA.FinishElement(s1) == Ok(s2);
    AdvanceAllAppend(AdvanceAll(Start, x), "/", ">");
    assert "/" + ">" == "/>";
    AdvanceAllAppend(Start, x, "/>");
    MR.Chain(0, Start, s0, x, "/>", 3, s1, Finished(0, AdvanceAll(Start, x + "/>"), s2));
  }

  /** `<t />`: the element is finished by `/>` whether or not it is non-closing. */
  lemma SelfClosing(input: string, t: string)
    requires input == ("<" + t + " ") + "/>" && MR.IsName(t)
    ensures ParseSpec(input) == Ok([Elem(ByTag(Lower(t)))])
  {
    var x := "<" + t + " ";
    AlongOpenTag(0, t);
    AlongSelfClose();
    AlongAppend(0, x, "/>");
    RunsAsNewer(input);
    SelfClosingRun(t);
    assert Append(MG.Root, Elem(ByTag(Lower(t)))).content == [Elem(ByTag(Lower(t)))];
  }

  /** In the newer grammar from the seeded stack, `</n>` naming the root closes the root into itself, and a second one fails. */
  lemma ClosingTheRootRun(n: string)
    requires MR.IsName(n) && Lower(n) == MG.Root.tag
    ensures MR.From(0, Start, Seeded(), "</" + n + ">") ==
      Finished(0, AdvanceAll(Start, "</" + n + ">"), Seeded().(element := [], current := Append(MG.Root, Elem(MG.Root))))
    ensures MR.From(0, Start, Seeded(), ("</" + n + ">") + ("</" + n + ">")) == Failed(IndexError)
  {
    var s0 := Seeded();
    var x := "</" + n + ">";
    MR.CloseTag(0, Start, s0, n);
    var s1 := s0.(element := [], current := Append(MG.Root, Elem(MG.Root)));
    assert MA.CloseElement(MR.Named(s0, n)) == Ok(s1);
    AdvanceAllAppend(Start, "</" + n, ">");
    MR.CloseTag(0, AdvanceAll(Start, x), s1, n);
    assert MA.CloseElement(MR.Named(s1, n)) == Err(RaisedIndexError);
    MR.Chain(0, Start, s0, x, x, 0, s1, Failed(IndexError));
  }

  /**
   * `</n>` naming the root closes the seeded root into itself; with the
   * ancestor list empty the parse succeeds.  A second one finds no
   * parent.  The newer parser fails on the first.
   */
  lemma ClosingTheRoot(input: string, n: string)
    requires input == "</" + n + ">" && MR.IsName(n) && Lower(n) == MG.Root.tag
    ensures ParseSpec(input) == Ok([Elem(MG.Root)])
    ensures ParseSpec(input + input) == Err(IndexError)
    ensures MG.ParseSpec(input) == Err(IndexError)
  {
    AlongCloseTag(0, n);
    AlongAppend(0, input, input);
    RunsAsNewer(input);
    RunsAsNewer(input + input);
    ClosingTheRootRun(n);
    assert Append(MG.Root, Elem(MG.Root)).content == [Elem(MG.Root)];
    MP.ClosingAtTop(input, n);
  }

  /** In the newer grammar from the seeded stack, `<a></b>` fails at the `>` of the closing tag. */
  lemma MismatchedCloseRun(a: string, b: string)
    requires MR.IsName(a) && MR.IsName(b) && Lower(a) !in NonClosing && Lower(a) != Lower(b)
    ensures var p := AdvanceAll(AdvanceAll(Start, "<" + a + ">"), "</" + b);
      MR.From(0, Start, Seeded(), ("<" + a + ">") + ("</" + b + ">")) ==
        Failed(SyntaxAt(p.line, p.col, MismatchedClosingTag(Lower(a), Lower(b))))
  {
    var s0 := Seeded();
    var x := "<" + a + ">";
    MR.OpenTag(0, Start, s0, a);
    assert MA.FlushText(s0) == s0;
    assert s0.element + [s0.current] == [MG.Root, MG.Root];
    var s1 := s0.(element := [MG.Root, MG.Root], current := ByTag(Lower(a)));
    MR.MismatchedClose(0, AdvanceAll(Start, x), s1, b);
    var p := AdvanceAll(AdvanceAll(Start, x), "</" + b);
    MR.Chain(0, Start, s0, x, "</" + b + ">", 0, s1, Failed(SyntaxAt(p.line, p.col, MismatchedClosingTag(Lower(a), Lower(b)))));
  }

  /** The `>` of `</b>` after `<a>` is at column |a| + |b| + 4 of line 1. */
  lemma MismatchPosition(a: string, b: string)
    requires IsAlnumText(a) && IsAlnumText(b)
    ensures AdvanceAll(AdvanceAll(Start, "<" + a + ">"), "</" + b) == Pos(1, |a| + |b| + 4)
  {
    NameFlat(a);
    NameFlat(b);
    assert '\n' !in a && '\n' !in b;
    var x, y := "<" + a + ">", "</" + b;
    MP.FlatText(x);
    MP.FlatText(y);
    AdvanceAllFlat(Start, x);
    AdvanceAllFlat(AdvanceAll(Start, x), y);
  }

  lemma AlongMismatch(a: string, b: string)
    requires MR.IsName(a) && MR.IsName(b)
    ensures Along(0, ("<" + a + ">") + ("</" + b + ">"))
  {
    AlongOpenTag(0, a);
    AlongCloseTag(0, b);
    AlongAppend(0, "<" + a + ">", "</" + b + ">");
  }

  /**
   * `<a></b>`: the closing tag names the wrong element, reported with both
   * tags at the position of its `>`, column |a| + |b| + 4 of line 1 (see
   * MismatchPosition).
   */
  lemma MismatchedClose(input: string, a: string, b: string)
    requires input == ("<" + a + ">") + ("</" + b + ">")
    requires MR.IsName(a) && MR.IsName(b) && Lower(a) !in NonClosing && Lower(a) != Lower(b)
    ensures var p := AdvanceAll(AdvanceAll(Start, "<" + a + ">"), "</" + b);
      ParseSpec(input) == Err(SyntaxAt(p.line, p.col, MismatchedClosingTag(Lower(a), Lower(b))))
  {
    AlongMismatch(a, b);
    RunsAsNewer(input);
    MismatchedCloseRun(a, b);
  }

  /** `<!` has no edge: no comment and no doctype declaration gets past it. */
  lemma BangRejected(input: string, rest: string)
    requires input == "<!" + rest
    ensures ParseSpec(input) == Err(SyntaxAt(1, 1, NoMatchingEdge('!')))
  {
    var s0 := Seeded();
    One(0, Start, s0, '<');
    One(1, Advance(Start, '<'), MA.FlushText(s0), '!');
    Chain(0, Start, s0, "<", "!", 1, MA.FlushText(s0), Failed(SyntaxAt(1, 1, NoMatchingEdge('!'))));
    assert "<" + "!" == "<!";
    ThenFailed(0, Start, s0, "<!", rest);
  }

  /** A character the newer grammar allows in text, such as `?` or `&`, is a syntax error after a word. */
  lemma ConformRejected(input: string, w: string, c: char, rest: string)
    requires input == w + [c] + rest
    requires |w| > 0 && IsAlnumText(w) && c in HtmlAllowed && !IsAlnum(c)
    ensures ParseSpec(input) == Err(SyntaxAt(1, |w|, NoMatchingEdge(c)))
  {
    var s0 := Seeded();
    AlongWord(0, w);
    AlongAgrees(0, Start, s0, w);
    AlnumIsWord(w);
    MR.Word(0, Start, s0, w);
    var s1 := s0.(textContent := s0.textContent + MR.Singletons(w));
    NameFlat(w);
    AdvanceAllFlat(Start, w);
    RejectsInText(0, AdvanceAll(Start, w), s1, c, rest);
    Chain(0, Start, s0, w, [c] + rest, 0, s1, Failed(SyntaxAt(1, |w|, NoMatchingEdge(c))));
    assert w + ([c] + rest) == input;
  }

  /** The accumulator before the character after a bare attribute name k in `<t k`. */
  function AtArgName(t: string, k: string): Stack {
    MA.OpenElement(MR.Named(Seeded(), t)).(argname := k)
  }

  /** `<t k` reaches the attribute name state with k in its buffer. */
  lemma BareAttributeRead(t: string, k: string)
    requires MR.IsName(t) && MR.IsName(k)
    ensures From(0, Start, Seeded(), ("<" + t + " ") + k) == Finished(4, AdvanceAll(Start, ("<" + t + " ") + k), AtArgName(t, k))
    ensures AdvanceAll(Start, ("<" + t + " ") + k) == Pos(1, |t| + |k| + 2)
  {
    var s0 := Seeded();
    var x := "<" + t + " ";
    AlongOpenTag(0, t);
    AlongName(3, k);
    AlongAppend(0, x, k);
    AlongAgrees(0, Start, s0, x + k);
    MR.OpenTagSpace(0, Start, s0, t);
    var s1 := MA.OpenElement(MR.Named(s0, t));
    MR.ArgName(AdvanceAll(Start, x), s1, k);
    assert s1.(argname := s1.argname + k) == AtArgName(t, k);
    MR.Chain2(0, Start, s0, x, k, 3, s1, 4, AtArgName(t, k));
    NameFlat(t);
    NameFlat(k);
    AdvanceAllFlat(Start, x + k);
  }

  /**
   * A bare attribute: followed by a space, its action raises the
   * undefined-name error; followed by `>`, there is no edge.  The newer
   * parser records it as a flag in both cases.
   */
  lemma BareAttribute(t: string, k: string, rest: string)
    requires MR.IsName(t) && MR.IsName(k)
    ensures ParseSpec(("<" + t + " ") + k + (" " + rest)) == Err(NameError)
    ensures ParseSpec(("<" + t + " ") + k + (">" + rest)) == Err(SyntaxAt(1, |t| + |k| + 2, NoMatchingEdge('>')))
  {
    var x := ("<" + t + " ") + k;
    BareAttributeRead(t, k);
    AttributeNameEnds(AdvanceAll(Start, x), AtArgName(t, k), rest);
    Chain(0, Start, Seeded(), x, " " + rest, 4, AtArgName(t, k), Failed(NameError));
    Chain(0, Start, Seeded(), x, ">" + rest, 4, AtArgName(t, k), Failed(SyntaxAt(1, |t| + |k| + 2, NoMatchingEdge('>'))));
  }
}
