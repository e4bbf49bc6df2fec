/**
 * Whole parses with the markup grammar: what parse returns for an
 * unclosed element, a lone non-closing element, trailing text, a closing
 * tag that does not match, and two complete documents that render back to
 * the text they were parsed from.
 */
module MarkupParses {
  import opened Wrappers
  import opened Strings
  import opened Elements
  import opened Errors
  import opened ParseState
  import opened Generic
  import MA = MarkupActions
  import opened MarkupGrammar
  import opened MarkupRuns
  import Guards

  /** The run parse makes is the run from state 0 at the start with a fresh stack over the root. */
  lemma RunIsFrom(input: string)
    ensures RunGrammar(input) == From(0, Start, Fresh(Root), input)
  {
  }

  /** Text after the last tag is never flushed, so a document of text alone has no top-level item. */
  lemma TrailingTextDropped(t: string)
    requires |t| > 0 && IsWord(t)
    ensures ParseSpec(t) == Err(IndexError)
  {
    Word(0, Start, Fresh(Root), t);
  }

  /** An element left open is an error once the input ends. */
  lemma UnclosedElement(n: string)
    requires IsName(n) && Lower(n) !in NonClosing
    ensures ParseSpec("<" + n + ">") == Err(Unterminated)
  {
    OpenTag(0, Start, Fresh(Root), n);
  }

  /** A non-closing element needs no closing tag: on its own it is the whole document. */
  lemma LoneNonClosing(n: string)
    requires IsName(n) && Lower(n) in NonClosing && Lower(n) != "doctype"
    ensures ParseSpec("<" + n + ">") == Ok([Elem(ByTag(Lower(n)))])
  {
    var s0 := Fresh(Root);
    OpenTag(0, Start, s0, n);
    assert MA.FlushText(s0) == s0;
    var s1 := s0.(current := Append(Root, Elem(ByTag(Lower(n)))));
    RunIsFrom("<" + n + ">");
    assert RunGrammar("<" + n + ">").stack == s1;
    assert s1.current.content == [Elem(ByTag(Lower(n)))];
  }

  /**
   * A closing tag before anything is open is checked against the root:
   * naming the root, it has no parent to return to; naming anything else,
   * it does not match.
   */
  lemma ClosingAtTop(input: string, n: string)
    requires IsName(n) && input == "</" + n + ">"
    ensures Lower(n) == Root.tag ==> ParseSpec(input) == Err(IndexError)
    ensures var p := AdvanceAll(Start, "</" + n);
      Lower(n) != Root.tag ==> ParseSpec(input) == Err(SyntaxAt(p.line, p.col, MismatchedClosingTag(Root.tag, Lower(n))))
  {
    var s := Fresh(Root);
    CloseTag(0, Start, s, n);
    assert Named(s, n) == s.(elementName := n);
    RunIsFrom(input);
  }

  /** `</cellar>` alone: the root itself is closed, and popping its parent fails. */
  lemma ClosingTheRoot(input: string)
    requires input == "</cellar>"
    ensures ParseSpec(input) == Err(IndexError)
  {
    assert input == "</" + "cellar" + ">";
    LowerOfLower("cellar");
    ClosingAtTop(input, "cellar");
  }

  /** The accumulator after `<a><b>`: a is the parent of the current element b. */
  function TwoOpen(a: string, b: string): Stack {
    Fresh(Root).(element := [Root, ByTag(Lower(a))], current := ByTag(Lower(b)))
  }

  /** `<a><b>` opens a and then b inside it. */
  lemma OpensTwo(a: string, b: string)
    requires IsName(a) && IsName(b) && Lower(a) !in NonClosing && Lower(b) !in NonClosing
    ensures From(0, Start, Fresh(Root), ("<" + a + ">") + ("<" + b + ">")) ==
      Finished(0, AdvanceAll(Start, ("<" + a + ">") + ("<" + b + ">")), TwoOpen(a, b))
  {
    var s0 := Fresh(Root);
    OpenTag(0, Start, s0, a);
    var s1 := s0.(element := [Root], current := ByTag(Lower(a)));
    assert MA.FlushText(s0) == s0;
    assert s0.element + [s0.current] == [Root];
    assert s0.(element := [Root], current := ByTag(Lower(a))) == s1;
    OpenTag(0, AdvanceAll(Start, "<" + a + ">"), s1, b);
    assert MA.FlushText(s1) == s1;
    assert s1.element + [s1.current] == [Root, ByTag(Lower(a))];
    assert s1.(element := [Root, ByTag(Lower(a))], current := ByTag(Lower(b))) == TwoOpen(a, b);
    Chain2(0, Start, s0, "<" + a + ">", "<" + b + ">", 0, s1, 0, TwoOpen(a, b));
  }

  /** `<a><b></a>` fails at the closing tag, naming b as expected and a as found. */
  lemma MismatchedNestingRun(a: string, b: string)
    requires IsName(a) && IsName(b) && Lower(a) !in NonClosing && Lower(b) !in NonClosing && Lower(a) != Lower(b)
    ensures var x := ("<" + a + ">") + ("<" + b + ">");
      var p := AdvanceAll(AdvanceAll(Start, x), "</" + a);
      From(0, Start, Fresh(Root), x + ("</" + a + ">")) ==
        Failed(SyntaxAt(p.line, p.col, MismatchedClosingTag(Lower(b), Lower(a))))
  {
    var x := ("<" + a + ">") + ("<" + b + ">");
    OpensTwo(a, b);
    var s2 := TwoOpen(a, b);
    MismatchedClose(0, AdvanceAll(Start, x), s2, a);
    var p := AdvanceAll(AdvanceAll(Start, x), "</" + a);
    Chain(0, Start, Fresh(Root), x, "</" + a + ">", 0, s2,
      Failed(SyntaxAt(p.line, p.col, MismatchedClosingTag(Lower(b), Lower(a)))));
  }

  /** A name holds no newline. */
  lemma NameFlat(n: string)
    requires IsName(n)
    ensures forall i :: 0 <= i < |n| ==> n[i] != '\n'
  {
  }

  /** Text without a newline, in the form AdvanceAllFlat asks for. */
  lemma FlatText(x: string)
    requires '\n' !in x
    ensures forall i :: 0 <= i < |x| ==> x[i] != '\n'
  {
    forall i | 0 <= i < |x| ensures x[i] != '\n' {
      assert x[i] in x;
    }
  }

  /** Names hold no newline, so the closing `>` of `<a><b></a>` is on line 1 after everything before it. */
  lemma NestingColumn(a: string, b: string)
    requires IsName(a) && IsName(b)
    ensures AdvanceAll(AdvanceAll(Start, ("<" + a + ">") + ("<" + b + ">")), "</" + a) == Pos(1, 2 * |a| + |b| + 6)
  {
    NameFlat(a);
    NameFlat(b);
    assert '\n' !in a && '\n' !in b;
    var x := ("<" + a + ">") + ("<" + b + ">");
    var y := "</" + a;
    FlatText(x);
    FlatText(y);
    AdvanceAllFlat(Start, x);
    AdvanceAllFlat(AdvanceAll(Start, x), y);
  }

  /** How `<a><b></a>` splits into the two opening tags and the closing one. */
  lemma NestingText(a: string, b: string)
    ensures "<" + a + "><" + b + "></" + a + ">" == (("<" + a + ">") + ("<" + b + ">")) + ("</" + a + ">")
  {
    assert "><" == ">" + "<";
    assert "></" == ">" + "</";
  }

  /**
   * `<a><b></a>`: the closing tag is checked against the innermost open
   * element, and the error names it, the tag found, and the position of
   * the closing `>` (line 1, after everything before it: see NestingColumn).
   */
  lemma MismatchedNesting(input: string, a: string, b: string)
    requires IsName(a) && IsName(b) && Lower(a) !in NonClosing && Lower(b) !in NonClosing && Lower(a) != Lower(b)
    requires input == "<" + a + "><" + b + "></" + a + ">"
    ensures var p := AdvanceAll(AdvanceAll(Start, ("<" + a + ">") + ("<" + b + ">")), "</" + a);
      ParseSpec(input) == Err(SyntaxAt(p.line, p.col, MismatchedClosingTag(Lower(b), Lower(a))))
  {
    MismatchedNestingRun(a, b);
    NestingText(a, b);
    RunIsFrom(input);
  }

  /** With lower-case names the error repeats them as written, at column 2|a| + |b| + 6. */
  lemma LowerMismatchedNesting(input: string, a: string, b: string)
    requires IsName(a) && IsName(b) && IsLowerString(a) && IsLowerString(b)
    requires a !in NonClosing && b !in NonClosing && a != b
    requires input == "<" + a + "><" + b + "></" + a + ">"
    ensures ParseSpec(input) == Err(SyntaxAt(1, 2 * |a| + |b| + 6, MismatchedClosingTag(b, a)))
  {
    LowerNesting(input, a, b);
    NestingColumn(a, b);
  }

  lemma LowerNesting(input: string, a: string, b: string)
    requires IsName(a) && IsName(b) && IsLowerString(a) && IsLowerString(b)
    requires a !in NonClosing && b !in NonClosing && a != b
    requires input == "<" + a + "><" + b + "></" + a + ">"
    ensures var p := AdvanceAll(AdvanceAll(Start, ("<" + a + ">") + ("<" + b + ">")), "</" + a);
      ParseSpec(input) == Err(SyntaxAt(p.line, p.col, MismatchedClosingTag(b, a)))
  {
    LowerOfLower(a);
    LowerOfLower(b);
    MismatchedNesting(input, a, b);
  }

  /** The closing-tag example: `<div><span></div>` names span as expected and div as found, at column 16. */
  lemma MismatchExample(input: string)
    requires input == "<div><span></div>"
    ensures ParseSpec(input) == Err(SyntaxAt(1, 16, MismatchedClosingTag("span", "div")))
  {
    assert input == "<" + "div" + "><" + "span" + "></" + "div" + ">";
    LowerMismatchedNesting(input, "div", "span");
  }

  /** The tree of `<div class="a"><p>Hi</p></div>`. */
  const DivTree: Node :=
    Node(Plain, "div", [Elem(Node(Plain, "p", [Text("Hi")], [], []))], [], [("class", VStr("a"))])

  /** A word is never a blank text buffer once split into pieces. */
  lemma WordNotBlank(w: string)
    requires |w| > 0 && IsWord(w)
    ensures !MA.Blank(Singletons(w))
  {
    var t := Singletons(w);
    assert t == [[w[0]]] + Singletons(w[1..]);
    assert t[0] == [w[0]];
    assert Guards.HtmlConform(w[0]);
    assert [w[0]] != " " by {
      assert [w[0]][0] == w[0];
    }
  }

  /**
   * `<u>w</u>` in text with nothing pending: a child u holding the text w
   * is added to the current element.
   */
  lemma TextChild(pos: Pos, s: Stack, u: string, w: string)
    requires IsName(u) && IsLowerString(u) && u !in NonClosing
    requires |w| > 0 && IsWord(w)
    requires s.elementName == [] && s.textContent == []
    ensures From(0, pos, s, ("<" + u + ">") + w + ("</" + u + ">")) ==
      Finished(0, AdvanceAll(pos, ("<" + u + ">") + w + ("</" + u + ">")),
        s.(current := Append(s.current, Elem(Node(KindFor(u), u, [Text(w)], [], [])))))
  {
    LowerOfLower(u);
    var x := "<" + u + ">";
    OpenTag(0, pos, s, u);
    assert MA.FlushText(s) == s;
    var s1 := s.(element := s.element + [s.current], current := ByTag(u));
    var p1 := AdvanceAll(pos, x);
    Word(0, p1, s1, w);
    var s2 := s1.(textContent := Singletons(w));
    assert s1.textContent + Singletons(w) == Singletons(w);
    Chain2(0, pos, s, x, w, 0, s1, 0, s2);
    var p2 := AdvanceAll(pos, x + w);
    MatchingClose(0, p2, s2, u);
    WordNotBlank(w);
    ConcatSingletons(w);
    var child := Node(KindFor(u), u, [Text(w)], [], []);
    var f := MA.FlushText(s2);
    assert f.current == child;
    assert f.element[..|f.element| - 1] == s.element;
    Chain2(0, pos, s, x + w, "</" + u + ">", 0, s2, 0, s.(current := Append(s.current, Elem(child))));
  }

  /** Opening a lower-case name with no text pending pushes the current node and makes the new one current. */
  lemma OpenNamed(s: Stack, t: string)
    requires IsLowerString(t) && s.elementName == [] && s.textContent == []
    ensures MA.OpenElement(Named(s, t)) == s.(element := s.element + [s.current], current := ByTag(t))
  {
    LowerOfLower(t);
    assert MA.FlushText(s) == s;
    assert Named(s, t) == s.(elementName := t);
  }

  /** `<t k="v"` in text with nothing pending: t is opened and v is recorded under the lower-cased k. */
  lemma OpenWithValueAttr(pos: Pos, s: Stack, t: string, k: string, v: string)
    requires IsName(t) && IsLowerString(t) && t !in NonClosing && IsName(k) && IsQuotable(v)
    requires s.elementName == [] && s.argname == [] && s.kwargValue == [] && s.textContent == []
    ensures From(0, pos, s, ("<" + t + " ") + (k + "=\"" + v + "\"")) ==
      Finished(7, AdvanceAll(pos, ("<" + t + " ") + (k + "=\"" + v + "\"")),
        s.(element := s.element + [s.current], current := Node(KindFor(t), t, [], [], [(Lower(k), VStr(v))])))
  {
    LowerOfLower(t);
    var x1 := "<" + t + " ";
    var x2 := k + "=\"" + v + "\"";
    OpenTagSpace(0, pos, s, t);
    var s1 := s.(element := s.element + [s.current], current := ByTag(t));
    OpenNamed(s, t);
    var p1 := AdvanceAll(pos, x1);
    ValueAttr(p1, s1, k, v);
    var s2 := s.(element := s.element + [s.current], current := Node(KindFor(t), t, [], [], [(Lower(k), VStr(v))]));
    assert MA.RecordValue(s1.(argname := k, kwargValue := v)) == s2;
    Chain2(0, pos, s, x1, x2, 3, s1, 7, s2);
  }

  /**
   * `<t k="v">` in text with nothing pending: t is opened with the value v
   * recorded under the lower-cased k.
   */
  lemma OpenWithValue(pos: Pos, s: Stack, t: string, k: string, v: string)
    requires IsName(t) && IsLowerString(t) && t !in NonClosing && IsName(k) && IsQuotable(v)
    requires s.elementName == [] && s.argname == [] && s.kwargValue == [] && s.textContent == []
    ensures From(0, pos, s, ("<" + t + " ") + (k + "=\"" + v + "\"") + ">") ==
      Finished(0, AdvanceAll(pos, ("<" + t + " ") + (k + "=\"" + v + "\"") + ">"),
        s.(element := s.element + [s.current], current := Node(KindFor(t), t, [], [], [(Lower(k), VStr(v))])))
  {
    var x := ("<" + t + " ") + (k + "=\"" + v + "\"");
    OpenWithValueAttr(pos, s, t, k, v);
    var s2 := s.(element := s.element + [s.current], current := Node(KindFor(t), t, [], [], [(Lower(k), VStr(v))]));
    var p2 := AdvanceAll(pos, x);
    OneTo(7, p2, s2, '>', 0, s2);
    Chain2(0, pos, s, x, ">", 7, s2, 0, s2);
  }

  /** The div without its child: what `<div class="a">` opens. */
  const DivOpened: Node := Node(Plain, "div", [], [], [("class", VStr("a"))])

  /** The document split at the boundaries of the lemmas above. */
  const DivOpen: string := ("<" + "div" + " ") + ("class" + "=\"" + "a" + "\"") + ">"
  const DivChild: string := ("<" + "p" + ">") + "Hi" + ("</" + "p" + ">")
  const DivClose: string := "</" + "div" + ">"

  lemma DivOpens()
    ensures From(0, Start, Fresh(Root), DivOpen) ==
      Finished(0, AdvanceAll(Start, DivOpen), Fresh(Root).(element := [Root], current := DivOpened))
  {
    var s0 := Fresh(Root);
    DivNames();
    OpenWithValue(Start, s0, "div", "class", "a");
    assert s0.element + [s0.current] == [Root];
  }

  /** The names and the value of `<div class="a">` are ones the grammar reads. */
  lemma DivNames()
    ensures IsName("div") && IsLowerString("div") && "div" !in NonClosing
    ensures IsName("class") && Lower("class") == "class" && IsQuotable("a")
  {
    LowerOfLower("class");
  }

  lemma DivChildParses(pos: Pos)
    ensures From(0, pos, Fresh(Root).(element := [Root], current := DivOpened), DivChild) ==
      Finished(0, AdvanceAll(pos, DivChild), Fresh(Root).(element := [Root], current := DivTree))
  {
    assert IsWord("Hi") && IsName("p") && IsLowerString("p");
    var s1 := Fresh(Root).(element := [Root], current := DivOpened);
    TextChild(pos, s1, "p", "Hi");
    assert KindFor("p") == Plain;
    assert Append(DivOpened, Elem(Node(Plain, "p", [Text("Hi")], [], []))) == DivTree;
  }

  lemma DivCloses(pos: Pos)
    ensures From(0, pos, Fresh(Root).(element := [Root], current := DivTree), DivClose) ==
      Finished(0, AdvanceAll(pos, DivClose), Fresh(Root).(current := Append(Root, Elem(DivTree))))
  {
    var s2 := Fresh(Root).(element := [Root], current := DivTree);
    LowerOfLower("div");
    MatchingClose(0, pos, s2, "div");
    assert MA.FlushText(s2) == s2;
    AdvanceAllAppend(pos, "</" + "div", ">");
  }

  lemma DivRun()
    ensures From(0, Start, Fresh(Root), DivOpen + DivChild + DivClose) ==
      Finished(0, AdvanceAll(Start, DivOpen + DivChild + DivClose), Fresh(Root).(current := Append(Root, Elem(DivTree))))
  {
    var s0 := Fresh(Root);
    var s1 := s0.(element := [Root], current := DivOpened);
    var s2 := s0.(element := [Root], current := DivTree);
    DivOpens();
    DivChildParses(AdvanceAll(Start, DivOpen));
    Chain2(0, Start, s0, DivOpen, DivChild, 0, s1, 0, s2);
    DivCloses(AdvanceAll(Start, DivOpen + DivChild));
    Chain2(0, Start, s0, DivOpen + DivChild, DivClose, 0, s2, 0, s0.(current := Append(Root, Elem(DivTree))));
  }

  /** How the div document splits into the pieces the lemmas above read. */
  lemma DivText(input: string)
    requires input == "<div class=\"a\"><p>Hi</p></div>"
    ensures input == DivOpen + DivChild + DivClose
  {
  }

  /** `<div class="a"><p>Hi</p></div>` is one div with the class attribute and a paragraph holding the text. */
  lemma DivParses(input: string)
    requires input == "<div class=\"a\"><p>Hi</p></div>"
    ensures ParseSpec(input) == Ok([Elem(DivTree)])
  {
    DivText(input);
    DivRun();
    RunIsFrom(input);
    var s3 := Fresh(Root).(current := Append(Root, Elem(DivTree)));
    assert RunGrammar(input).stack == s3;
    assert s3.current.content == [Elem(DivTree)];
  }

  /** The head of the div: its tag, then the one attribute. */
  lemma DivHead()
    ensures Head(DivTree) == "div class=\"a\""
  {
    HeadOneValue(DivTree, "class", VStr("a"));
    assert "div" + " " + "class" + "=\"" + "a" + "\"" == "div class=\"a\"";
  }

  /** The paragraph renders as its tag around its text. */
  lemma ParagraphRenders()
    ensures Render(Node(Plain, "p", [Text("Hi")], [], [])) == "<p>Hi</p>"
  {
    var n := Node(Plain, "p", [Text("Hi")], [], []);
    assert [RenderTag(n)] + n.params + AttrPieces(n.valueParams) == ["p"];
    assert Head(n) == "p";
    assert n.content[..0] == [];
    assert RenderAll(n.content) == RenderAll([]) + "Hi";
    assert RenderAll(n.content) == "Hi";
  }

  /** Rendering that tree gives back the exact text. */
  lemma DivRendersBack(input: string)
    requires input == "<div class=\"a\"><p>Hi</p></div>"
    ensures Render(DivTree) == input
  {
    DivHead();
    DivContentRenders();
    assert Render(DivTree) == "<" + Head(DivTree) + ">" + RenderAll(DivTree.content) + "</" + "div" + ">";
    DivRenderText(input);
  }

  /** The div's content renders as its one paragraph. */
  lemma DivContentRenders()
    ensures RenderAll(DivTree.content) == "<p>Hi</p>"
  {
    ParagraphRenders();
    var p := Node(Plain, "p", [Text("Hi")], [], []);
    assert DivTree.content[..0] == [];
    assert RenderAll(DivTree.content) == RenderAll([]) + Render(p);
  }

  lemma DivRenderText(input: string)
    requires input == "<div class=\"a\"><p>Hi</p></div>"
    ensures input == "<" + "div class=\"a\"" + ">" + "<p>Hi</p>" + "</" + "div" + ">"
  {
  }

  /**
   * The div example both ways: parse gives that one tree, and rendering
   * the tree gives the document back.
   */
  lemma DivRoundTrip(input: string)
    requires input == "<div class=\"a\"><p>Hi</p></div>"
    ensures ParseSpec(input).Ok? && |ParseSpec(input).value| == 1 && ParseSpec(input).value[0].Elem?
    ensures Render(ParseSpec(input).value[0].node) == input
  {
    DivParses(input);
    DivRendersBack(input);
  }

  /**
   * `<!n k>` with n spelling doctype in any case: a void doctype element
   * with the flag k is added to the current element.
   */
  lemma DoctypeDecl(pos: Pos, s: Stack, n: string, k: string)
    requires IsName(n) && |n| >= 2 && IsAlpha(n[0]) && Lower(n) == "doctype" && IsName(k)
    requires s.elementName == [] && s.argname == [] && s.textContent == []
    ensures From(0, pos, s, ("<!" + n) + " " + (k + ">")) ==
      Finished(0, AdvanceAll(pos, ("<!" + n) + " " + (k + ">")),
        s.(current := Append(s.current, Elem(Node(DoctypeNode, "doctype", [], [Lower(k)], [])))))
  {
    var x := "<!" + n;
    BangName(0, pos, s, n);
    assert MA.FlushText(s) == s;
    var s1 := Named(s, n);
    assert s1 == s.(elementName := n);
    var s2 := MA.OpenElement(s1);
    assert s2 == s.(element := s.element + [s.current], current := ByTag("doctype"));
    OneTo(2, AdvanceAll(pos, x), s1, ' ', 3, s2);
    Chain2(0, pos, s, x, " ", 2, s1, 3, s2);
    var p := AdvanceAll(pos, x + " ");
    FlagEnd(p, s2, k);
    var flagged := MA.RecordFlag(s2.(argname := k));
    var dt := Node(DoctypeNode, "doctype", [], [Lower(k)], []);
    assert flagged == s2.(current := dt);
    var s3 := s.(current := Append(s.current, Elem(dt)));
    assert MA.RecordFlagFinish(s2.(argname := k)) == Ok(s3);
    AdvanceAllAppend(p, k, ">");
    Chain2(0, pos, s, x + " ", k + ">", 3, s2, 0, s3);
  }

  /** The doctype of `<!DOCTYPE html>`: a void element whose one flag is html. */
  const DoctypeTree: Node := Node(DoctypeNode, "doctype", [], ["html"], [])

  /** The html element of `<html><body>x</body></html>`, before the doctype is attached. */
  const HtmlTree: Node := Node(HtmlNode(None), "html", [Elem(Node(Plain, "body", [Text("x")], [], []))], [], [])

  /** The root once the doctype is read. */
  const RootWithDoctype: Node := Node(Plain, "cellar", [Elem(DoctypeTree)], [], [])

  /** `<!DOCTYPE html><html><body>x</body></html>` split at the boundaries of the lemmas above. */
  const DocDecl: string := ("<!" + "DOCTYPE") + " " + ("html" + ">")
  const DocOpen: string := "<" + "html" + ">"
  const DocBody: string := ("<" + "body" + ">") + "x" + ("</" + "body" + ">")
  const DocClose: string := "</" + "html" + ">"

  /** "DOCTYPE" is a name that spells doctype, and "html" a lower-case name. */
  lemma DocDeclNames()
    ensures IsName("DOCTYPE") && |"DOCTYPE"| >= 2 && IsAlpha("DOCTYPE"[0]) && Lower("DOCTYPE") == "doctype"
    ensures IsName("html") && Lower("html") == "html"
  {
    var l := Lower("DOCTYPE");
    assert l[0] == 'd' && l[1] == 'o' && l[2] == 'c' && l[3] == 't' && l[4] == 'y' && l[5] == 'p' && l[6] == 'e';
    LowerOfLower("html");
  }

  lemma DocDeclares()
    ensures From(0, Start, Fresh(Root), DocDecl) ==
      Finished(0, AdvanceAll(Start, DocDecl), Fresh(Root).(current := RootWithDoctype))
  {
    DocDeclNames();
    DoctypeDecl(Start, Fresh(Root), "DOCTYPE", "html");
    assert Append(Root, Elem(DoctypeTree)) == RootWithDoctype;
  }

  lemma DocOpens(pos: Pos)
    ensures From(0, pos, Fresh(Root).(current := RootWithDoctype), DocOpen) ==
      Finished(0, AdvanceAll(pos, DocOpen), Fresh(Root).(element := [RootWithDoctype], current := HtmlTree.(content := [])))
  {
    var s := Fresh(Root).(current := RootWithDoctype);
    LowerOfLower("html");
    OpenTag(0, pos, s, "html");
    assert MA.FlushText(s) == s;
    assert s.element + [s.current] == [RootWithDoctype];
  }

  lemma DocBodyParses(pos: Pos)
    ensures From(0, pos, Fresh(Root).(element := [RootWithDoctype], current := HtmlTree.(content := [])), DocBody) ==
      Finished(0, AdvanceAll(pos, DocBody), Fresh(Root).(element := [RootWithDoctype], current := HtmlTree))
  {
    assert IsWord("x") && IsName("body") && IsLowerString("body");
    var s := Fresh(Root).(element := [RootWithDoctype], current := HtmlTree.(content := []));
    TextChild(pos, s, "body", "x");
    assert KindFor("body") == Plain;
    assert Append(HtmlTree.(content := []), Elem(Node(Plain, "body", [Text("x")], [], []))) == HtmlTree;
  }

  lemma DocCloses(pos: Pos)
    ensures From(0, pos, Fresh(Root).(element := [RootWithDoctype], current := HtmlTree), DocClose) ==
      Finished(0, AdvanceAll(pos, DocClose), Fresh(Root).(current := Append(RootWithDoctype, Elem(HtmlTree))))
  {
    var s := Fresh(Root).(element := [RootWithDoctype], current := HtmlTree);
    LowerOfLower("html");
    MatchingClose(0, pos, s, "html");
    assert MA.FlushText(s) == s;
  }

  lemma DocRun()
    ensures From(0, Start, Fresh(Root), DocDecl + DocOpen + DocBody + DocClose) ==
      Finished(0, AdvanceAll(Start, DocDecl + DocOpen + DocBody + DocClose),
        Fresh(Root).(current := Append(RootWithDoctype, Elem(HtmlTree))))
  {
    var s0 := Fresh(Root);
    var s1 := s0.(current := RootWithDoctype);
    var s2 := s0.(element := [RootWithDoctype], current := HtmlTree.(content := []));
    var s3 := s0.(element := [RootWithDoctype], current := HtmlTree);
    DocDeclares();
    DocOpens(AdvanceAll(Start, DocDecl));
    Chain2(0, Start, s0, DocDecl, DocOpen, 0, s1, 0, s2);
    DocBodyParses(AdvanceAll(Start, DocDecl + DocOpen));
    Chain2(0, Start, s0, DocDecl + DocOpen, DocBody, 0, s2, 0, s3);
    DocCloses(AdvanceAll(Start, DocDecl + DocOpen + DocBody));
    Chain2(0, Start, s0, DocDecl + DocOpen + DocBody, DocClose, 0, s3, 0,
      s0.(current := Append(RootWithDoctype, Elem(HtmlTree))));
  }

  lemma DocText(input: string)
    requires input == "<!DOCTYPE html><html><body>x</body></html>"
    ensures input == DocDecl + DocOpen + DocBody + DocClose
  {
  }

  /**
   * A doctype followed by an html element is folded into it: the document
   * is one html element that carries the doctype.
   */
  lemma DoctypeParses(input: string)
    requires input == "<!DOCTYPE html><html><body>x</body></html>"
    ensures ParseSpec(input) == Ok([Elem(HtmlTree.(kind := HtmlNode(Some(DoctypeTree))))])
  {
    DocText(input);
    DocRun();
    RunIsFrom(input);
    var s := Fresh(Root).(current := Append(RootWithDoctype, Elem(HtmlTree)));
    assert RunGrammar(input).stack == s;
    var c := s.current.content;
    assert c == [Elem(DoctypeTree), Elem(HtmlTree)];
    assert c[0].node.tag == "doctype" && c[1].node.tag == "html" && c[1].node.kind.HtmlNode?;
    assert c[2..] == [];
    assert TopLevel(s) == Ok([Elem(HtmlTree.(kind := HtmlNode(Some(DoctypeTree))))] + c[2..]);
    assert [Elem(HtmlTree.(kind := HtmlNode(Some(DoctypeTree))))] + c[2..] == [Elem(HtmlTree.(kind := HtmlNode(Some(DoctypeTree))))];
  }

  /** A doctype's tag, rendered: "!" and the tag upper-cased. */
  lemma DoctypeTag()
    ensures RenderTag(DoctypeTree) == "!DOCTYPE"
  {
    var u := Upper("doctype");
    assert u[0] == 'D' && u[1] == 'O' && u[2] == 'C' && u[3] == 'T' && u[4] == 'Y' && u[5] == 'P' && u[6] == 'E';
  }

  /** The doctype's opening tag holds "!DOCTYPE" and its flag. */
  lemma DoctypeHead()
    ensures Head(DoctypeTree) == "!DOCTYPE html"
  {
    DoctypeTag();
    var parts := [RenderTag(DoctypeTree)] + DoctypeTree.params + AttrPieces(DoctypeTree.valueParams);
    assert parts == ["!DOCTYPE", "html"];
    assert parts[..1] == ["!DOCTYPE"];
    assert JoinWith(" ", parts) == JoinWith(" ", parts[..1]) + " " + parts[1];
  }

  /** The doctype renders as `<!DOCTYPE html>`: a void tag, the upper-cased tag after "!", then its flag. */
  lemma DoctypeRenders()
    ensures Render(DoctypeTree) == "<!DOCTYPE html>"
  {
    DoctypeHead();
    assert "doctype" in NonClosing;
    assert Render(DoctypeTree) == "<" + Head(DoctypeTree) + ">";
  }

  /** The body renders as its tag around its text. */
  lemma BodyRenders()
    ensures Render(Node(Plain, "body", [Text("x")], [], [])) == "<body>x</body>"
  {
    var body := Node(Plain, "body", [Text("x")], [], []);
    assert Head(body) == "body" by {
      assert [RenderTag(body)] + body.params + AttrPieces(body.valueParams) == ["body"];
    }
    assert RenderAll(body.content) == "x" by {
      assert body.content[..0] == [];
      assert RenderAll(body.content) == RenderAll([]) + "x";
    }
  }

  lemma HtmlHead()
    ensures Head(HtmlTree) == "html"
  {
    assert [RenderTag(HtmlTree)] + HtmlTree.params + AttrPieces(HtmlTree.valueParams) == ["html"];
  }

  lemma HtmlContentRenders()
    ensures RenderAll(HtmlTree.content) == "<body>x</body>"
  {
    BodyRenders();
    assert HtmlTree.content[..0] == [];
    assert RenderAll(HtmlTree.content) == RenderAll([]) + Render(Node(Plain, "body", [Text("x")], [], []));
  }

  /** The html element on its own renders as its tag around the body. */
  lemma HtmlBodyRenders()
    ensures BaseRender(HtmlTree) == "<html><body>x</body></html>"
  {
    HtmlHead();
    HtmlContentRenders();
  }

  /** Rendering the element itself does not look at the doctype it carries. */
  lemma BaseRenderIgnoresDoctype(n: Node, d: Option<Node>)
    requires n.kind.HtmlNode?
    ensures BaseRender(n.(kind := HtmlNode(d))) == BaseRender(n)
  {
    assert Head(n.(kind := HtmlNode(d))) == Head(n);
  }

  /** The html element with its doctype attached renders the doctype first, then itself. */
  lemma DoctypeRendersBack(input: string)
    requires input == "<!DOCTYPE html><html><body>x</body></html>"
    ensures Render(HtmlTree.(kind := HtmlNode(Some(DoctypeTree)))) == input
  {
    var h := HtmlTree.(kind := HtmlNode(Some(DoctypeTree)));
    assert Render(h) == Render(DoctypeTree) + BaseRender(h);
    DoctypeRenders();
    HtmlBodyRenders();
    BaseRenderIgnoresDoctype(HtmlTree, Some(DoctypeTree));
    DoctypeDocText(input);
  }

  lemma DoctypeDocText(input: string)
    requires input == "<!DOCTYPE html><html><body>x</body></html>"
    ensures input == "<!DOCTYPE html>" + "<html><body>x</body></html>"
  {
  }

  /**
   * The doctype example both ways: parse gives one html element carrying
   * the doctype, and rendering it gives the document back.
   */
  lemma DoctypeRoundTrip(input: string)
    requires input == "<!DOCTYPE html><html><body>x</body></html>"
    ensures ParseSpec(input).Ok? && |ParseSpec(input).value| == 1 && ParseSpec(input).value[0].Elem?
    ensures Render(ParseSpec(input).value[0].node) == input
  {
    DoctypeParses(input);
    DoctypeRendersBack(input);
  }
}
