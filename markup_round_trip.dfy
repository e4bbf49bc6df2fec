/**
 * Rendering inverts parsing for every tree of plain, attribute-free
 * elements with lower-case names whose text children are non-empty words,
 * never two in a row: parse(render(n)) is n as the one top-level element.
 */
module MarkupRoundTrip {
  import opened Wrappers
  import opened Strings
  import opened Elements
  import opened ParseState
  import opened Generic
  import MA = MarkupActions
  import opened MarkupGrammar
  import opened MarkupRuns
  import MarkupParses

  /** A plain element with a lower-case name, no flags, no value params, and shaped content. */
  predicate Shaped(n: Node)
    decreases n, 1
  {
    && n.kind == Plain && IsName(n.tag) && IsLowerString(n.tag)
    && n.tag !in NonClosing && n.tag != "html"
    && n.params == [] && n.valueParams == []
    && ContentShaped(n.content)
  }

  /** Every child is shaped, and a text child never follows another. */
  predicate ContentShaped(cs: seq<Child>)
    decreases cs
  {
    cs == [] ||
      var pre, last := cs[..|cs| - 1], cs[|cs| - 1];
      && ContentShaped(pre)
      && ChildShaped(last)
      && (last.Text? ==> pre == [] || pre[|pre| - 1].Elem?)
  }

  predicate ChildShaped(c: Child)
    decreases c
  {
    match c
    case Text(w) => |w| > 0 && IsWord(w)
    case Elem(m) => Shaped(m)
  }

  /**
   * The accumulator once the content cs has been read into the element
   * current in s: every child but a last text child is in its content, and
   * a last text child is still pending in the text buffer.
   */
  function AfterContent(s: Stack, cs: seq<Child>): Stack {
    if cs != [] && cs[|cs| - 1].Text? then
      s.(current := s.current.(content := s.current.content + cs[..|cs| - 1]), textContent := Singletons(cs[|cs| - 1].text))
    else s.(current := s.current.(content := s.current.content + cs))
  }

  /** Flushing what is pending after shaped content leaves all of it in the element. */
  lemma FlushAfterContent(s: Stack, cs: seq<Child>)
    requires s.textContent == [] && ContentShaped(cs)
    ensures MA.FlushText(AfterContent(s, cs)) == s.(current := s.current.(content := s.current.content + cs))
  {
    if cs != [] && cs[|cs| - 1].Text? {
      var w := cs[|cs| - 1].text;
      MarkupParses.WordNotBlank(w);
      ConcatSingletons(w);
      assert cs[..|cs| - 1] + [Text(w)] == cs;
    }
  }

  /** The opening tag of an element without attributes is its name between '<' and '>'. */
  lemma ShapedRender(n: Node)
    requires Shaped(n)
    ensures n.content != [] ==> Render(n) == "<" + n.tag + ">" + RenderAll(n.content) + "</" + n.tag + ">"
    ensures n.content == [] ==> Render(n) == ("<" + n.tag + " ") + "/>"
    ensures ByTag(n.tag) == n.(content := [])
  {
    HeadBare(n);
  }

  /** The accumulator once the shaped element n has been opened over the flushed accumulator f. */
  function Opened(f: Stack, n: Node): Stack {
    f.(element := f.element + [f.current], current := ByTag(n.tag))
  }

  /**
   * An element read from text: whatever text was pending is flushed, and
   * the element is then the last child of the node that was current.
   */
  lemma {:induction false} NodeRun(pos: Pos, s: Stack, n: Node)
    requires Shaped(n) && s.elementName == [] && s.argname == [] && s.kwargValue == []
    ensures var f := MA.FlushText(s);
      From(0, pos, s, Render(n)) == Finished(0, AdvanceAll(pos, Render(n)), f.(current := Append(f.current, Elem(n))))
    decreases n, 2
  {
    if n.content == [] {
      EmptyNodeRun(pos, s, n);
    } else {
      FullNodeRun(pos, s, n);
    }
  }

  /** An element without content is read from `<t />`. */
  lemma EmptyNodeRun(pos: Pos, s: Stack, n: Node)
    requires Shaped(n) && n.content == [] && s.elementName == [] && s.argname == [] && s.kwargValue == []
    ensures var f := MA.FlushText(s);
      From(0, pos, s, Render(n)) == Finished(0, AdvanceAll(pos, Render(n)), f.(current := Append(f.current, Elem(n))))
  {
    var t := n.tag;
    var f := MA.FlushText(s);
    ShapedRender(n);
    LowerOfLower(t);
    var x1 := "<" + t + " ";
    OpenTagSpace(0, pos, s, t);
    var s1 := MA.OpenElement(Named(s, t));
    assert s1 == Opened(f, n);
    var p1 := AdvanceAll(pos, x1);
    SelfClose(p1, s1);
    AdvanceAllAppend(p1, "/", ">");
    assert "/" + ">" == "/>";
    var s2 := f.(current := Append(f.current, Elem(n)));
    assert MA.FinishElement(s1) == Ok(s2);
    Chain2(0, pos, s, x1, "/>", 3, s1, 0, s2);
  }

  /** An element with content is read from its opening tag, its content and its closing tag. */
  lemma {:induction false} FullNodeRun(pos: Pos, s: Stack, n: Node)
    requires Shaped(n) && n.content != [] && s.elementName == [] && s.argname == [] && s.kwargValue == []
    ensures var f := MA.FlushText(s);
      From(0, pos, s, Render(n)) == Finished(0, AdvanceAll(pos, Render(n)), f.(current := Append(f.current, Elem(n))))
    decreases n, 1
  {
    var f := MA.FlushText(s);
    var x1 := "<" + n.tag + ">";
    var rest := RenderAll(n.content) + ("</" + n.tag + ">");
    ShapedRender(n);
    assert Render(n) == x1 + rest;
    OpenShaped(pos, s, n);
    InsideRun(AdvanceAll(pos, x1), f, n);
    Chain2(0, pos, s, x1, rest, 0, Opened(f, n), 0, f.(current := Append(f.current, Elem(n))));
  }

  /** After the opening tag: the content, then the closing tag that finishes the element. */
  lemma {:induction false} InsideRun(pos: Pos, f: Stack, n: Node)
    requires Shaped(n) && BuffersEmpty(f)
    ensures From(0, pos, Opened(f, n), RenderAll(n.content) + ("</" + n.tag + ">")) ==
      Finished(0, AdvanceAll(pos, RenderAll(n.content) + ("</" + n.tag + ">")), f.(current := Append(f.current, Elem(n))))
    decreases n, 0
  {
    var s1 := Opened(f, n);
    ContentRun(pos, s1, n.content);
    CloseAfterContent(AdvanceAll(pos, RenderAll(n.content)), f, n);
    Chain2(0, pos, s1, RenderAll(n.content), "</" + n.tag + ">", 0, AfterContent(s1, n.content), 0, f.(current := Append(f.current, Elem(n))));
  }

  /** The opening tag of a shaped element opens it over the flushed accumulator. */
  lemma OpenShaped(pos: Pos, s: Stack, n: Node)
    requires Shaped(n) && s.elementName == []
    ensures From(0, pos, s, "<" + n.tag + ">") == Finished(0, AdvanceAll(pos, "<" + n.tag + ">"), Opened(MA.FlushText(s), n))
  {
    LowerOfLower(n.tag);
    OpenTag(0, pos, s, n.tag);
  }

  /** The closing tag of an element whose content has been read finishes it. */
  lemma CloseAfterContent(pos: Pos, f: Stack, n: Node)
    requires Shaped(n) && BuffersEmpty(f)
    ensures var s2 := AfterContent(Opened(f, n), n.content);
      From(0, pos, s2, "</" + n.tag + ">") == Finished(0, AdvanceAll(pos, "</" + n.tag + ">"), f.(current := Append(f.current, Elem(n))))
  {
    var t := n.tag;
    var s1 := Opened(f, n);
    var s2 := AfterContent(s1, n.content);
    ShapedRender(n);
    LowerOfLower(t);
    MatchingClose(0, pos, s2, t);
    FlushAfterContent(s1, n.content);
    var f2 := MA.FlushText(s2);
    assert ByTag(t).(content := [] + n.content) == n;
    assert f2.current == n;
    assert f2.element[..|f2.element| - 1] == f.element && f2.element[|f2.element| - 1] == f.current;
  }

  /** Shaped content read from text inside an element, starting with nothing pending. */
  lemma {:induction false} ContentRun(pos: Pos, s: Stack, cs: seq<Child>)
    requires ContentShaped(cs) && BuffersEmpty(s)
    ensures From(0, pos, s, RenderAll(cs)) == Finished(0, AdvanceAll(pos, RenderAll(cs)), AfterContent(s, cs))
    decreases cs
  {
    if cs == [] {
      assert s.current.(content := s.current.content + cs) == s.current;
    } else {
      var pre, last := cs[..|cs| - 1], cs[|cs| - 1];
      ContentRun(pos, s, pre);
      var s1 := AfterContent(s, pre);
      var p1 := AdvanceAll(pos, RenderAll(pre));
      match last
      case Text(w) =>
        assert s1 == s.(current := s.current.(content := s.current.content + pre));
        Word(0, p1, s1, w);
        assert s1.textContent + Singletons(w) == Singletons(w);
        Chain2(0, pos, s, RenderAll(pre), w, 0, s1, 0, AfterContent(s, cs));
      case Elem(m) =>
        assert m < last;
        NodeRun(p1, s1, m);
        FlushAfterContent(s, pre);
        assert s.current.content + pre + [last] == s.current.content + cs;
        Chain2(0, pos, s, RenderAll(pre), Render(m), 0, s1, 0, AfterContent(s, cs));
    }
  }

  /** Rendering a shaped element and parsing the text gives the element back as the whole document. */
  lemma RenderParses(n: Node)
    requires Shaped(n)
    ensures ParseSpec(Render(n)) == Ok([Elem(n)])
  {
    var s0 := Fresh(Root);
    NodeRun(Start, s0, n);
    assert MA.FlushText(s0) == s0;
    MarkupParses.RunIsFrom(Render(n));
    var st := s0.(current := Append(Root, Elem(n)));
    assert RunGrammar(Render(n)).stack == st;
    TopLevelOne(st, n);
  }

  /** With every element closed and one shaped element under the root, that element is the document. */
  lemma TopLevelOne(st: Stack, n: Node)
    requires Shaped(n) && st.element == [] && st.current.content == [Elem(n)]
    ensures TopLevel(st) == Ok([Elem(n)])
  {
    assert n.tag != "doctype";
  }
}
