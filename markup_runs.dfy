/**
 * What the markup grammar does to pieces of input: names, text, whitespace,
 * opening and closing tags, attributes and comments, each stated as the
 * run of the grammar over that piece from the state it starts in.  The
 * last lemmas put the pieces together into whole parses.
 */
module MarkupRuns {
  import opened Wrappers
  import opened Strings
  import opened Guards
  import opened Elements
  import opened Errors
  import opened ParseState
  import opened Generic
  import opened Accumulator
  import MA = MarkupActions
  import opened MarkupGrammar

  /** A run of the markup grammar from state q at position pos. */
  function From(q: int, pos: Pos, s: Stack, input: string): Run<Stack> {
    RunBy(States, Transition, Step, q, pos, s, input)
  }

  /** The two states that read text. */
  predicate TextState(q: int) {
    q == 0 || q == 8
  }

  /** A tag or attribute name: one or more alphanumerics. */
  predicate IsName(n: string) {
    |n| > 0 && forall i :: 0 <= i < |n| ==> IsAlnum(n[i])
  }

  /** Characters of text the grammar accepts outside whitespace. */
  predicate IsWord(t: string) {
    forall i :: 0 <= i < |t| ==> HtmlConform(t[i])
  }

  predicate IsWhitespace(w: string) {
    forall i :: 0 <= i < |w| ==> w[i] == ' ' || w[i] == '\n'
  }

  /** An attribute value: anything but a double quote. */
  predicate IsQuotable(v: string) {
    forall i :: 0 <= i < |v| ==> v[i] != '"'
  }

  predicate NoDash(b: string) {
    forall i :: 0 <= i < |b| ==> b[i] != '-'
  }

  /** Each character as a piece of its own. */
  function Singletons(t: string): (r: seq<string>)
    ensures |r| == |t|
  {
    if t == [] then [] else [[t[0]]] + Singletons(t[1..])
  }

  lemma {:induction false} ConcatSingletons(t: string)
    ensures Concat(Singletons(t)) == t
    decreases |t|
  {
    if t != [] {
      ConcatSingletons(t[1..]);
      ConcatAppend([[t[0]]], Singletons(t[1..]));
      assert t == [t[0]] + t[1..];
    }
  }

  // Composition.

  lemma Then(q: int, pos: Pos, s: Stack, x: string, y: string)
    requires From(q, pos, s, x).Finished?
    ensures From(q, pos, s, x + y) == From(From(q, pos, s, x).state, From(q, pos, s, x).pos, From(q, pos, s, x).stack, y)
  {
    RunByAppend(States, Transition, Step, q, pos, s, x, y);
  }

  lemma ThenFailed(q: int, pos: Pos, s: Stack, x: string, y: string)
    requires From(q, pos, s, x).Failed?
    ensures From(q, pos, s, x + y) == From(q, pos, s, x)
  {
    RunByAppend(States, Transition, Step, q, pos, s, x, y);
  }

  /** Two pieces in a row, the first ending where the second starts. */
  lemma Chain(q: int, pos: Pos, s: Stack, x: string, y: string, q1: int, s1: Stack, r: Run<Stack>)
    requires From(q, pos, s, x) == Finished(q1, AdvanceAll(pos, x), s1)
    requires From(q1, AdvanceAll(pos, x), s1, y) == r
    ensures From(q, pos, s, x + y) == r
  {
    Then(q, pos, s, x, y);
  }

  /** Two pieces in a row that both finish. */
  lemma Chain2(q: int, pos: Pos, s: Stack, x: string, y: string, q1: int, s1: Stack, q2: int, s2: Stack)
    requires From(q, pos, s, x) == Finished(q1, AdvanceAll(pos, x), s1)
    requires From(q1, AdvanceAll(pos, x), s1, y) == Finished(q2, AdvanceAll(AdvanceAll(pos, x), y), s2)
    ensures From(q, pos, s, x + y) == Finished(q2, AdvanceAll(pos, x + y), s2)
  {
    Then(q, pos, s, x, y);
    AdvanceAllAppend(pos, x, y);
  }

  /** One character on its own: the transition, the action, the next state. */
  lemma One(q: int, pos: Pos, s: Stack, c: char)
    ensures From(q, pos, s, [c]) ==
      var t := Transition(q, c);
      if t.None? then Failed(SyntaxAt(pos.line, pos.col, NoMatchingEdge(c)))
      else
        var out := if t.value.1.None? then Continue(s, None) else Step(t.value.1.value, c, s);
        if out.Raise? then Failed(FromAction(out.error, pos.line, pos.col))
        else
          var next := if out.next.Some? then out.next.value else t.value.0;
          if next !in States then Failed(UnknownState(t.value.0))
          else Finished(next, Advance(pos, c), out.stack)
  {
    assert [c][0] == c && [c][1..] == [];
    var t := Transition(q, c);
    if t.Some? {
      var out := if t.value.1.None? then Continue(s, None) else Step(t.value.1.value, c, s);
      if out.Continue? {
        var next := if out.next.Some? then out.next.value else t.value.0;
        assert From(next, Advance(pos, c), out.stack, []) == Finished(next, Advance(pos, c), out.stack);
      }
    }
  }

  /** One character that moves to state q1 with accumulator s1. */
  lemma OneTo(q: int, pos: Pos, s: Stack, c: char, q1: int, s1: Stack)
    requires Transition(q, c).Some? && Transition(q, c).value.0 == q1 && IsState(q1)
    requires Transition(q, c).value.1.None? ==> s1 == s
    requires Transition(q, c).value.1.Some? ==> Step(Transition(q, c).value.1.value, c, s) == Continue(s1, None)
    ensures From(q, pos, s, [c]) == Finished(q1, AdvanceAll(pos, [c]), s1)
  {
    One(q, pos, s, c);
    assert [c][1..] == [];
  }

  /** One character, then the rest. */
  lemma OneThen(q: int, pos: Pos, s: Stack, c: char, rest: string, q1: int, s1: Stack, r: Run<Stack>)
    requires From(q, pos, s, [c]) == Finished(q1, Advance(pos, c), s1)
    requires From(q1, Advance(pos, c), s1, rest) == r
    ensures From(q, pos, s, [c] + rest) == r
  {
    Then(q, pos, s, [c], rest);
  }

  // Names.

  /** Inside a tag name (state 2) or a closing tag name (state 11) each alphanumeric is appended to the name buffer. */
  lemma {:induction false} NameRest(q: int, pos: Pos, s: Stack, n: string)
    requires q == 2 || q == 11
    requires forall i :: 0 <= i < |n| ==> IsAlnum(n[i])
    ensures From(q, pos, s, n) == Finished(q, AdvanceAll(pos, n), s.(elementName := s.elementName + n))
    decreases |n|
  {
    if n == [] {
      assert s.elementName + n == s.elementName;
    } else {
      var c := n[0];
      NameRest(q, Advance(pos, c), MA.PushName(s, c), n[1..]);
      assert s.elementName + n == (s.elementName + [c]) + n[1..];
    }
  }

  /** After `<` (state 1) a name leads to state 2 with the name in the buffer. */
  lemma TagName(pos: Pos, s: Stack, n: string)
    requires IsName(n)
    ensures From(1, pos, s, n) == Finished(2, AdvanceAll(pos, n), s.(elementName := s.elementName + n))
  {
    var c := n[0];
    NameRest(2, Advance(pos, c), MA.PushName(s, c), n[1..]);
    assert s.elementName + n == (s.elementName + [c]) + n[1..];
  }

  /** After `</` (state 10) a name leads to state 11 with the name in the buffer. */
  lemma ClosingName(pos: Pos, s: Stack, n: string)
    requires IsName(n)
    ensures From(10, pos, s, n) == Finished(11, AdvanceAll(pos, n), s.(elementName := s.elementName + n))
  {
    var c := n[0];
    NameRest(11, Advance(pos, c), MA.PushName(s, c), n[1..]);
    assert s.elementName + n == (s.elementName + [c]) + n[1..];
  }

  // Text.

  /** An accepted text character is appended as it is and leads to state 0. */
  lemma WordChar(q: int, c: char)
    requires TextState(q) && HtmlConform(c)
    ensures Transition(q, c) == Some((0, Some(AppendText)))
  {
    assert c != '<' && c != ' ' && c != '\n';
  }

  /** Each accepted text character becomes a piece of its own in the text buffer, ending in state 0. */
  lemma {:induction false} Word(q: int, pos: Pos, s: Stack, t: string)
    requires TextState(q) && |t| > 0 && IsWord(t)
    ensures From(q, pos, s, t) == Finished(0, AdvanceAll(pos, t), s.(textContent := s.textContent + Singletons(t)))
    decreases |t|
  {
    var c := t[0];
    var rest := t[1..];
    var p1 := Advance(pos, c);
    var s' := MA.PushText(s, [c]);
    var goal := s.(textContent := s.textContent + Singletons(t));
    WordChar(q, c);
    OneTo(q, pos, s, c, 0, s');
    assert AdvanceAll(pos, [c]) == p1;
    assert t == [c] + rest;
    assert AdvanceAll(pos, t) == AdvanceAll(p1, rest);
    assert Singletons(t) == [[c]] + Singletons(rest);
    assert s.textContent + Singletons(t) == s'.textContent + Singletons(rest);
    if rest == [] {
      assert s'.textContent == s.textContent + Singletons(t);
      assert s' == goal;
      assert From(0, p1, s', rest) == Finished(0, AdvanceAll(pos, t), goal);
    } else {
      Word(0, p1, s', rest);
      assert s'.(textContent := s'.textContent + Singletons(rest)) == goal;
      assert From(0, p1, s', rest) == Finished(0, AdvanceAll(pos, t), goal);
    }
    OneThen(q, pos, s, c, rest, 0, s', Finished(0, AdvanceAll(pos, t), goal));
  }

  /**
   * A run of spaces and newlines in text is one space piece in the buffer
   * when it starts in state 0, and nothing at all when it continues one
   * (state 8); either way it ends in state 8.
   */
  lemma {:induction false} Whitespace(q: int, pos: Pos, s: Stack, w: string)
    requires TextState(q) && |w| > 0 && IsWhitespace(w)
    ensures From(q, pos, s, w) == Finished(8, AdvanceAll(pos, w), if q == 0 then MA.PushText(s, " ") else s)
    decreases |w|
  {
    var c := w[0];
    var s' := if q == 0 then MA.PushText(s, " ") else s;
    assert Transition(q, c) == Some((8, if q == 0 then Some(AppendConst(" ")) else None));
    OneTo(q, pos, s, c, 8, s');
    assert w == [c] + w[1..];
    if |w| == 1 {
      assert w[1..] == [];
      assert From(8, Advance(pos, c), s', w[1..]) == Finished(8, Advance(pos, c), s');
      OneThen(q, pos, s, c, w[1..], 8, s', Finished(8, Advance(pos, c), s'));
    } else {
      Whitespace(8, Advance(pos, c), s', w[1..]);
      OneThen(q, pos, s, c, w[1..], 8, s', From(8, Advance(pos, c), s', w[1..]));
    }
  }

  /** A character text cannot hold is a syntax error at its own position. */
  lemma RejectsInText(q: int, pos: Pos, s: Stack, c: char, rest: string)
    requires TextState(q) && !HtmlConform(c) && c != '<' && c != ' ' && c != '\n'
    ensures From(q, pos, s, [c] + rest) == Failed(SyntaxAt(pos.line, pos.col, NoMatchingEdge(c)))
  {
    One(q, pos, s, c);
    ThenFailed(q, pos, s, [c], rest);
  }

  // Tags.

  /** The accumulator once `<` flushed the pending text and the tag name n is read. */
  function Named(s: Stack, n: string): Stack {
    MA.FlushText(s).(elementName := s.elementName + n)
  }

  lemma LtName(q: int, pos: Pos, s: Stack, n: string)
    requires TextState(q) && IsName(n)
    ensures From(q, pos, s, "<" + n) == Finished(2, AdvanceAll(pos, "<" + n), Named(s, n))
  {
    One(q, pos, s, '<');
    Then(q, pos, s, "<", n);
    TagName(Advance(pos, '<'), MA.FlushText(s), n);
    AdvanceAllAppend(pos, "<", n);
  }

  /**
   * `<!n` in text, n a letter followed by at least one more alphanumeric:
   * after `<!` the letter goes to the name buffer and the grammar is back
   * after `<` (state 1), so the rest reads as an ordinary tag name.
   */
  lemma BangName(q: int, pos: Pos, s: Stack, n: string)
    requires TextState(q) && IsName(n) && |n| >= 2 && IsAlpha(n[0])
    ensures From(q, pos, s, "<!" + n) == Finished(2, AdvanceAll(pos, "<!" + n), Named(s, n))
  {
    var f := MA.FlushText(s);
    One(q, pos, s, '<');
    OneTo(1, Advance(pos, '<'), f, '!', 12, f);
    Chain2(q, pos, s, "<", "!", 1, f, 12, f);
    assert "<" + "!" == "<!";
    var p2 := AdvanceAll(pos, "<!");
    var c := n[0];
    OneTo(12, p2, f, c, 1, MA.PushName(f, c));
    Chain2(q, pos, s, "<!", [c], 12, f, 1, MA.PushName(f, c));
    var rest := n[1..];
    TagName(AdvanceAll(pos, "<!" + [c]), MA.PushName(f, c), rest);
    assert MA.PushName(f, c).(elementName := MA.PushName(f, c).elementName + rest) == Named(s, n) by {
      assert s.elementName + n == (s.elementName + [c]) + rest;
    }
    Chain2(q, pos, s, "<!" + [c], rest, 1, MA.PushName(f, c), 2, Named(s, n));
    assert "<!" + n == ("<!" + [c]) + rest;
  }

  /**
   * `<n>` in text: the pending text is flushed, then the element is opened;
   * a non-closing element is finished at once, so it is a child of the
   * node that was current and no closing tag is expected.
   */
  lemma OpenTag(q: int, pos: Pos, s: Stack, n: string)
    requires TextState(q) && IsName(n) && s.elementName == []
    ensures var f := MA.FlushText(s);
      Lower(n) !in NonClosing ==>
        From(q, pos, s, "<" + n + ">") ==
          Finished(0, AdvanceAll(pos, "<" + n + ">"), f.(element := f.element + [f.current], current := ByTag(Lower(n))))
    ensures var f := MA.FlushText(s);
      Lower(n) in NonClosing ==>
        From(q, pos, s, "<" + n + ">") ==
          Finished(0, AdvanceAll(pos, "<" + n + ">"), f.(current := Append(f.current, Elem(ByTag(Lower(n))))))
  {
    var s2 := Named(s, n);
    LtName(q, pos, s, n);
    Then(q, pos, s, "<" + n, ">");
    One(2, AdvanceAll(pos, "<" + n), s2, '>');
    AdvanceAllAppend(pos, "<" + n, ">");
    assert s2.elementName == n;
  }

  /** `<n ` in text: the element is opened and the grammar reads attributes (state 3). */
  lemma OpenTagSpace(q: int, pos: Pos, s: Stack, n: string)
    requires TextState(q) && IsName(n) && s.elementName == []
    ensures From(q, pos, s, "<" + n + " ") == Finished(3, AdvanceAll(pos, "<" + n + " "), MA.OpenElement(Named(s, n)))
  {
    LtName(q, pos, s, n);
    Then(q, pos, s, "<" + n, " ");
    One(2, AdvanceAll(pos, "<" + n), Named(s, n), ' ');
    AdvanceAllAppend(pos, "<" + n, " ");
  }

  /**
   * `</n>` in text: the pending text is flushed, the name read, and the
   * closing tag checked against the current element at the position of `>`.
   */
  lemma CloseTag(q: int, pos: Pos, s: Stack, n: string)
    requires TextState(q) && IsName(n)
    ensures var r := MA.CloseElement(Named(s, n));
      var p := AdvanceAll(pos, "</" + n);
      From(q, pos, s, "</" + n + ">") ==
        if r.Ok? then Finished(0, Advance(p, '>'), r.value) else Failed(FromAction(r.error, p.line, p.col))
  {
    var f := MA.FlushText(s);
    One(q, pos, s, '<');
    Then(q, pos, s, "<", "/");
    One(1, Advance(pos, '<'), f, '/');
    assert "<" + "/" == "</";
    AdvanceAllAppend(pos, "<", "/");
    Then(q, pos, s, "</", n);
    ClosingName(AdvanceAll(pos, "</"), f, n);
    AdvanceAllAppend(pos, "</", n);
    Then(q, pos, s, "</" + n, ">");
    One(11, AdvanceAll(pos, "</" + n), Named(s, n), '>');
  }

  /** A closing tag that does not name the current element is a syntax error naming both tags. */
  lemma MismatchedClose(q: int, pos: Pos, s: Stack, n: string)
    requires TextState(q) && IsName(n) && s.elementName == []
    requires s.current.tag != Lower(n)
    ensures var p := AdvanceAll(pos, "</" + n);
      From(q, pos, s, "</" + n + ">") == Failed(SyntaxAt(p.line, p.col, MismatchedClosingTag(s.current.tag, Lower(n))))
  {
    CloseTag(q, pos, s, n);
    assert Named(s, n).current.tag == s.current.tag;
    assert Named(s, n).elementName == n;
  }

  /** A closing tag that names the current element finishes it: it becomes the last child of its parent. */
  lemma MatchingClose(q: int, pos: Pos, s: Stack, n: string)
    requires TextState(q) && IsName(n) && s.elementName == []
    requires s.current.tag == Lower(n) && s.element != []
    ensures var f := MA.FlushText(s);
      From(q, pos, s, "</" + n + ">") ==
        Finished(0, AdvanceAll(pos, "</" + n + ">"),
          f.(element := f.element[..|f.element| - 1], current := Append(f.element[|f.element| - 1], Elem(f.current))))
  {
    CloseTag(q, pos, s, n);
    AdvanceAllAppend(pos, "</" + n, ">");
  }

  // Attributes.

  lemma {:induction false} ArgNameRest(pos: Pos, s: Stack, k: string)
    requires forall i :: 0 <= i < |k| ==> IsAlnum(k[i])
    ensures From(4, pos, s, k) == Finished(4, AdvanceAll(pos, k), s.(argname := s.argname + k))
    decreases |k|
  {
    if k == [] {
      assert s.argname + k == s.argname;
    } else {
      var c := k[0];
      ArgNameRest(Advance(pos, c), MA.PushArgName(s, c), k[1..]);
      assert s.argname + k == (s.argname + [c]) + k[1..];
    }
  }

  /** An attribute name read inside a tag (state 3) leads to state 4. */
  lemma ArgName(pos: Pos, s: Stack, k: string)
    requires IsName(k)
    ensures From(3, pos, s, k) == Finished(4, AdvanceAll(pos, k), s.(argname := s.argname + k))
  {
    var c := k[0];
    ArgNameRest(Advance(pos, c), MA.PushArgName(s, c), k[1..]);
    assert s.argname + k == (s.argname + [c]) + k[1..];
  }

  lemma {:induction false} ValueRest(pos: Pos, s: Stack, v: string)
    requires IsQuotable(v)
    ensures From(6, pos, s, v) == Finished(6, AdvanceAll(pos, v), s.(kwargValue := s.kwargValue + v))
    decreases |v|
  {
    if v == [] {
      assert s.kwargValue + v == s.kwargValue;
    } else {
      var c := v[0];
      ValueRest(Advance(pos, c), MA.PushValueChar(s, c), v[1..]);
      assert s.kwargValue + v == (s.kwargValue + [c]) + v[1..];
    }
  }

  /** A bare attribute followed by a space is recorded as a flag; the grammar stays inside the tag. */
  lemma FlagSpace(pos: Pos, s: Stack, k: string)
    requires IsName(k) && s.argname == []
    ensures From(3, pos, s, k + " ") == Finished(3, AdvanceAll(pos, k + " "), MA.RecordFlag(s.(argname := k)))
  {
    ArgName(pos, s, k);
    Then(3, pos, s, k, " ");
    One(4, AdvanceAll(pos, k), s.(argname := k), ' ');
    AdvanceAllAppend(pos, k, " ");
  }

  /** A bare attribute followed by `>` is recorded, and a non-closing element is then finished. */
  lemma FlagEnd(pos: Pos, s: Stack, k: string)
    requires IsName(k) && s.argname == []
    ensures var r := MA.RecordFlagFinish(s.(argname := k));
      var p := AdvanceAll(pos, k);
      From(3, pos, s, k + ">") ==
        if r.Ok? then Finished(0, Advance(p, '>'), r.value) else Failed(FromAction(r.error, p.line, p.col))
  {
    ArgName(pos, s, k);
    Then(3, pos, s, k, ">");
    One(4, AdvanceAll(pos, k), s.(argname := k), '>');
  }

  /** `k="` inside a tag reads the name k and starts its value (state 6). */
  lemma ValueAttrOpen(pos: Pos, s: Stack, k: string)
    requires IsName(k) && s.argname == []
    ensures From(3, pos, s, k + "=\"") == Finished(6, AdvanceAll(pos, k + "=\""), s.(argname := k))
  {
    var s1 := s.(argname := k);
    ArgName(pos, s, k);
    assert s.(argname := s.argname + k) == s1;
    assert From(4, AdvanceAll(pos, k), s1, "=\"") == Finished(6, AdvanceAll(AdvanceAll(pos, k), "=\""), s1) by {
      var p := AdvanceAll(pos, k);
      OneTo(4, p, s1, '=', 5, s1);
      OneTo(5, AdvanceAll(p, "="), s1, '"', 6, s1);
      Chain2(4, p, s1, "=", "\"", 5, s1, 6, s1);
      assert "=" + "\"" == "=\"";
    }
    Chain2(3, pos, s, k, "=\"", 4, s1, 6, s1);
  }

  /** `k="v"` inside a tag records the value v under k; the grammar is then after the closing quote (state 7). */
  lemma ValueAttr(pos: Pos, s: Stack, k: string, v: string)
    requires IsName(k) && IsQuotable(v) && s.argname == [] && s.kwargValue == []
    ensures From(3, pos, s, k + "=\"" + v + "\"") ==
      Finished(7, AdvanceAll(pos, k + "=\"" + v + "\""), MA.RecordValue(s.(argname := k, kwargValue := v)))
  {
    var s1 := s.(argname := k);
    ValueAttrOpen(pos, s, k);
    var p3 := AdvanceAll(pos, k + "=\"");
    ValueRest(p3, s1, v);
    var s2 := s1.(kwargValue := v);
    assert s1.(kwargValue := s1.kwargValue + v) == s2;
    Chain2(3, pos, s, k + "=\"", v, 6, s1, 6, s2);
    var p4 := AdvanceAll(pos, k + "=\"" + v);
    OneTo(6, p4, s2, '"', 7, MA.RecordValue(s2));
    Chain2(3, pos, s, k + "=\"" + v, "\"", 6, s2, 7, MA.RecordValue(s2));
  }

  /** `/>` inside a tag finishes the element. */
  lemma SelfClose(pos: Pos, s: Stack)
    ensures var r := MA.FinishElement(s);
      var p := Advance(pos, '/');
      From(3, pos, s, "/>") ==
        if r.Ok? then Finished(0, Advance(p, '>'), r.value) else Failed(FromAction(r.error, p.line, p.col))
  {
    One(3, pos, s, '/');
    Then(3, pos, s, "/", ">");
    One(9, Advance(pos, '/'), s, '>');
  }

  // Comments.

  lemma {:induction false} CommentBody(pos: Pos, s: Stack, b: string)
    requires NoDash(b)
    ensures From(14, pos, s, b) == Finished(14, AdvanceAll(pos, b), s.(textContent := s.textContent + Singletons(b)))
    decreases |b|
  {
    if b == [] {
      assert s.textContent + Singletons(b) == s.textContent;
    } else {
      var c := b[0];
      var s' := MA.PushText(s, [c]);
      CommentBody(Advance(pos, c), s', b[1..]);
      assert Singletons(b) == [[c]] + Singletons(b[1..]);
      assert s.textContent + Singletons(b) == s'.textContent + Singletons(b[1..]);
    }
  }

  /** `<!--` in text flushes the pending text and starts the comment body (state 14) with the opening delimiter. */
  lemma CommentOpen(q: int, pos: Pos, s: Stack)
    requires TextState(q)
    ensures From(q, pos, s, "<!--") == Finished(14, AdvanceAll(pos, "<!--"), MA.PushText(MA.FlushText(s), "<!--"))
  {
    var f := MA.FlushText(s);
    OneTo(q, pos, s, '<', 1, f);
    var p1 := AdvanceAll(pos, "<");
    OneTo(1, p1, f, '!', 12, f);
    var p2 := AdvanceAll(p1, "!");
    OneTo(12, p2, f, '-', 13, f);
    var p3 := AdvanceAll(p2, "-");
    OneTo(13, p3, f, '-', 14, MA.PushText(f, "<!--"));
    Chain2(12, p2, f, "-", "-", 13, f, 14, MA.PushText(f, "<!--"));
    assert "-" + "-" == "--";
    Chain2(1, p1, f, "!", "--", 12, f, 14, MA.PushText(f, "<!--"));
    assert "!" + "--" == "!--";
    Chain2(q, pos, s, "<", "!--", 1, f, 14, MA.PushText(f, "<!--"));
    assert "<" + "!--" == "<!--";
  }

  /** `-->` in a comment body appends the closing delimiter and returns to text. */
  lemma CommentClose(pos: Pos, s: Stack)
    ensures From(14, pos, s, "-->") == Finished(0, AdvanceAll(pos, "-->"), MA.PushText(s, "-->"))
  {
    OneTo(14, pos, s, '-', 15, s);
    var p1 := AdvanceAll(pos, "-");
    OneTo(15, p1, s, '-', 16, s);
    var p2 := AdvanceAll(p1, "-");
    OneTo(16, p2, s, '>', 0, MA.PushText(s, "-->"));
    Chain2(15, p1, s, "-", ">", 16, s, 0, MA.PushText(s, "-->"));
    assert "-" + ">" == "->";
    Chain2(14, pos, s, "-", "->", 15, s, 0, MA.PushText(s, "-->"));
    assert "-" + "->" == "-->";
  }

  /**
   * A comment in text flushes the pending text and then puts the comment,
   * delimiters included, into the text buffer, character for character;
   * nothing inside it is read as markup.
   */
  lemma Comment(q: int, pos: Pos, s: Stack, b: string)
    requires TextState(q) && NoDash(b)
    ensures From(q, pos, s, "<!--" + b + "-->") ==
      Finished(0, AdvanceAll(pos, "<!--" + b + "-->"), MA.FlushText(s).(textContent := CommentPieces(b)))
  {
    var f := MA.FlushText(s);
    var body := f.(textContent := ["<!--"] + Singletons(b));
    CommentUntilClose(q, pos, s, b);
    CommentClose(AdvanceAll(pos, "<!--" + b), body);
    Chain2(q, pos, s, "<!--" + b, "-->", 14, body, 0, MA.PushText(body, "-->"));
    assert MA.PushText(body, "-->") == f.(textContent := CommentPieces(b));
  }

  /** Up to its closing delimiter, a comment puts its opening and each of its characters into the buffer. */
  lemma CommentUntilClose(q: int, pos: Pos, s: Stack, b: string)
    requires TextState(q) && NoDash(b)
    ensures From(q, pos, s, "<!--" + b) ==
      Finished(14, AdvanceAll(pos, "<!--" + b), MA.FlushText(s).(textContent := ["<!--"] + Singletons(b)))
  {
    var open := MA.PushText(MA.FlushText(s), "<!--");
    CommentOpen(q, pos, s);
    CommentBody(AdvanceAll(pos, "<!--"), open, b);
    var body := open.(textContent := open.textContent + Singletons(b));
    Chain2(q, pos, s, "<!--", b, 14, open, 14, body);
    assert body == MA.FlushText(s).(textContent := ["<!--"] + Singletons(b));
  }

  /** The text pieces a comment leaves in the buffer. */
  function CommentPieces(b: string): seq<string> {
    ["<!--"] + Singletons(b) + ["-->"]
  }

  /** Joined, the pieces are the comment exactly as written. */
  lemma CommentVerbatim(b: string)
    ensures Concat(CommentPieces(b)) == "<!--" + b + "-->"
  {
    ConcatAppend(["<!--"], Singletons(b));
    ConcatAppend(["<!--"] + Singletons(b), ["-->"]);
    ConcatSingletons(b);
  }
}
