/**
 * The markup grammar: its edge table, the transition function the table
 * implements, the parse entry point with the root and doctype rules, and
 * what the grammar does to text, tags, attributes and comments.
 *
 * States: 0 text, 8 text after whitespace, 1 after `<`, 2 tag name,
 * 3 inside a tag, 4 attribute name, 5 after `=`, 6 attribute value,
 * 7 after the closing quote, 9 after `/` in a tag, 10 after `</`,
 * 11 closing tag name, 12 after `<!`, 13 after `<!-`, 14 comment body,
 * 15 after `-` in a comment, 16 after `--`.
 */
module MarkupGrammar {
  import opened Wrappers
  import opened Strings
  import opened Guards
  import opened Elements
  import opened Errors
  import opened ParseState
  import opened Generic
  import opened Accumulator
  import MA = MarkupActions
  import Driver

  // The edge list, written as one group per source state in source order.

  const E0: seq<Edge<Action>> := [
    Edge(1, 0, Some(FlushText), {'<'}, []),
    Edge(0, 0, Some(AppendText), {}, [ConformGuard]),
    Edge(8, 0, Some(AppendConst(" ")), {' ', '\n'}, [])]
  const E1: seq<Edge<Action>> := [
    Edge(2, 1, Some(AppendName), {}, [AlnumGuard]),
    Edge(10, 1, None, {'/'}, []),
    Edge(12, 1, None, {'!'}, [])]
  const E2: seq<Edge<Action>> := [
    Edge(2, 2, Some(AppendName), {}, [AlnumGuard]),
    Edge(0, 2, Some(OpenElementFinish), {'>'}, []),
    Edge(3, 2, Some(OpenElement), {' '}, [])]
  const E3: seq<Edge<Action>> := [
    Edge(0, 3, Some(FinishIfNonClosing), {'>'}, []),
    Edge(4, 3, Some(AppendArgName), {}, [AlnumGuard]),
    Edge(9, 3, None, {'/'}, [])]
  const E4: seq<Edge<Action>> := [
    Edge(3, 4, Some(RecordFlag), {' '}, []),
    Edge(4, 4, Some(AppendArgName), {}, [AlnumGuard]),
    Edge(5, 4, None, {'='}, []),
    Edge(0, 4, Some(RecordFlagFinish), {'>'}, [])]
  const E5: seq<Edge<Action>> := [
    Edge(6, 5, None, {'"'}, [])]
  const E6: seq<Edge<Action>> := [
    Edge(6, 6, Some(AppendValueChar), {}, [NotQuoteGuard]),
    Edge(7, 6, Some(RecordValue), {'"'}, [])]
  const E7: seq<Edge<Action>> := [
    Edge(0, 7, Some(FinishIfNonClosing), {'>'}, []),
    Edge(3, 7, None, {' '}, [])]
  const E8: seq<Edge<Action>> := [
    Edge(8, 8, None, {'\n', ' '}, []),
    Edge(0, 8, Some(AppendText), {}, [ConformGuard]),
    Edge(1, 8, Some(FlushText), {'<'}, [])]
  const E9: seq<Edge<Action>> := [
    Edge(0, 9, Some(FinishElement), {'>'}, [])]
  const E10: seq<Edge<Action>> := [
    Edge(11, 10, Some(AppendName), {}, [AlnumGuard])]
  const E11: seq<Edge<Action>> := [
    Edge(0, 11, Some(CloseElement), {'>'}, []),
    Edge(11, 11, Some(AppendName), {}, [AlnumGuard])]
  const E12: seq<Edge<Action>> := [
    Edge(13, 12, None, {'-'}, []),
    Edge(1, 12, Some(AppendName), {}, [AlphaGuard])]
  const E13: seq<Edge<Action>> := [
    Edge(14, 13, Some(AppendConst("<!--")), {'-'}, [])]
  const E14: seq<Edge<Action>> := [
    Edge(14, 14, Some(AppendText), {}, [AnyGuard]),
    Edge(15, 14, None, {'-'}, [])]
  const E15: seq<Edge<Action>> := [
    Edge(16, 15, None, {'-'}, []),
    Edge(14, 15, Some(AppendDashed("-")), {}, [AnyGuard])]
  const E16: seq<Edge<Action>> := [
    Edge(0, 16, Some(AppendConst("-->")), {'>'}, []),
    Edge(14, 16, Some(AppendDashed("--")), {}, [AnyGuard])]

  const Groups: seq<seq<Edge<Action>>> :=
    [E0, E1, E2, E3, E4, E5, E6, E7, E8, E9, E10, E11, E12, E13, E14, E15, E16]

  /** The source state of each group: group q leaves state q. */
  const GroupTails: seq<int> := [0, 1, 2, 3, 4, 5, 6, 7, 8, 9, 10, 11, 12, 13, 14, 15, 16]

  /** automaton_base */
  const Edges: seq<Edge<Action>> := Flatten(Groups)

  predicate IsState(q: int) {
    0 <= q <= 16
  }

  const States: set<int> := set q | 0 <= q <= 16

  /**
   * What the grammar does in state q on character c: the next state and
   * the action, or None when no edge accepts c.
   */
  function Transition(q: int, c: char): Option<(int, Option<Action>)> {
    if q == 0 || q == 8 then
      if c == '<' then Some((1, Some(FlushText)))
      else if c == ' ' || c == '\n' then Some((8, if q == 0 then Some(AppendConst(" ")) else None))
      else if HtmlConform(c) then Some((0, Some(AppendText)))
      else None
    else if q == 1 then
      if c == '/' then Some((10, None))
      else if c == '!' then Some((12, None))
      else if IsAlnum(c) then Some((2, Some(AppendName)))
      else None
    else if q == 2 then
      if c == '>' then Some((0, Some(OpenElementFinish)))
      else if c == ' ' then Some((3, Some(OpenElement)))
      else if IsAlnum(c) then Some((2, Some(AppendName)))
      else None
    else if q == 3 then
      if c == '>' then Some((0, Some(FinishIfNonClosing)))
      else if c == '/' then Some((9, None))
      else if IsAlnum(c) then Some((4, Some(AppendArgName)))
      else None
    else if q == 4 then
      if c == ' ' then Some((3, Some(RecordFlag)))
      else if c == '=' then Some((5, None))
      else if c == '>' then Some((0, Some(RecordFlagFinish)))
      else if IsAlnum(c) then Some((4, Some(AppendArgName)))
      else None
    else if q == 5 then
      if c == '"' then Some((6, None)) else None
    else if q == 6 then
      if c == '"' then Some((7, Some(RecordValue))) else Some((6, Some(AppendValueChar)))
    else if q == 7 then
      if c == '>' then Some((0, Some(FinishIfNonClosing)))
      else if c == ' ' then Some((3, None))
      else None
    else if q == 9 then
      if c == '>' then Some((0, Some(FinishElement))) else None
    else if q == 10 then
      if IsAlnum(c) then Some((11, Some(AppendName))) else None
    else if q == 11 then
      if c == '>' then Some((0, Some(CloseElement)))
      else if IsAlnum(c) then Some((11, Some(AppendName)))
      else None
    else if q == 12 then
      if c == '-' then Some((13, None))
      else if IsAlpha(c) then Some((1, Some(AppendName)))
      else None
    else if q == 13 then
      if c == '-' then Some((14, Some(AppendConst("<!--")))) else None
    else if q == 14 then
      if c == '-' then Some((15, None)) else Some((14, Some(AppendText)))
    else if q == 15 then
      if c == '-' then Some((16, None)) else Some((14, Some(AppendDashed("-"))))
    else if q == 16 then
      if c == '>' then Some((0, Some(AppendConst("-->")))) else Some((14, Some(AppendDashed("--"))))
    else None
  }

  /** Each group selects, for every character, the edge the transition function names. */
  lemma {:induction false} GroupTransition(q: int, c: char)
    requires IsState(q)
    ensures Fire(MatchList(Groups[q], c)) == Transition(q, c)
  {
    if q == 0 { MatchList3(E0, c); }
    else if q == 1 { MatchList3(E1, c); }
    else if q == 2 { MatchList3(E2, c); }
    else if q == 3 { MatchList3(E3, c); }
    else if q == 4 { MatchList4(E4, c); }
    else if q == 5 { MatchList1(E5, c); }
    else if q == 6 { MatchList2(E6, c); }
    else if q == 7 { MatchList2(E7, c); }
    else if q == 8 { MatchList3(E8, c); }
    else if q == 9 { MatchList1(E9, c); }
    else if q == 10 { MatchList1(E10, c); }
    else if q == 11 { MatchList2(E11, c); }
    else if q == 12 { MatchList2(E12, c); }
    else if q == 13 { MatchList1(E13, c); }
    else if q == 14 { MatchList2(E14, c); }
    else if q == 15 { MatchList2(E15, c); }
    else { MatchList2(E16, c); }
  }

  lemma GroupsGrouped()
    ensures GroupedBy(Groups, GroupTails)
    ensures forall i :: 0 <= i < |GroupTails| ==> GroupTails[i] == i
  {
  }

  /** The table built from the edge list has one vertex per state 0..16, holding that state's group. */
  lemma {:induction false} TableGroups(q: int)
    ensures q in Table(Edges) <==> IsState(q)
    ensures IsState(q) ==> Table(Edges)[q] == VertexOf(Groups[q])
  {
    GroupsGrouped();
    TailsGroups(Groups, GroupTails);
    if IsState(q) {
      assert GroupTails[q] == q;
      EdgesFromGroups(Groups, GroupTails, q);
      CollectDistinct(Groups, GroupTails, q);
    } else {
      assert forall i :: 0 <= i < |GroupTails| ==> GroupTails[i] != q;
    }
  }

  /** The table implements the transition function over states 0..16. */
  lemma TableImplements()
    ensures Implements(Table(Edges), States, Transition)
  {
    forall q ensures q in Table(Edges) <==> q in States {
      TableGroups(q);
    }
    forall q, c | q in Table(Edges)
      ensures Fire(Match(Table(Edges)[q], c)) == Transition(q, c)
    {
      TableGroups(q);
      MatchVertexOf(Groups[q], c);
      GroupTransition(q, c);
    }
  }

  // The groups with more than one edge, one at a time.
  lemma DisjointE0() ensures Disjoint(E0) { }
  lemma DisjointE1() ensures Disjoint(E1) { }
  lemma DisjointE2() ensures Disjoint(E2) { }
  lemma DisjointE3() ensures Disjoint(E3) { }
  lemma DisjointE4() ensures Disjoint(E4) { }
  lemma DisjointE6() ensures Disjoint(E6) { }
  lemma DisjointE7() ensures Disjoint(E7) { }
  lemma DisjointE8() ensures Disjoint(E8) { }
  lemma DisjointE11() ensures Disjoint(E11) { }
  lemma DisjointE12() ensures Disjoint(E12) { }
  lemma DisjointE14() ensures Disjoint(E14) { }
  lemma DisjointE15() ensures Disjoint(E15) { }
  lemma DisjointE16() ensures Disjoint(E16) { }

  /** No state of the grammar has two edges on the same literal character. */
  lemma {:induction false} GroupDisjoint(q: int)
    requires IsState(q)
    ensures Disjoint(Groups[q])
  {
    if q == 0 { DisjointE0(); }
    else if q == 1 { DisjointE1(); }
    else if q == 2 { DisjointE2(); }
    else if q == 3 { DisjointE3(); }
    else if q == 4 { DisjointE4(); }
    else if q == 6 { DisjointE6(); }
    else if q == 7 { DisjointE7(); }
    else if q == 8 { DisjointE8(); }
    else if q == 11 { DisjointE11(); }
    else if q == 12 { DisjointE12(); }
    else if q == 14 { DisjointE14(); }
    else if q == 15 { DisjointE15(); }
    else if q == 16 { DisjointE16(); }
  }

  /** Building the automaton from the edge list succeeds. */
  lemma BuildsOk()
    ensures BuildOk(Edges)
  {
    GroupsGrouped();
    TailsGroups(Groups, GroupTails);
    forall t | t in Tails(Edges) ensures Disjoint(EdgesFrom(Edges, t)) {
      assert IsState(t) && GroupTails[t] == t;
      EdgesFromGroups(Groups, GroupTails, t);
      CollectDistinct(Groups, GroupTails, t);
      GroupDisjoint(t);
    }
  }

  /** automaton: the table built once from the edge list. */
  method BuildAutomaton() returns (r: Result<Automaton<Action>, BuildError>)
    ensures r == Ok(Table(Edges))
  {
    BuildsOk();
    r := AutomatonFromList(Edges);
  }

  /** The synthetic root every parse starts from. */
  const Root: Node := Node(Plain, "cellar", [], [], [])

  /**
   * What parse does with the accumulator once the input is consumed: the
   * root must be current again (every element closed); its children are the
   * result, unless the first is a doctype, which must be followed by an
   * html element that then carries it.  The other failures are the Python
   * errors the code raises on a document that does not fit.  The parser
   * builds every `html` element through by_tag, so it is always an
   * HtmlNode; the AttributeError for an `html` node of another kind only
   * keeps the function total over stacks the parser never builds.
   */
  function TopLevel(s: Stack): (r: Result<seq<Child>, ParseError>)
    ensures s.element != [] ==> r == Err(Unterminated)
    ensures s.element == [] && s.current.content == [] ==> r == Err(IndexError)
    ensures r.Ok? ==> s.element == [] && s.current.content != [] && s.current.content[0].Elem?
    ensures r.Ok? && s.current.content[0].node.tag != "doctype" ==> r.value == s.current.content
    ensures r.Ok? && s.current.content[0].node.tag == "doctype" ==>
      |s.current.content| >= 2 && s.current.content[1].Elem? && s.current.content[1].node.tag == "html" &&
      r.value == [Elem(s.current.content[1].node.(kind := HtmlNode(Some(s.current.content[0].node))))] + s.current.content[2..]
    ensures (s.element == [] && s.current.content != [] && s.current.content[0].Elem? &&
             s.current.content[0].node.tag != "doctype") ==> r.Ok?
  {
    if s.element != [] then Err(Unterminated)
    else
      var c := s.current.content;
      if |c| == 0 then Err(IndexError)
      else if c[0].Text? then Err(AttributeError)
      else if c[0].node.tag != "doctype" then Ok(c)
      else if |c| < 2 then Err(IndexError)
      else if c[1].Text? then Err(AttributeError)
      else if c[1].node.tag != "html" then Err(TypeError)
      else if !c[1].node.kind.HtmlNode? then Err(AttributeError)
      else Ok([Elem(c[1].node.(kind := HtmlNode(Some(c[0].node))))] + c[2..])
  }

  /** A run of the grammar from state 0 with a fresh stack over the root. */
  function RunGrammar(input: string): Run<Stack> {
    RunBy(States, Transition, Step, 0, Start, Fresh(Root), input)
  }

  /** parse, stated over the transition function. */
  function ParseSpec(input: string): Result<seq<Child>, ParseError> {
    var run := RunGrammar(input);
    if run.Failed? then Err(run.error) else TopLevel(run.stack)
  }

  /** The engine's driver over the built table computes the grammar run. */
  lemma DriverRunsGrammar(input: string)
    ensures var o := Driver.Outcome(Table(Edges), Fresh(Root), input);
      (o.Ok? <==> RunGrammar(input).Finished?) &&
      (o.Ok? ==> o.value == RunGrammar(input).stack) &&
      (o.Err? ==> o.error == RunGrammar(input).error)
  {
    TableImplements();
    TableGroups(0);
    RunByAgrees(Table(Edges), States, Transition, Step, 0, Start, Fresh(Root), input);
  }

  /**
   * parse: runs the deterministic driver over a stack whose current node
   * is the root, then applies the root and doctype rules.
   */
  method Parse(input: string) returns (r: Result<seq<Child>, ParseError>)
    ensures r == ParseSpec(input)
  {
    var built := BuildAutomaton();
    var stack := new ParserStack(Root);
    var res := Driver.Parse(built.value, stack, input, Driver.Deterministic);
    DriverRunsGrammar(input);
    if res.Err? {
      return Err(res.error);
    }
    r := TopLevel(stack.Value());
  }
}
