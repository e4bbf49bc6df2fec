/**
 * The older markup grammar, a second configuration of the same engine and
 * accumulator: text is alphanumeric only, there is no `<!` (so no comments
 * and no doctype), an attribute name cannot end the tag with `>`, and the
 * bare-attribute action names an undefined variable.  Its parse seeds the
 * ancestor list with the root and returns the root's children as they are.
 *
 * States: 0 text, 8 text after whitespace, 1 after `<`, 2 tag name,
 * 3 inside a tag, 4 attribute name, 5 after `=`, 6 attribute value,
 * 7 after the closing quote, 9 after `/` in a tag, 10 after `</`,
 * 11 closing tag name.
 */
module OldMarkupGrammar {
  import opened Wrappers
  import opened Strings
  import opened Guards
  import opened Elements
  import opened Errors
  import opened ParseState
  import opened Generic
  import opened Accumulator
  import MG = MarkupGrammar
  import Driver

  // The groups that differ from the newer grammar; the others are the same edges.

  const O0: seq<Edge<Action>> := [
    Edge(1, 0, Some(FlushText), {'<'}, []),
    Edge(0, 0, Some(AppendText), {}, [AlnumGuard]),
    Edge(8, 0, Some(AppendConst(" ")), {' ', '\n'}, [])]
  const O1: seq<Edge<Action>> := [
    Edge(2, 1, Some(AppendName), {}, [AlnumGuard]),
    Edge(10, 1, None, {'/'}, [])]
  const O4: seq<Edge<Action>> := [
    Edge(3, 4, Some(RecordFlagUndefined), {' '}, []),
    Edge(4, 4, Some(AppendArgName), {}, [AlnumGuard]),
    Edge(5, 4, None, {'='}, [])]
  const O8: seq<Edge<Action>> := [
    Edge(8, 8, None, {'\n', ' '}, []),
    Edge(0, 8, Some(AppendText), {}, [AlnumGuard]),
    Edge(1, 8, Some(FlushText), {'<'}, [])]

  const Groups: seq<seq<Edge<Action>>> :=
    [O0, O1, MG.E2, MG.E3, O4, MG.E5, MG.E6, MG.E7, O8, MG.E9, MG.E10, MG.E11]

  const GroupTails: seq<int> := [0, 1, 2, 3, 4, 5, 6, 7, 8, 9, 10, 11]

  /** automaton_base */
  const Edges: seq<Edge<Action>> := Flatten(Groups)

  predicate IsState(q: int) {
    0 <= q <= 11
  }

  const States: set<int> := set q | 0 <= q <= 11

  /** What the older grammar does in state q on character c. */
  function Transition(q: int, c: char): Option<(int, Option<Action>)> {
    if q == 0 || q == 8 then
      if c == '<' then Some((1, Some(FlushText)))
      else if c == ' ' || c == '\n' then Some((8, if q == 0 then Some(AppendConst(" ")) else None))
      else if IsAlnum(c) then Some((0, Some(AppendText)))
      else None
    else if q == 1 then
      if c == '/' then Some((10, None))
      else if IsAlnum(c) then Some((2, Some(AppendName)))
      else None
    else if q == 4 then
      if c == ' ' then Some((3, Some(RecordFlagUndefined)))
      else if c == '=' then Some((5, None))
      else if IsAlnum(c) then Some((4, Some(AppendArgName)))
      else None
    else if IsState(q) then MG.Transition(q, c)
    else None
  }

  lemma {:induction false} GroupTransition(q: int, c: char)
    requires IsState(q)
    ensures Fire(MatchList(Groups[q], c)) == Transition(q, c)
  {
    if q == 0 { MatchList3(O0, c); }
    else if q == 1 { MatchList2(O1, c); }
    else if q == 4 { MatchList3(O4, c); }
    else if q == 8 { MatchList3(O8, c); }
    else {
      assert Groups[q] == MG.Groups[q];
      MG.GroupTransition(q, c);
    }
  }

  lemma GroupsGrouped()
    ensures GroupedBy(Groups, GroupTails)
    ensures forall i :: 0 <= i < |GroupTails| ==> GroupTails[i] == i
  {
  }

  /** The table built from the edge list has one vertex per state 0..11, holding that state's group. */
  lemma {:induction false} TableGroups(q: int)
    ensures q in Table(Edges) <==> IsState(q)
    ensures IsState(q) ==> Table(Edges)[q] == VertexOf(Groups[q])
  {
    GroupsGrouped();
    TailsGroups(Groups, GroupTails);
    if IsState(q) {
      assert GroupTails[q] == q;
      EdgesFromGroups(Groups, GroupTails, q);
      CollectDistinct(Groups, GroupTails, q);
    } else {
      assert forall i :: 0 <= i < |GroupTails| ==> GroupTails[i] != q;
    }
  }

  lemma TableImplements()
    ensures Implements(Table(Edges), States, Transition)
  {
    forall q ensures q in Table(Edges) <==> q in States {
      TableGroups(q);
    }
    forall q, c | q in Table(Edges)
      ensures Fire(Match(Table(Edges)[q], c)) == Transition(q, c)
    {
      TableGroups(q);
      MatchVertexOf(Groups[q], c);
      GroupTransition(q, c);
    }
  }

  lemma DisjointO0() ensures Disjoint(O0) { }
  lemma DisjointO1() ensures Disjoint(O1) { }
  lemma DisjointO4() ensures Disjoint(O4) { }
  lemma DisjointO8() ensures Disjoint(O8) { }

  lemma {:induction false} GroupDisjoint(q: int)
    requires IsState(q)
    ensures Disjoint(Groups[q])
  {
    if q == 0 { DisjointO0(); }
    else if q == 1 { DisjointO1(); }
    else if q == 4 { DisjointO4(); }
    else if q == 8 { DisjointO8(); }
    else {
      assert Groups[q] == MG.Groups[q];
      MG.GroupDisjoint(q);
    }
  }

  lemma BuildsOk()
    ensures BuildOk(Edges)
  {
    GroupsGrouped();
    TailsGroups(Groups, GroupTails);
    forall t | t in Tails(Edges) ensures Disjoint(EdgesFrom(Edges, t)) {
      assert IsState(t) && GroupTails[t] == t;
      EdgesFromGroups(Groups, GroupTails, t);
      CollectDistinct(Groups, GroupTails, t);
      GroupDisjoint(t);
    }
  }

  /** automaton: the table built once from the edge list. */
  method BuildAutomaton() returns (r: Result<Automaton<Action>, BuildError>)
    ensures r == Ok(Table(Edges))
  {
    BuildsOk();
    r := AutomatonFromList(Edges);
  }

  /** The stack parse starts from: empty buffers, the root current and already on the ancestor list. */
  function Seeded(): (s: Stack)
    ensures s.element == [MG.Root] && s.current == MG.Root
    ensures s.elementName == [] && s.argname == [] && s.kwargValue == [] && s.textContent == []
  {
    Fresh(MG.Root).(element := [MG.Root])
  }

  /**
   * What parse does once the input is consumed.  The root is current
   * exactly while only the seeded entry is left on the ancestor list, or
   * none once the root itself was closed; its children are then the
   * result, with no doctype rule.  Otherwise an element is still open.
   * This differs from `current is cellar_bottom` once `</cellar>` has
   * re-entered the root: on `</cellar><a>` the ancestor list is empty
   * after the close, `<a>` pushes the root and leaves `a` current, so
   * Python raises SyntaxError where this gives Ok of a's (empty) content.
   */
  function TopLevel(s: Stack): (r: Result<seq<Child>, ParseError>)
    ensures r.Ok? <==> |s.element| <= 1
    ensures r.Ok? ==> r.value == s.current.content
    ensures r.Err? ==> r.error == Unterminated
  {
    if |s.element| <= 1 then Ok(s.current.content) else Err(Unterminated)
  }

  function RunGrammar(input: string): Run<Stack> {
    RunBy(States, Transition, Step, 0, Start, Seeded(), input)
  }

  /** parse, stated over the transition function. */
  function ParseSpec(input: string): Result<seq<Child>, ParseError> {
    var run := RunGrammar(input);
    if run.Failed? then Err(run.error) else TopLevel(run.stack)
  }

  lemma DriverRunsGrammar(input: string)
    ensures var o := Driver.Outcome(Table(Edges), Seeded(), input);
      (o.Ok? <==> RunGrammar(input).Finished?) &&
      (o.Ok? ==> o.value == RunGrammar(input).stack) &&
      (o.Err? ==> o.error == RunGrammar(input).error)
  {
    TableImplements();
    TableGroups(0);
    RunByAgrees(Table(Edges), States, Transition, Step, 0, Start, Seeded(), input);
  }

  /** parse: seeds the ancestor list with the root, runs the deterministic driver, applies the root rule. */
  method Parse(input: string) returns (r: Result<seq<Child>, ParseError>)
    ensures r == ParseSpec(input)
  {
    var built := BuildAutomaton();
    var stack := new ParserStack(MG.Root);
    stack.element := [MG.Root];
    assert stack.Value() == Seeded();
    var res := Driver.Parse(built.value, stack, input, Driver.Deterministic);
    DriverRunsGrammar(input);
    if res.Err? {
      return Err(res.error);
    }
    r := TopLevel(stack.Value());
  }
}
