/**
 * The directive grammar: the markup grammar's edge list followed by the
 * edges that read `<?dchp ... ?>` directives, the transition function the
 * combined table implements, and the parse entry point.
 *
 * States added to the markup ones: 30 after `<?`, 31 directive name,
 * 41 indentation declaration, 42 code, 44 after `?` in the code,
 * 45 inside single quotes, 46 inside double quotes, 47 indentation of a
 * continuation line, 48 after `?` where only `>` may follow.
 */
module DirectiveGrammar {
  import opened Wrappers
  import opened Strings
  import opened Guards
  import opened Elements
  import opened Errors
  import opened ParseState
  import opened Generic
  import opened Accumulator
  import MG = MarkupGrammar
  import Driver

  // The directive edges, one group per source state in source order.

  const D1: seq<Edge<Action>> := [
    Edge(30, 1, None, {'?'}, [])]
  const D30: seq<Edge<Action>> := [
    Edge(31, 30, Some(AppendDirectiveName), {}, [AlnumGuard])]
  const D31: seq<Edge<Action>> := [
    Edge(31, 31, Some(AppendDirectiveName), {}, [AlnumGuard]),
    Edge(41, 31, Some(CheckDirectiveName), {' ', '\n'}, []),
    Edge(48, 31, Some(CheckDirectiveName), {'?'}, [])]
  const D41: seq<Edge<Action>> := [
    Edge(41, 41, Some(IncrementIndent), {' '}, []),
    Edge(41, 41, Some(ResetIndent), {'\n'}, []),
    Edge(42, 41, Some(AppendCode), {}, [AnyGuard]),
    Edge(45, 41, Some(AppendCode), {'\''}, []),
    Edge(46, 41, Some(AppendCode), {'"'}, []),
    Edge(44, 41, None, {'?'}, [])]
  const D42: seq<Edge<Action>> := [
    Edge(42, 42, Some(AppendCode), {}, [AnyGuard]),
    Edge(47, 42, Some(ResetActiveIndent), {'\n'}, []),
    Edge(45, 42, Some(AppendCode), {'\''}, []),
    Edge(46, 42, Some(AppendCode), {'"'}, []),
    Edge(44, 42, None, {'?'}, [])]
  const D44: seq<Edge<Action>> := [
    Edge(0, 44, Some(Finalize), {'>'}, []),
    Edge(42, 44, Some(AppendQuestionAnd), {}, [AnyGuard]),
    Edge(45, 44, Some(AppendQuestionAnd), {'\''}, []),
    Edge(46, 44, Some(AppendQuestionAnd), {'"'}, []),
    Edge(47, 44, Some(ResetActiveIndent), {'\n'}, [])]
  const D45: seq<Edge<Action>> := [
    Edge(42, 45, Some(AppendCode), {'\''}, []),
    Edge(45, 45, Some(AppendCode), {}, [AnyGuard])]
  const D46: seq<Edge<Action>> := [
    Edge(42, 46, Some(AppendCode), {'"'}, []),
    Edge(46, 46, Some(AppendCode), {}, [AnyGuard])]
  const D47: seq<Edge<Action>> := [
    Edge(47, 47, Some(ReduceIndent), {}, [AnyGuard]),
    Edge(47, 47, Some(ResetActiveIndent), {'\n'}, []),
    Edge(48, 47, Some(AfterIndentQuestion), {'?'}, [])]
  const D48: seq<Edge<Action>> := [
    Edge(0, 48, Some(Finalize), {'>'}, [])]

  const DGroups: seq<seq<Edge<Action>>> := [D1, D30, D31, D41, D42, D44, D45, D46, D47, D48]

  const DTails: seq<int> := [1, 30, 31, 41, 42, 44, 45, 46, 47, 48]

  /** automaton_base of the directive grammar. */
  const DEdges: seq<Edge<Action>> := Flatten(DGroups)

  /** The combined edge list: the markup edges, then the directive edges. */
  const Edges: seq<Edge<Action>> := MG.Edges + DEdges

  predicate IsDirectiveState(q: int) {
    q == 30 || q == 31 || q == 41 || q == 42 || 44 <= q <= 48
  }

  predicate IsState(q: int) {
    MG.IsState(q) || IsDirectiveState(q)
  }

  const States: set<int> := MG.States + {30, 31, 41, 42, 44, 45, 46, 47, 48}

  /**
   * What the combined grammar does in state q on character c.  Only `?`
   * after `<` is new among the markup states; the rest is the directive
   * body.
   */
  function Transition(q: int, c: char): Option<(int, Option<Action>)> {
    if q == 1 && c == '?' then Some((30, None))
    else if MG.IsState(q) then MG.Transition(q, c)
    else if q == 30 then
      if IsAlnum(c) then Some((31, Some(AppendDirectiveName))) else None
    else if q == 31 then
      if c == ' ' || c == '\n' then Some((41, Some(CheckDirectiveName)))
      else if c == '?' then Some((48, Some(CheckDirectiveName)))
      else if IsAlnum(c) then Some((31, Some(AppendDirectiveName)))
      else None
    else if q == 41 then
      if c == ' ' then Some((41, Some(IncrementIndent)))
      else if c == '\n' then Some((41, Some(ResetIndent)))
      else if c == '\'' then Some((45, Some(AppendCode)))
      else if c == '"' then Some((46, Some(AppendCode)))
      else if c == '?' then Some((44, None))
      else Some((42, Some(AppendCode)))
    else if q == 42 then
      if c == '\n' then Some((47, Some(ResetActiveIndent)))
      else if c == '\'' then Some((45, Some(AppendCode)))
      else if c == '"' then Some((46, Some(AppendCode)))
      else if c == '?' then Some((44, None))
      else Some((42, Some(AppendCode)))
    else if q == 44 then
      if c == '>' then Some((0, Some(Finalize)))
      else if c == '\'' then Some((45, Some(AppendQuestionAnd)))
      else if c == '"' then Some((46, Some(AppendQuestionAnd)))
      else if c == '\n' then Some((47, Some(ResetActiveIndent)))
      else Some((42, Some(AppendQuestionAnd)))
    else if q == 45 then
      if c == '\'' then Some((42, Some(AppendCode))) else Some((45, Some(AppendCode)))
    else if q == 46 then
      if c == '"' then Some((42, Some(AppendCode))) else Some((46, Some(AppendCode)))
    else if q == 47 then
      if c == '\n' then Some((47, Some(ResetActiveIndent)))
      else if c == '?' then Some((48, Some(AfterIndentQuestion)))
      else Some((47, Some(ReduceIndent)))
    else if q == 48 then
      if c == '>' then Some((0, Some(Finalize))) else None
    else None
  }

  /** The edges leaving state q in the combined list. */
  function Group(q: int): seq<Edge<Action>>
    requires IsState(q)
  {
    if q == 1 then MG.E1 + D1
    else if MG.IsState(q) then MG.Groups[q]
    else if q == 30 then D30
    else if q == 31 then D31
    else if q == 41 then D41
    else if q == 42 then D42
    else if q == 44 then D44
    else if q == 45 then D45
    else if q == 46 then D46
    else if q == 47 then D47
    else D48
  }

  /** Each group selects, for every character, the edge the transition function names. */
  lemma {:induction false} GroupTransition(q: int, c: char)
    requires IsState(q)
    ensures Fire(MatchList(Group(q), c)) == Transition(q, c)
  {
    if q == 1 { MatchList4(MG.E1 + D1, c); }
    else if MG.IsState(q) { MG.GroupTransition(q, c); }
    else if q == 30 { MatchList1(D30, c); }
    else if q == 31 { MatchList3(D31, c); }
    else if q == 41 { MatchList6(D41, c); }
    else if q == 42 { MatchList5(D42, c); }
    else if q == 44 { MatchList5(D44, c); }
    else if q == 45 { MatchList2(D45, c); }
    else if q == 46 { MatchList2(D46, c); }
    else if q == 47 { MatchList3(D47, c); }
    else { MatchList1(D48, c); }
  }

  lemma DGroupsGrouped()
    ensures GroupedBy(DGroups, DTails)
  {
  }

  /** The directive edges leaving the k-th state of the list are its group. */
  lemma DirectiveEdgesAt(k: int, q: int)
    requires 0 <= k < |DTails| && DTails[k] == q
    ensures EdgesFrom(DEdges, q) == DGroups[k]
  {
    DGroupsGrouped();
    EdgesFromGroups(DGroups, DTails, q);
    CollectDistinct(DGroups, DTails, k);
  }

  /** Where a state sits in the directive list: state 1 first, then the directive states in order. */
  function DirectiveIndex(q: int): (k: int)
    requires q == 1 || IsDirectiveState(q)
    ensures 0 <= k < |DTails| && DTails[k] == q
  {
    if q == 1 then 0 else if q == 30 then 1 else if q == 31 then 2 else if q == 41 then 3
    else if q == 42 then 4 else q - 39
  }

  /** The group at a directive state's place in the list is its group. */
  lemma DirectiveGroupAt(q: int)
    requires IsDirectiveState(q)
    ensures DGroups[DirectiveIndex(q)] == Group(q)
  {
  }

  /** A directive state's directive edges are its group. */
  lemma DirectiveEdgesOf(q: int)
    requires IsDirectiveState(q)
    ensures EdgesFrom(DEdges, q) == Group(q)
  {
    DirectiveEdgesAt(DirectiveIndex(q), q);
    DirectiveGroupAt(q);
  }

  /** No directive edge leaves any other state. */
  lemma DirectiveEdgesNone(q: int)
    requires !IsDirectiveState(q) && q != 1
    ensures EdgesFrom(DEdges, q) == []
  {
    DGroupsGrouped();
    EdgesFromGroups(DGroups, DTails, q);
    CollectAbsent(DGroups, DTails, q);
  }

  /** The directive edges leave exactly the directive states, and state 1. */
  lemma {:induction false} DirectiveEdgesFrom(q: int)
    ensures IsDirectiveState(q) ==> EdgesFrom(DEdges, q) == Group(q)
    ensures q == 1 ==> EdgesFrom(DEdges, q) == D1
    ensures !IsDirectiveState(q) && q != 1 ==> EdgesFrom(DEdges, q) == []
  {
    if q == 1 {
      DirectiveEdgesAt(0, q);
    } else if IsDirectiveState(q) {
      DirectiveEdgesOf(q);
    } else {
      DirectiveEdgesNone(q);
    }
  }

  /** The markup edges leave exactly the markup states. */
  lemma {:induction false} MarkupEdgesFrom(q: int)
    ensures MG.IsState(q) ==> EdgesFrom(MG.Edges, q) == MG.Groups[q]
    ensures !MG.IsState(q) ==> EdgesFrom(MG.Edges, q) == []
  {
    MG.GroupsGrouped();
    EdgesFromGroups(MG.Groups, MG.GroupTails, q);
    if MG.IsState(q) {
      assert MG.GroupTails[q] == q;
      CollectDistinct(MG.Groups, MG.GroupTails, q);
    } else {
      assert forall i :: 0 <= i < |MG.GroupTails| ==> MG.GroupTails[i] != q;
      CollectAbsent(MG.Groups, MG.GroupTails, q);
    }
  }

  /** The edges of the combined list leaving state q are the group of q. */
  lemma {:induction false} CombinedEdgesFrom(q: int)
    ensures IsState(q) ==> EdgesFrom(Edges, q) == Group(q)
    ensures !IsState(q) ==> EdgesFrom(Edges, q) == []
  {
    EdgesFromAppend(MG.Edges, DEdges, q);
    MarkupEdgesFrom(q);
    DirectiveEdgesFrom(q);
    if IsDirectiveState(q) {
      assert [] + Group(q) == Group(q);
    } else if MG.IsState(q) && q != 1 {
      assert MG.Groups[q] + [] == MG.Groups[q];
    }
  }

  /** The combined table has one vertex per state, holding that state's group. */
  lemma {:induction false} TableGroups(q: int)
    ensures q in Table(Edges) <==> IsState(q)
    ensures IsState(q) ==> Table(Edges)[q] == VertexOf(Group(q))
  {
    CombinedEdgesFrom(q);
    EdgesFromEmpty(Edges, q);
    if IsState(q) {
      assert Group(q) != [];
    }
  }

  /** The table implements the transition function. */
  lemma TableImplements()
    ensures Implements(Table(Edges), States, Transition)
  {
    forall q ensures q in Table(Edges) <==> q in States {
      TableGroups(q);
    }
    forall q, c | q in Table(Edges)
      ensures Fire(Match(Table(Edges)[q], c)) == Transition(q, c)
    {
      TableGroups(q);
      MatchVertexOf(Group(q), c);
      GroupTransition(q, c);
    }
  }

  // The groups with more than one edge, one at a time.
  lemma DisjointState1() ensures Disjoint(MG.E1 + D1) { }
  lemma DisjointD31() ensures Disjoint(D31) { }
  lemma DisjointD41() ensures Disjoint(D41) { }
  lemma DisjointD42() ensures Disjoint(D42) { }
  lemma DisjointD44() ensures Disjoint(D44) { }
  lemma DisjointD45() ensures Disjoint(D45) { }
  lemma DisjointD46() ensures Disjoint(D46) { }
  lemma DisjointD47() ensures Disjoint(D47) { }

  /** No state has two edges on the same literal character, `?` after `<` included. */
  lemma {:induction false} GroupDisjoint(q: int)
    requires IsState(q)
    ensures Disjoint(Group(q))
  {
    if q == 1 { DisjointState1(); }
    else if MG.IsState(q) { MG.GroupDisjoint(q); }
    else if q == 31 { DisjointD31(); }
    else if q == 41 { DisjointD41(); }
    else if q == 42 { DisjointD42(); }
    else if q == 44 { DisjointD44(); }
    else if q == 45 { DisjointD45(); }
    else if q == 46 { DisjointD46(); }
    else if q == 47 { DisjointD47(); }
  }

  /** Building the automaton from the combined list succeeds. */
  lemma BuildsOk()
    ensures BuildOk(Edges)
  {
    forall t | t in Tails(Edges) ensures Disjoint(EdgesFrom(Edges, t)) {
      CombinedEdgesFrom(t);
      EdgesFromEmpty(Edges, t);
      GroupDisjoint(t);
    }
  }

  /** automaton: the table built once from the combined edge list. */
  method BuildAutomaton() returns (r: Result<Automaton<Action>, BuildError>)
    ensures r == Ok(Table(Edges))
  {
    BuildsOk();
    r := AutomatonFromList(Edges);
  }

  /** A run of the grammar from state 0 with a fresh stack over the root. */
  function RunGrammar(input: string): Run<Stack> {
    RunBy(States, Transition, Step, 0, Start, Fresh(MG.Root), input)
  }

  /** parse, stated over the transition function: the same root and doctype rules as the markup parse. */
  function ParseSpec(input: string): Result<seq<Child>, ParseError> {
    var run := RunGrammar(input);
    if run.Failed? then Err(run.error) else MG.TopLevel(run.stack)
  }

  /** The engine's driver over the built table computes the grammar run. */
  lemma DriverRunsGrammar(input: string)
    ensures var o := Driver.Outcome(Table(Edges), Fresh(MG.Root), input);
      (o.Ok? <==> RunGrammar(input).Finished?) &&
      (o.Ok? ==> o.value == RunGrammar(input).stack) &&
      (o.Err? ==> o.error == RunGrammar(input).error)
  {
    TableImplements();
    TableGroups(0);
    RunByAgrees(Table(Edges), States, Transition, Step, 0, Start, Fresh(MG.Root), input);
  }

  /**
   * parse: runs the deterministic driver over a stack whose current node
   * is the root, then applies the root and doctype rules.
   */
  method Parse(input: string) returns (r: Result<seq<Child>, ParseError>)
    ensures r == ParseSpec(input)
  {
    var built := BuildAutomaton();
    var stack := new ParserStack(MG.Root);
    var res := Driver.Parse(built.value, stack, input, Driver.Deterministic);
    DriverRunsGrammar(input);
    if res.Err? {
      return Err(res.error);
    }
    r := MG.TopLevel(stack.Value());
  }
}
