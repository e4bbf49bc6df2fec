/**
 * The automaton runtime: edges, the vertex that dispatches a character to an
 * edge, building an automaton from a flat list of edges, and the
 * deterministic driver as a pure function over an abstract accumulator.
 *
 * A state is an integer; the automaton maps each state to the vertex of the
 * edges leaving it.  An edge fires on a literal character (from `chars`) or
 * on a character accepted by one of its guards (from `funcs`), runs its
 * optional action and moves to `head`, unless the action names another
 * state.
 */
module Generic {
  import opened Wrappers
  import opened Guards
  import opened Errors

  datatype Edge<A> = Edge(head: int, tail: int, action: Option<A>, chars: set<char>, funcs: seq<Guard>)

  /** The `chars` argument of an edge: one character, or a collection of them. */
  datatype CharsArg = OneChar(c: char) | CharSet(cs: set<char>)

  /** The `funcs` argument of an edge: one guard, or a collection of them. */
  datatype FuncsArg = OneGuard(g: Guard) | GuardList(gs: seq<Guard>)

  /** Edge construction: a single character or guard is wrapped into a collection. */
  function MakeEdge<A>(head: int, tail: int, action: Option<A>, chars: CharsArg, funcs: FuncsArg): (e: Edge<A>)
    ensures e.head == head && e.tail == tail && e.action == action
    ensures chars.OneChar? ==> e.chars == {chars.c}
    ensures chars.CharSet? ==> e.chars == chars.cs
    ensures funcs.OneGuard? ==> e.funcs == [funcs.g]
    ensures funcs.GuardList? ==> e.funcs == funcs.gs
  {
    Edge(head, tail, action,
      if chars.OneChar? then {chars.c} else chars.cs,
      if funcs.OneGuard? then [funcs.g] else funcs.gs)
  }

  /**
   * A vertex: the literal characters leaving a state, each with the one edge
   * it selects, and the guards leaving it, each with its edge.
   */
  datatype Vertex<A> = Vertex(inner: map<char, Edge<A>>, f: seq<(Guard, Edge<A>)>)

  type Automaton<A> = map<int, Vertex<A>>

  datatype BuildError = DuplicateLiteral(c: char)

  /** The guard entries an edge contributes to a vertex, in order. */
  function GuardPairs<A>(e: Edge<A>, gs: seq<Guard>): (r: seq<(Guard, Edge<A>)>)
    ensures |r| == |gs|
    ensures forall i :: 0 <= i < |gs| ==> r[i] == (gs[i], e)
  {
    if gs == [] then [] else GuardPairs(e, gs[..|gs| - 1]) + [(gs[|gs| - 1], e)]
  }

  /** The vertex after an edge has been added to it. */
  function Added<A>(v: Vertex<A>, e: Edge<A>): Vertex<A> {
    Vertex(v.inner + map c | c in e.chars :: e, v.f + GuardPairs(e, e.funcs))
  }

  /**
   * Adding an edge claims each of its literal characters for it and appends
   * its guards; a character the vertex already has is a SyntaxError.
   */
  method AddEdge<A>(v: Vertex<A>, e: Edge<A>) returns (r: Result<Vertex<A>, BuildError>)
    ensures r.Ok? <==> e.chars !! v.inner.Keys
    ensures r.Ok? ==> r.value == Added(v, e)
    ensures r.Err? ==> r.error.c in e.chars && r.error.c in v.inner
  {
    var inner := v.inner;
    var rest := e.chars;
    while rest != {}
      invariant rest <= e.chars
      invariant inner == v.inner + map c | c in e.chars - rest :: e
      invariant (e.chars - rest) !! v.inner.Keys
      decreases rest
    {
      var c :| c in rest;
      if c in inner {
        return Err(DuplicateLiteral(c));
      }
      inner := inner[c := e];
      rest := rest - {c};
    }
    assert e.chars - rest == e.chars;
    var f := v.f;
    var i := 0;
    while i < |e.funcs|
      invariant 0 <= i <= |e.funcs|
      invariant f == v.f + GuardPairs(e, e.funcs[..i])
    {
      assert e.funcs[..i + 1][..i] == e.funcs[..i];
      f := f + [(e.funcs[i], e)];
      i := i + 1;
    }
    assert e.funcs[..i] == e.funcs;
    return Ok(Vertex(inner, f));
  }

  /** The vertex built from a list of edges, added first to last. */
  function VertexOf<A>(edges: seq<Edge<A>>): Vertex<A> {
    if edges == [] then Vertex(map[], []) else Added(VertexOf(edges[..|edges| - 1]), edges[|edges| - 1])
  }

  /** All literal characters of a list of edges. */
  function Literals<A>(edges: seq<Edge<A>>): set<char> {
    if edges == [] then {} else Literals(edges[..|edges| - 1]) + edges[|edges| - 1].chars
  }

  /** No two edges of the list claim the same literal character. */
  predicate Disjoint<A>(edges: seq<Edge<A>>) {
    forall i, j :: 0 <= i < j < |edges| ==> edges[i].chars !! edges[j].chars
  }

  /** Two edges of the list both claim c. */
  predicate Clash<A>(edges: seq<Edge<A>>, c: char) {
    exists i, j :: 0 <= i < j < |edges| && c in edges[i].chars && c in edges[j].chars
  }

  lemma {:induction false} VertexOfLiterals<A>(edges: seq<Edge<A>>)
    ensures VertexOf(edges).inner.Keys == Literals(edges)
  {
    if edges != [] {
      VertexOfLiterals(edges[..|edges| - 1]);
    }
  }

  lemma {:induction false} LiteralsMeaning<A>(edges: seq<Edge<A>>, c: char)
    ensures c in Literals(edges) <==> exists i :: 0 <= i < |edges| && c in edges[i].chars
  {
    if edges != [] {
      var init := edges[..|edges| - 1];
      LiteralsMeaning(init, c);
      if c in Literals(init) {
        var i :| 0 <= i < |init| && c in init[i].chars;
        assert edges[i] == init[i];
      }
      if exists i :: 0 <= i < |edges| && c in edges[i].chars {
        var i :| 0 <= i < |edges| && c in edges[i].chars;
        if i < |init| {
          assert init[i] == edges[i];
        }
      }
    }
  }

  /** A list stays disjoint under one more edge exactly when the edge's characters are new. */
  lemma DisjointSnoc<A>(edges: seq<Edge<A>>, e: Edge<A>)
    ensures Disjoint(edges + [e]) <==> Disjoint(edges) && e.chars !! Literals(edges)
  {
    var s := edges + [e];
    if Disjoint(s) {
      forall i, j | 0 <= i < j < |edges|
        ensures edges[i].chars !! edges[j].chars
      {
        assert s[i] == edges[i] && s[j] == edges[j];
      }
      forall c | c in e.chars
        ensures c !in Literals(edges)
      {
        forall i | 0 <= i < |edges|
          ensures c !in edges[i].chars
        {
          assert s[i] == edges[i] && s[|edges|] == e;
        }
        LiteralsMeaning(edges, c);
      }
    }
    if Disjoint(edges) && e.chars !! Literals(edges) {
      forall i, j | 0 <= i < j < |s|
        ensures s[i].chars !! s[j].chars
      {
        if j == |edges| {
          forall c | c in s[i].chars
            ensures c !in e.chars
          {
            assert s[i] == edges[i];
            LiteralsMeaning(edges, c);
          }
        } else {
          assert s[i] == edges[i] && s[j] == edges[j];
        }
      }
    }
  }

  /**
   * Vertex construction: the edges are added in order; it fails exactly
   * when two of them claim the same literal character.
   */
  method MakeVertex<A>(edges: seq<Edge<A>>) returns (r: Result<Vertex<A>, BuildError>)
    ensures r.Ok? <==> Disjoint(edges)
    ensures r.Ok? ==> r.value == VertexOf(edges)
    ensures r.Err? ==> Clash(edges, r.error.c)
  {
    var v := Vertex(map[], []);
    var i := 0;
    while i < |edges|
      invariant 0 <= i <= |edges|
      invariant Disjoint(edges[..i])
      invariant v == VertexOf(edges[..i])
    {
      assert edges[..i + 1] == edges[..i] + [edges[i]];
      assert edges[..i + 1][..i] == edges[..i];
      VertexOfLiterals(edges[..i]);
      DisjointSnoc(edges[..i], edges[i]);
      var step := AddEdge(v, edges[i]);
      if step.Err? {
        assert !Disjoint(edges[..i + 1]);
        assert Clash(edges, step.error.c) by {
          var c := step.error.c;
          LiteralsMeaning(edges[..i], c);
          var j :| 0 <= j < i && c in edges[..i][j].chars;
          assert edges[j] == edges[..i][j];
        }
        return Err(step.error);
      }
      v := step.value;
      i := i + 1;
    }
    assert edges[..i] == edges;
    return Ok(v);
  }

  /** The edges leaving state t, in list order. */
  function EdgesFrom<A>(edges: seq<Edge<A>>, t: int): (r: seq<Edge<A>>)
    ensures |r| <= |edges|
  {
    if edges == [] then []
    else
      var rest := EdgesFrom(edges[..|edges| - 1], t);
      if edges[|edges| - 1].tail == t then rest + [edges[|edges| - 1]] else rest
  }

  /** The states some edge leaves. */
  function Tails<A>(edges: seq<Edge<A>>): set<int> {
    set i | 0 <= i < |edges| :: edges[i].tail
  }

  /** The automaton of a list of edges: each tail state with the vertex of its edges. */
  function Table<A>(edges: seq<Edge<A>>): Automaton<A> {
    map t | t in Tails(edges) :: VertexOf(EdgesFrom(edges, t))
  }

  /** Building succeeds when no state has two edges claiming the same literal. */
  predicate BuildOk<A>(edges: seq<Edge<A>>) {
    forall t | t in Tails(edges) :: Disjoint(EdgesFrom(edges, t))
  }

  lemma {:induction false} EdgesFromMembers<A>(edges: seq<Edge<A>>, t: int, e: Edge<A>)
    ensures e in EdgesFrom(edges, t) <==> e in edges && e.tail == t
  {
    if edges != [] {
      EdgesFromMembers(edges[..|edges| - 1], t, e);
      assert edges == edges[..|edges| - 1] + [edges[|edges| - 1]];
    }
  }

  lemma {:induction false} EdgesFromEmpty<A>(edges: seq<Edge<A>>, t: int)
    ensures EdgesFrom(edges, t) == [] <==> t !in Tails(edges)
  {
    if EdgesFrom(edges, t) != [] {
      var e := EdgesFrom(edges, t)[0];
      EdgesFromMembers(edges, t, e);
      var i :| 0 <= i < |edges| && edges[i] == e;
    }
    if t in Tails(edges) {
      var i :| 0 <= i < |edges| && edges[i].tail == t;
      EdgesFromMembers(edges, t, edges[i]);
    }
  }

  lemma EdgesFromSnoc<A>(edges: seq<Edge<A>>, e: Edge<A>, t: int)
    ensures EdgesFrom(edges + [e], t) == if e.tail == t then EdgesFrom(edges, t) + [e] else EdgesFrom(edges, t)
  {
    assert (edges + [e])[..|edges|] == edges;
  }

  lemma TailsSnoc<A>(edges: seq<Edge<A>>, e: Edge<A>)
    ensures Tails(edges + [e]) == Tails(edges) + {e.tail}
  {
    var s := edges + [e];
    forall t | t in Tails(s) ensures t in Tails(edges) + {e.tail} {
      var i :| 0 <= i < |s| && s[i].tail == t;
      if i < |edges| { assert s[i] == edges[i]; }
    }
    forall t | t in Tails(edges) ensures t in Tails(s) {
      var i :| 0 <= i < |edges| && edges[i].tail == t;
      assert s[i] == edges[i];
    }
    assert s[|edges|] == e;
  }

  /**
   * automaton_from_list: groups the edges by tail state, keeping list order
   * within a group, and builds one vertex per group.
   */
  method AutomatonFromList<A>(edges: seq<Edge<A>>) returns (r: Result<Automaton<A>, BuildError>)
    ensures r.Ok? <==> BuildOk(edges)
    ensures r.Ok? ==> r.value == Table(edges)
    ensures r.Err? ==> exists t :: t in Tails(edges) && Clash(EdgesFrom(edges, t), r.error.c)
  {
    var sorter: map<int, seq<Edge<A>>> := map[];
    var i := 0;
    while i < |edges|
      invariant 0 <= i <= |edges|
      invariant sorter.Keys == Tails(edges[..i])
      invariant forall t :: t in sorter ==> sorter[t] == EdgesFrom(edges[..i], t)
    {
      var item := edges[i];
      assert edges[..i + 1] == edges[..i] + [item];
      TailsSnoc(edges[..i], item);
      forall t ensures EdgesFrom(edges[..i + 1], t) == if item.tail == t then EdgesFrom(edges[..i], t) + [item] else EdgesFrom(edges[..i], t) {
        EdgesFromSnoc(edges[..i], item, t);
      }
      if item.tail !in sorter {
        EdgesFromEmpty(edges[..i], item.tail);
      }
      var group := if item.tail in sorter then sorter[item.tail] else [];
      sorter := sorter[item.tail := group + [item]];
      i := i + 1;
    }
    assert edges[..i] == edges;
    var aut: Automaton<A> := map[];
    var keys := sorter.Keys;
    while keys != {}
      invariant keys <= sorter.Keys
      invariant aut.Keys == sorter.Keys - keys
      invariant forall t :: t in aut ==> aut[t] == VertexOf(sorter[t])
      invariant forall t :: t in sorter.Keys - keys ==> Disjoint(sorter[t])
      decreases keys
    {
      var k :| k in keys;
      var v := MakeVertex(sorter[k]);
      if v.Err? {
        assert k in Tails(edges) && Clash(EdgesFrom(edges, k), v.error.c);
        return Err(v.error);
      }
      aut := aut[k := v.value];
      keys := keys - {k};
    }
    return Ok(aut);
  }

  /**
   * Vertex.match: the edge of the literal character if there is one,
   * otherwise the edge of the first guard accepting the character.
   */
  function Fire<A>(e: Option<Edge<A>>): Option<(int, Option<A>)> {
    if e.None? then None else Some((e.value.head, e.value.action))
  }

  function Match<A>(v: Vertex<A>, c: char): (r: Option<Edge<A>>)
    ensures c in v.inner ==> r == Some(v.inner[c])
    ensures c !in v.inner && r.Some? ==>
      exists i :: 0 <= i < |v.f| && Holds(v.f[i].0, c) && r.value == v.f[i].1 &&
        forall j :: 0 <= j < i ==> !Holds(v.f[j].0, c)
    ensures c !in v.inner && r.None? ==> forall i :: 0 <= i < |v.f| ==> !Holds(v.f[i].0, c)
  {
    if c in v.inner then Some(v.inner[c])
    else
      var i := FirstAccepting(v.f, c);
      if i < 0 then None else Some(v.f[i].1)
  }

  /** The index of the first guard accepting c, or -1. */
  function FirstAccepting<A>(f: seq<(Guard, Edge<A>)>, c: char): (r: int)
    ensures -1 <= r < |f|
    ensures r >= 0 ==> Holds(f[r].0, c) && forall j :: 0 <= j < r ==> !Holds(f[j].0, c)
    ensures r < 0 ==> forall i :: 0 <= i < |f| ==> !Holds(f[i].0, c)
  {
    if f == [] then -1
    else if Holds(f[0].0, c) then 0
    else
      var r := FirstAccepting(f[1..], c);
      if r < 0 then -1 else r + 1
  }

  /** Some guard of the list accepts c. */
  predicate AnyHolds(gs: seq<Guard>, c: char) {
    gs != [] && (Holds(gs[0], c) || (|gs| > 1 && AnyHolds(gs[1..], c)))
  }

  lemma {:induction false} AnyHoldsMeaning(gs: seq<Guard>, c: char)
    ensures AnyHolds(gs, c) <==> exists i :: 0 <= i < |gs| && Holds(gs[i], c)
  {
    if gs != [] {
      AnyHoldsMeaning(gs[1..], c);
      if exists i :: 0 <= i < |gs| && Holds(gs[i], c) {
        var i :| 0 <= i < |gs| && Holds(gs[i], c);
        if i > 0 { assert gs[1..][i - 1] == gs[i]; }
      }
    }
  }

  /**
   * Selecting an edge after one more edge has been added: its literal
   * characters take precedence, then the edge selected before, then its
   * guards.
   */
  function MatchStep<A>(prev: Option<Edge<A>>, e: Edge<A>, c: char): Option<Edge<A>> {
    if c in e.chars then Some(e)
    else if prev.Some? then prev
    else if AnyHolds(e.funcs, c) then Some(e)
    else None
  }

  /** The edge a list of edges selects for c, edge by edge. */
  function MatchList<A>(edges: seq<Edge<A>>, c: char): Option<Edge<A>> {
    if edges == [] then None else MatchStep(MatchList(edges[..|edges| - 1], c), edges[|edges| - 1], c)
  }

  lemma MatchAdded<A>(v: Vertex<A>, e: Edge<A>, c: char)
    ensures Match(Added(v, e), c) == MatchStep(Match(v, c), e, c)
  {
    var w := Added(v, e);
    AnyHoldsMeaning(e.funcs, c);
    assert w.f == v.f + GuardPairs(e, e.funcs);
    if c !in e.chars && c !in v.inner {
      var i := FirstAccepting(v.f, c);
      var j := FirstAccepting(w.f, c);
      if i >= 0 {
        assert w.f[i] == v.f[i];
        assert forall k :: 0 <= k < i ==> w.f[k] == v.f[k];
        assert j == i;
      } else if AnyHolds(e.funcs, c) {
        var k :| 0 <= k < |e.funcs| && Holds(e.funcs[k], c);
        assert w.f[|v.f| + k] == (e.funcs[k], e);
        assert w.f[j] == GuardPairs(e, e.funcs)[j - |v.f|];
      } else {
        forall k | 0 <= k < |w.f|
          ensures !Holds(w.f[k].0, c)
        {
          if k < |v.f| {
            assert w.f[k] == v.f[k];
          } else {
            assert w.f[k] == (e.funcs[k - |v.f|], e);
          }
        }
      }
    }
  }

  /** Vertex.match on a vertex built from a list is the edge-by-edge selection. */
  lemma {:induction false} MatchVertexOf<A>(edges: seq<Edge<A>>, c: char)
    ensures Match(VertexOf(edges), c) == MatchList(edges, c)
  {
    if edges != [] {
      MatchVertexOf(edges[..|edges| - 1], c);
      MatchAdded(VertexOf(edges[..|edges| - 1]), edges[|edges| - 1], c);
    }
  }

  /**
   * Python keeps a vertex's guards in a set, so their order is not fixed.
   * When at most one guard of a vertex accepts a character, every order
   * selects the same edge: the unique accepting one.
   */
  lemma MatchUniqueGuard<A>(v: Vertex<A>, c: char, k: int)
    requires c !in v.inner
    requires 0 <= k < |v.f| && Holds(v.f[k].0, c)
    requires forall i :: 0 <= i < |v.f| && i != k ==> !Holds(v.f[i].0, c)
    ensures Match(v, c) == Some(v.f[k].1)
  {
  }

  /** Line and column of the next character: lines count from 1, columns from 0. */
  datatype Pos = Pos(line: int, col: int)

  const Start := Pos(1, 0)

  function Advance(p: Pos, c: char): Pos {
    if c == '\n' then Pos(p.line + 1, 0) else Pos(p.line, p.col + 1)
  }

  function AdvanceAll(p: Pos, s: string): Pos
    decreases |s|
  {
    if s == [] then p else AdvanceAll(Advance(p, s[0]), s[1..])
  }

  function CountNewlines(s: string): (r: nat)
    ensures r <= |s|
  {
    if s == [] then 0 else CountNewlines(s[..|s| - 1]) + (if s[|s| - 1] == '\n' then 1 else 0)
  }

  /** The number of characters after the last newline of s. */
  function LastLineLength(s: string): (r: nat)
    ensures r <= |s|
  {
    if s == [] then 0 else if s[|s| - 1] == '\n' then 0 else LastLineLength(s[..|s| - 1]) + 1
  }

  lemma {:induction false} AdvanceAllSnoc(p: Pos, s: string, c: char)
    ensures AdvanceAll(p, s + [c]) == Advance(AdvanceAll(p, s), c)
    decreases |s|
  {
    if s == [] {
      assert s + [c] == [c];
    } else {
      assert (s + [c])[1..] == s[1..] + [c];
      AdvanceAllSnoc(Advance(p, s[0]), s[1..], c);
    }
  }

  /** Scanning x + y moves the position as scanning x, then y. */
  lemma {:induction false} AdvanceAllAppend(p: Pos, x: string, y: string)
    ensures AdvanceAll(p, x + y) == AdvanceAll(AdvanceAll(p, x), y)
    decreases |x|
  {
    if x == [] {
      assert x + y == y;
    } else {
      assert (x + y)[0] == x[0];
      assert (x + y)[1..] == x[1..] + y;
      AdvanceAllAppend(Advance(p, x[0]), x[1..], y);
    }
  }

  /** On a line without newlines the column moves by the length of the text. */
  lemma {:induction false} AdvanceAllFlat(p: Pos, s: string)
    requires forall i :: 0 <= i < |s| ==> s[i] != '\n'
    ensures AdvanceAll(p, s) == Pos(p.line, p.col + |s|)
    decreases |s|
  {
    if s != [] {
      AdvanceAllFlat(Advance(p, s[0]), s[1..]);
    }
  }

  /**
   * After scanning s from the start, the line is one more than the number
   * of newlines in s, and the column is the length of the last line.
   */
  lemma {:induction false} PositionAfter(s: string)
    ensures AdvanceAll(Start, s) == Pos(1 + CountNewlines(s), LastLineLength(s))
  {
    if s != [] {
      var init := s[..|s| - 1];
      PositionAfter(init);
      assert s == init + [s[|s| - 1]];
      AdvanceAllSnoc(Start, init, s[|s| - 1]);
    }
  }

  /** What an action does, reported to the driver. */
  datatype StepOutcome<S> =
    | Continue(stack: S, next: Option<int>)   // the new accumulator, and a state overriding the edge's head
    | Raise(error: ActionError)

  /** The end of a run: the state and position reached and the accumulator, or the error. */
  datatype Run<S> = Finished(state: int, pos: Pos, stack: S) | Failed(error: ParseError)

  /**
   * _parse_deterministic, from state q at position pos with accumulator s.
   * `step` runs an action on a character and an accumulator.
   */
  function RunFrom<A, S>(aut: Automaton<A>, step: (A, char, S) -> StepOutcome<S>, q: int, pos: Pos, s: S, input: string): (r: Run<S>)
    requires q in aut
    ensures r.Finished? ==> r.state in aut
    decreases |input|
  {
    if input == [] then Finished(q, pos, s)
    else
      var c := input[0];
      var e := Match(aut[q], c);
      if e.None? then Failed(SyntaxAt(pos.line, pos.col, NoMatchingEdge(c)))
      else
        var out := if e.value.action.None? then Continue(s, None) else step(e.value.action.value, c, s);
        if out.Raise? then Failed(FromAction(out.error, pos.line, pos.col))
        else
          var next := if out.next.Some? then out.next.value else e.value.head;
          if next !in aut then Failed(UnknownState(e.value.head))
          else RunFrom(aut, step, next, Advance(pos, c), out.stack, input[1..])
  }

  /** A whole run: from state 0, line 1, column 0. */
  function RunAll<A, S>(aut: Automaton<A>, step: (A, char, S) -> StepOutcome<S>, s: S, input: string): (r: Run<S>)
    ensures 0 !in aut ==> r == Failed(MissingStartState)
  {
    if 0 !in aut then Failed(MissingStartState) else RunFrom(aut, step, 0, Start, s, input)
  }

  /** Running over x + y is running over x, then over y from where x ended. */
  lemma {:induction false} RunFromAppend<A, S>(aut: Automaton<A>, step: (A, char, S) -> StepOutcome<S>, q: int, pos: Pos, s: S, x: string, y: string)
    requires q in aut
    ensures RunFrom(aut, step, q, pos, s, x + y) ==
      match RunFrom(aut, step, q, pos, s, x)
      case Finished(q', p', s') => RunFrom(aut, step, q', p', s', y)
      case Failed(err) => Failed(err)
    decreases |x|
  {
    if x == [] {
      assert x + y == y;
    } else {
      assert (x + y)[0] == x[0];
      assert (x + y)[1..] == x[1..] + y;
      var e := Match(aut[q], x[0]);
      if e.Some? {
        var out := if e.value.action.None? then Continue(s, None) else step(e.value.action.value, x[0], s);
        if out.Continue? {
          var next := if out.next.Some? then out.next.value else e.value.head;
          if next in aut {
            RunFromAppend(aut, step, next, Advance(pos, x[0]), out.stack, x[1..], y);
          }
        }
      }
    }
  }

  /** A run that finishes has moved the position over the whole input. */
  lemma {:induction false} RunFromPosition<A, S>(aut: Automaton<A>, step: (A, char, S) -> StepOutcome<S>, q: int, pos: Pos, s: S, input: string)
    requires q in aut
    ensures RunFrom(aut, step, q, pos, s, input).Finished? ==> RunFrom(aut, step, q, pos, s, input).pos == AdvanceAll(pos, input)
    decreases |input|
  {
    if input != [] {
      var e := Match(aut[q], input[0]);
      if e.Some? {
        var out := if e.value.action.None? then Continue(s, None) else step(e.value.action.value, input[0], s);
        if out.Continue? {
          var next := if out.next.Some? then out.next.value else e.value.head;
          if next in aut {
            RunFromPosition(aut, step, next, Advance(pos, input[0]), out.stack, input[1..]);
          }
        }
      }
    }
  }

  /** An edge list written as groups, each group the edges leaving one state. */
  function Flatten<A>(groups: seq<seq<Edge<A>>>): seq<Edge<A>> {
    if groups == [] then [] else Flatten(groups[..|groups| - 1]) + groups[|groups| - 1]
  }

  /** Every edge of the group leaves state t. */
  predicate Uniform<A>(group: seq<Edge<A>>, t: int) {
    forall i :: 0 <= i < |group| ==> group[i].tail == t
  }

  /** Groups whose tail states are given by `tails`, one per group. */
  predicate GroupedBy<A>(groups: seq<seq<Edge<A>>>, tails: seq<int>) {
    |groups| == |tails| &&
    forall i :: 0 <= i < |groups| ==> Uniform(groups[i], tails[i]) && groups[i] != []
  }

  /** The groups of state t, concatenated in order. */
  function Collect<A>(groups: seq<seq<Edge<A>>>, tails: seq<int>, t: int): seq<Edge<A>>
    requires |groups| == |tails|
  {
    if groups == [] then []
    else
      var n := |groups| - 1;
      Collect(groups[..n], tails[..n], t) + (if tails[n] == t then groups[n] else [])
  }

  lemma {:induction false} EdgesFromAppend<A>(a: seq<Edge<A>>, b: seq<Edge<A>>, t: int)
    ensures EdgesFrom(a + b, t) == EdgesFrom(a, t) + EdgesFrom(b, t)
    decreases |b|
  {
    if b == [] {
      assert a + b == a;
    } else {
      var init := b[..|b| - 1];
      assert a + b == (a + init) + [b[|b| - 1]];
      EdgesFromSnoc(a + init, b[|b| - 1], t);
      EdgesFromSnoc(init, b[|b| - 1], t);
      assert b == init + [b[|b| - 1]];
      EdgesFromAppend(a, init, t);
    }
  }

  lemma {:induction false} EdgesFromUniform<A>(group: seq<Edge<A>>, u: int, t: int)
    requires Uniform(group, u)
    ensures EdgesFrom(group, t) == if t == u then group else []
  {
    if group != [] {
      EdgesFromUniform(group[..|group| - 1], u, t);
      assert group == group[..|group| - 1] + [group[|group| - 1]];
    }
  }

  lemma {:induction false} TailsAppend<A>(a: seq<Edge<A>>, b: seq<Edge<A>>)
    ensures Tails(a + b) == Tails(a) + Tails(b)
  {
    var s := a + b;
    forall t | t in Tails(s) ensures t in Tails(a) + Tails(b) {
      var i :| 0 <= i < |s| && s[i].tail == t;
      if i < |a| { assert s[i] == a[i]; } else { assert s[i] == b[i - |a|]; }
    }
    forall t | t in Tails(a) ensures t in Tails(s) {
      var i :| 0 <= i < |a| && a[i].tail == t;
      assert s[i] == a[i];
    }
    forall t | t in Tails(b) ensures t in Tails(s) {
      var i :| 0 <= i < |b| && b[i].tail == t;
      assert s[|a| + i] == b[i];
    }
  }

  lemma GroupedByInit<A>(groups: seq<seq<Edge<A>>>, tails: seq<int>)
    requires GroupedBy(groups, tails) && groups != []
    ensures GroupedBy(groups[..|groups| - 1], tails[..|groups| - 1])
  {
    var n := |groups| - 1;
    forall i | 0 <= i < n ensures Uniform(groups[..n][i], tails[..n][i]) && groups[..n][i] != [] {
      assert groups[..n][i] == groups[i] && tails[..n][i] == tails[i];
    }
  }

  /** In a list written as groups by tail state, the edges leaving a state are its groups, in order. */
  lemma {:induction false} EdgesFromGroups<A>(groups: seq<seq<Edge<A>>>, tails: seq<int>, t: int)
    requires GroupedBy(groups, tails)
    ensures EdgesFrom(Flatten(groups), t) == Collect(groups, tails, t)
  {
    if groups != [] {
      var n := |groups| - 1;
      GroupedByInit(groups, tails);
      EdgesFromGroups(groups[..n], tails[..n], t);
      EdgesFromAppend(Flatten(groups[..n]), groups[n], t);
      EdgesFromUniform(groups[n], tails[n], t);
    }
  }

  /** The states a list written as groups leaves are the groups' states. */
  lemma {:induction false} TailsGroups<A>(groups: seq<seq<Edge<A>>>, tails: seq<int>)
    requires GroupedBy(groups, tails)
    ensures Tails(Flatten(groups)) == set i | 0 <= i < |tails| :: tails[i]
  {
    if groups != [] {
      var n := |groups| - 1;
      GroupedByInit(groups, tails);
      TailsGroups(groups[..n], tails[..n]);
      TailsAppend(Flatten(groups[..n]), groups[n]);
      assert Tails(groups[n]) == {tails[n]} by {
        assert groups[n][0].tail == tails[n];
      }
      var all := set i | 0 <= i < |tails| :: tails[i];
      var before := set i | 0 <= i < n :: tails[..n][i];
      assert all == before + {tails[n]} by {
        forall u | u in all ensures u in before + {tails[n]} {
          var i :| 0 <= i < |tails| && tails[i] == u;
          if i < n { assert tails[..n][i] == u; }
        }
        forall u | u in before ensures u in all {
          var i :| 0 <= i < n && tails[..n][i] == u;
          assert tails[i] == u;
        }
      }
    }
  }

  /** With no state given twice, the edges leaving the k-th group's state are that group. */
  lemma {:induction false} CollectDistinct<A>(groups: seq<seq<Edge<A>>>, tails: seq<int>, k: int)
    requires |groups| == |tails| && 0 <= k < |groups|
    requires forall i :: 0 <= i < |tails| && i != k ==> tails[i] != tails[k]
    ensures Collect(groups, tails, tails[k]) == groups[k]
  {
    var n := |groups| - 1;
    if k < n {
      CollectDistinct(groups[..n], tails[..n], k);
      assert tails[n] != tails[k];
    } else {
      CollectAbsent(groups[..n], tails[..n], tails[k]);
    }
  }

  lemma {:induction false} CollectAbsent<A>(groups: seq<seq<Edge<A>>>, tails: seq<int>, t: int)
    requires |groups| == |tails|
    requires forall i :: 0 <= i < |tails| ==> tails[i] != t
    ensures Collect(groups, tails, t) == []
  {
    if groups != [] {
      var n := |groups| - 1;
      CollectAbsent(groups[..n], tails[..n], t);
    }
  }

  /**
   * A transition function a table implements: for each of its states and
   * each character, the target state and action of the edge it selects.
   */
  ghost predicate Implements<A>(aut: Automaton<A>, states: set<int>, trans: (int, char) -> Option<(int, Option<A>)>) {
    aut.Keys == states && forall q, c :: q in aut ==> Fire(Match(aut[q], c)) == trans(q, c)
  }

  /** The driver over a transition function. */
  function RunBy<A, S>(states: set<int>, trans: (int, char) -> Option<(int, Option<A>)>,
                       step: (A, char, S) -> StepOutcome<S>, q: int, pos: Pos, s: S, input: string): Run<S>
    decreases |input|
  {
    if input == [] then Finished(q, pos, s)
    else
      var c := input[0];
      var t := trans(q, c);
      if t.None? then Failed(SyntaxAt(pos.line, pos.col, NoMatchingEdge(c)))
      else
        var out := if t.value.1.None? then Continue(s, None) else step(t.value.1.value, c, s);
        if out.Raise? then Failed(FromAction(out.error, pos.line, pos.col))
        else
          var next := if out.next.Some? then out.next.value else t.value.0;
          if next !in states then Failed(UnknownState(t.value.0))
          else RunBy(states, trans, step, next, Advance(pos, c), out.stack, input[1..])
  }

  /** The driver over a table is the driver over any transition function the table implements. */
  lemma {:induction false} RunByAgrees<A, S>(aut: Automaton<A>, states: set<int>, trans: (int, char) -> Option<(int, Option<A>)>,
                                            step: (A, char, S) -> StepOutcome<S>, q: int, pos: Pos, s: S, input: string)
    requires Implements(aut, states, trans) && q in aut
    ensures RunFrom(aut, step, q, pos, s, input) == RunBy(states, trans, step, q, pos, s, input)
    decreases |input|
  {
    if input != [] {
      var c := input[0];
      assert Fire(Match(aut[q], c)) == trans(q, c);
      var e := Match(aut[q], c);
      if e.Some? {
        var out := if e.value.action.None? then Continue(s, None) else step(e.value.action.value, c, s);
        if out.Continue? {
          var next := if out.next.Some? then out.next.value else e.value.head;
          if next in aut {
            RunByAgrees(aut, states, trans, step, next, Advance(pos, c), out.stack, input[1..]);
          }
        }
      }
    }
  }

  /** Running over x + y is running over x, then over y from where x ended. */
  lemma {:induction false} RunByAppend<A, S>(states: set<int>, trans: (int, char) -> Option<(int, Option<A>)>,
                                            step: (A, char, S) -> StepOutcome<S>, q: int, pos: Pos, s: S, x: string, y: string)
    ensures RunBy(states, trans, step, q, pos, s, x + y) ==
      match RunBy(states, trans, step, q, pos, s, x)
      case Finished(q', p', s') => RunBy(states, trans, step, q', p', s', y)
      case Failed(err) => Failed(err)
    decreases |x|
  {
    if x == [] {
      assert x + y == y;
    } else {
      assert (x + y)[0] == x[0];
      assert (x + y)[1..] == x[1..] + y;
      var t := trans(q, x[0]);
      if t.Some? {
        var out := if t.value.1.None? then Continue(s, None) else step(t.value.1.value, x[0], s);
        if out.Continue? {
          var next := if out.next.Some? then out.next.value else t.value.0;
          if next in states {
            RunByAppend(states, trans, step, next, Advance(pos, x[0]), out.stack, x[1..], y);
          }
        }
      }
    }
  }

  lemma StepKeeps<A, S>(step: (A, char, S) -> StepOutcome<S>, inv: S -> bool, a: A, c: char, s: S)
    requires forall a, c, t :: inv(t) && step(a, c, t).Continue? ==> inv(step(a, c, t).stack)
    requires inv(s) && step(a, c, s).Continue?
    ensures inv(step(a, c, s).stack)
  {
  }

  /** An accumulator property every action keeps holds at the end of every finished run. */
  lemma {:induction false} RunByPreserves<A, S>(states: set<int>, trans: (int, char) -> Option<(int, Option<A>)>,
                                               step: (A, char, S) -> StepOutcome<S>, inv: S -> bool,
                                               q: int, pos: Pos, s: S, input: string)
    requires forall a, c, t :: inv(t) && step(a, c, t).Continue? ==> inv(step(a, c, t).stack)
    requires inv(s)
    ensures RunBy(states, trans, step, q, pos, s, input).Finished? ==> inv(RunBy(states, trans, step, q, pos, s, input).stack)
    decreases |input|
  {
    if input != [] {
      var c := input[0];
      var t := trans(q, c);
      if t.Some? {
        var out := if t.value.1.None? then Continue(s, None) else step(t.value.1.value, c, s);
        if out.Continue? {
          if t.value.1.Some? {
            StepKeeps(step, inv, t.value.1.value, c, s);
          }
          var next := if out.next.Some? then out.next.value else t.value.0;
          RunByPreserves(states, trans, step, inv, next, Advance(pos, c), out.stack, input[1..]);
        }
      }
    }
  }

  // Edge-by-edge selection over short groups, written out.

  lemma MatchList1<A>(es: seq<Edge<A>>, c: char)
    requires |es| == 1
    ensures MatchList(es, c) == MatchStep(None, es[0], c)
  {
    assert es[..0] == [];
  }

  lemma MatchList2<A>(es: seq<Edge<A>>, c: char)
    requires |es| == 2
    ensures MatchList(es, c) == MatchStep(MatchStep(None, es[0], c), es[1], c)
  {
    MatchList1(es[..1], c);
  }

  lemma MatchList3<A>(es: seq<Edge<A>>, c: char)
    requires |es| == 3
    ensures MatchList(es, c) == MatchStep(MatchStep(MatchStep(None, es[0], c), es[1], c), es[2], c)
  {
    MatchList2(es[..2], c);
  }

  lemma MatchList4<A>(es: seq<Edge<A>>, c: char)
    requires |es| == 4
    ensures MatchList(es, c) ==
      MatchStep(MatchStep(MatchStep(MatchStep(None, es[0], c), es[1], c), es[2], c), es[3], c)
  {
    MatchList3(es[..3], c);
  }

  lemma MatchList5<A>(es: seq<Edge<A>>, c: char)
    requires |es| == 5
    ensures MatchList(es, c) ==
      MatchStep(MatchStep(MatchStep(MatchStep(MatchStep(None, es[0], c), es[1], c), es[2], c), es[3], c), es[4], c)
  {
    MatchList4(es[..4], c);
  }

  lemma MatchList6<A>(es: seq<Edge<A>>, c: char)
    requires |es| == 6
    ensures MatchList(es, c) ==
      MatchStep(MatchStep(MatchStep(MatchStep(MatchStep(MatchStep(None, es[0], c), es[1], c), es[2], c), es[3], c), es[4], c), es[5], c)
  {
    MatchList5(es[..5], c);
  }
}
