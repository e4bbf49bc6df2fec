# dynamic_content parsing core, modelled in Dafny

This project models the parsing core of the dynamic_content web framework.
That core is a small deterministic-automaton runtime with an element tree.
Two grammars run on the runtime: an HTML-like markup grammar and the
`<?dchp … ?>` directive grammar, which extends the markup grammar. The model
also covers the older markup grammar kept in the `dyc` package, and three
HTTP helpers the framework builds on: request headers (`Header`,
`HeaderMap`), the component registry (`ComponentWrapper`,
`ComponentContainer`, `register`) and the request record.

## Modules

- The runtime.
  - `Generic` models edges, vertices and `automaton_from_list`, together with
    its error cases (a duplicated edge character is a SyntaxError).
  - `Generic.Match` models `Vertex.match`.
  - `Generic.RunFrom` models the scanning loop of `_parse_deterministic` as a
    pure function, `Generic.RunAll` the same loop started at state 0.
  - `Driver.ParseDeterministic` is the imperative loop over the mutable parser
    stack. It is proved to compute exactly what `RunAll` says.
  - `Errors` holds the exceptions and how the driver wraps them: KeyError and
    SyntaxError gain a line and column; other exceptions pass through.
- The accumulator.
  - `ParseState.Stack` is the value of a `ParserStack`.
  - `Accumulator.ParserStack` is the mutable class. Each method changes it
    exactly as the pure action in `MarkupActions` or `DirectiveActions` says.
  - `Accumulator.Step` dispatches an action by name.
- The element tree (`Elements`).
  - `Base`, `Doctype`, `HTML` and `DirectiveNode` are one `Node` datatype with
    a kind.
  - The module also covers `by_tag`, `append`, `children`/`text_fields`,
    `render`, `_satisfies`/`find`, and `__getattr__`/`__setattr__`.
- The grammars.
  - `MarkupGrammar` holds the edge list of the markup grammar. Its
    `Transition` function states what each state does with each character,
    and `TableImplements` proves that the automaton built from the list
    implements `Transition`.
  - `DirectiveGrammar` and `OldMarkupGrammar` do the same for the directive
    grammar and the older markup grammar.
  - The `*Runs` modules prove what each stretch of input does: a tag name, an
    attribute, a comment, an indented directive line.
  - The `*Parses` modules prove whole documents: their trees, their errors
    with exact positions, and render/parse round trips.
  - `MarkupRoundTrip` proves that parsing inverts rendering for every tree of
    plain, attribute-free elements with lower-case names whose text children
    are single words.
- Headers and requests.
  - `Headers`: parsing and printing a header line, splitting header blocks,
    and `auto_construct`.
  - `HeaderMaps`: `HeaderMap` as a class over an insertion-ordered table.
  - `Components`: the name transform and the registry.
  - `Requests`: the request constructor, `parent_page` and the host/port split.

## Model

| member | source | states |
|---|---|---|
| Strings.Lower | dynamic_content/framework/util/parser/html.py:51 | str.lower: same length, each character lower-cased, an upper-case letter mapped to its lower case |
| Strings.Upper | dynamic_content/framework/util/parser/elements.py:154 | str.upper: same length, each character upper-cased |
| Strings.Concat | dynamic_content/framework/util/parser/html.py:46 | ''.join: the length of the result is the sum of the parts' lengths (TotalLength), and a single part joins to itself |
| Strings.ConcatPart | dynamic_content/framework/util/parser/html.py:46 | ''.join keeps each part in order: part i is the slice of the result between the summed lengths of the parts before it and up to it |
| Strings.FindFirst | dynamic_content/framework/http/headers.py:28 | the first index at which the separator occurs, or -1 exactly when it does not occur |
| Generic.MakeEdge | dynamic_content/framework/util/parser/generic.py:12-17 | Edge: a single character or guard becomes a one-element collection; head, tail and action are kept |
| Generic.AddEdge | dynamic_content/framework/util/parser/generic.py:33-44 | add_edge succeeds exactly when none of the edge's characters is already a key; otherwise the SyntaxError names a duplicated character; guards are appended |
| Generic.VertexOfLiterals | dynamic_content/framework/util/parser/generic.py:27-31 | a vertex built from edges maps each literal character of an edge to that edge |
| Generic.DisjointSnoc | dynamic_content/framework/util/parser/generic.py:33-39 | adding one more edge keeps the vertex buildable exactly when its characters are new |
| Generic.MakeVertex | dynamic_content/framework/util/parser/generic.py:27-44 | Vertex(*edges) succeeds exactly when the edges' character sets are pairwise disjoint, and the vertex is VertexOf(edges); on failure the SyntaxError's character is claimed by two of the edges |
| Generic.EdgesFrom | dynamic_content/framework/util/parser/generic.py:94-96 | the group sorted under a tail is never longer than the list (EdgesFromMembers states which edges it holds) |
| Generic.EdgesFromMembers | dynamic_content/framework/util/parser/generic.py:94-96 | an edge is in a tail's group exactly when it is in the list with that tail |
| Generic.EdgesFromEmpty | dynamic_content/framework/util/parser/generic.py:93-99 | a tail no edge has gets no vertex |
| Generic.EdgesFromSnoc | dynamic_content/framework/util/parser/generic.py:95-96 | appending an edge appends it to its own tail's group only |
| Generic.AutomatonFromList | dynamic_content/framework/util/parser/generic.py:93-99 | automaton_from_list succeeds exactly when every tail's group is buildable; the result has one vertex per tail; on failure the SyntaxError's character is claimed by two edges of the same tail's group |
| Generic.Match | dynamic_content/framework/util/parser/generic.py:46-51 | a literal character edge first, then the first guard that accepts, else nothing |
| Generic.FirstAccepting | dynamic_content/framework/util/parser/generic.py:49-51 | the guard edge found accepts the character and no earlier guard does; none is found only when no guard accepts |
| Generic.MatchAdded | dynamic_content/framework/util/parser/generic.py:33-51 | after add_edge, a character of the new edge's set matches it; otherwise the old match stands; otherwise the new edge matches exactly when one of its guards accepts |
| Generic.MatchVertexOf | dynamic_content/framework/util/parser/generic.py:27-51 | matching a vertex built from a list is the edge-by-edge selection over that list: character sets first, then guards in list order |
| Generic.MatchUniqueGuard | dynamic_content/framework/util/parser/generic.py:49-51 | when exactly one guard accepts, the result does not depend on guard order |
| Generic.AdvanceAllSnoc | dynamic_content/framework/util/parser/generic.py:80-84 | a newline moves to the next line at column 0; any other character moves one column |
| Generic.AdvanceAllAppend | dynamic_content/framework/util/parser/generic.py:80-84 | advancing the position over a concatenation is advancing over each part in turn |
| Generic.AdvanceAllFlat | dynamic_content/framework/util/parser/generic.py:83-84 | text without newlines only moves the column, by its length |
| Generic.PositionAfter | dynamic_content/framework/util/parser/generic.py:56-84 | from line 1, column 0, the position after some text is line 1 plus its newline count, at the length of its last line |
| Generic.RunFrom | dynamic_content/framework/util/parser/generic.py:54-86 | the scanning loop: a finished run ends in a state of the automaton |
| Generic.RunAll | dynamic_content/framework/util/parser/generic.py:54-86 | an automaton without state 0 fails before reading anything (`automaton[0]` is a KeyError) |
| Generic.RunFromAppend | dynamic_content/framework/util/parser/generic.py:61-86 | running over a concatenation is running over the first part, then over the second from where the first stopped |
| Generic.RunFromPosition | dynamic_content/framework/util/parser/generic.py:80-86 | a run that does not fail ends at the position the text advances to |
| Generic.EdgesFromGroups | dynamic_content/framework/util/parser/generic.py:93-99 | an edge list made of consecutive groups with distinct tails sorts back into exactly those groups |
| Generic.TailsGroups | dynamic_content/framework/util/parser/generic.py:93-99 | the tails of such a list are exactly the group tails |
| Generic.CollectDistinct | dynamic_content/framework/util/parser/generic.py:93-99 | the collected tails are distinct and are exactly the tails in the list |
| Generic.RunByAgrees | dynamic_content/framework/util/parser/generic.py:54-86 | an automaton that implements a transition function runs exactly as that function dictates |
| Generic.RunByPreserves | dynamic_content/framework/util/parser/generic.py:61-86 | an invariant that every action preserves holds of the stack a finished run produces |
| Errors.FromAction | dynamic_content/framework/util/parser/generic.py:62-70 | a KeyError or SyntaxError from an action becomes a SyntaxError at the current line and column; IndexError and NameError pass through unchanged |
| ParseState.Fresh | dynamic_content/framework/util/parser/html.py:19-32 | ParserStack(current=root): every buffer empty, the indentation counters 0, the current node root |
| Driver.ParseDeterministic | dynamic_content/framework/util/parser/generic.py:54-86 | the loop over the mutable stack succeeds exactly when the pure run does, leaves the stack holding the run's result and returns that same stack object; otherwise it returns the run's error |
| Driver.Parse | dynamic_content/framework/util/parser/generic.py:102-106 | 'deterministic' runs the loop above; 'indeterministic' raises NotImplementedError; any other name is a KeyError; neither of the last two touches the stack |
| Accumulator.StepKeepsHead | dynamic_content/framework/dchp/parser.py:102-121 | only reduce_indent and the action after an indented '?' override the edge's head state |
| Accumulator.Step | dynamic_content/framework/util/parser/html.py:43-105 | definition; characterised by Accumulator.ParserStack.Apply and Accumulator.StepKeepsHead |
| Accumulator.ParserStack.constructor | dynamic_content/framework/util/parser/html.py:19-32 | the new stack's value is the fresh stack on the given root |
| Accumulator.ParserStack.Flush | dynamic_content/framework/util/parser/html.py:43-47 | the object changes as FlushText says |
| Accumulator.ParserStack.Open | dynamic_content/framework/util/parser/html.py:50-56 | the object changes as OpenElement says |
| Accumulator.ParserStack.Finish | dynamic_content/framework/util/parser/html.py:90-93 | as FinishElement: an empty element list raises IndexError and changes nothing |
| Accumulator.ParserStack.FinishVoid | dynamic_content/framework/util/parser/html.py:96-98 | as FinishIfNonClosing |
| Accumulator.ParserStack.AddFlagParam | dynamic_content/framework/util/parser/html.py:64-66 | as RecordFlag |
| Accumulator.ParserStack.AddValueParam | dynamic_content/framework/util/parser/html.py:74-77 | as RecordValue |
| Accumulator.ParserStack.Close | dynamic_content/framework/util/parser/html.py:80-87 | as CloseElement, including the mismatch error |
| Accumulator.ParserStack.CheckName | dynamic_content/framework/dchp/parser.py:72-77 | as CheckDirectiveName |
| Accumulator.ParserStack.FinalizeDirective | dynamic_content/framework/dchp/parser.py:89-91 | as Finalize |
| Accumulator.ParserStack.Reduce | dynamic_content/framework/dchp/parser.py:102-112 | as ReduceIndent, returning the state it chooses; on error nothing changes |
| Accumulator.ParserStack.Apply | dynamic_content/framework/util/parser/generic.py:66 | every action changes the object exactly as Step says, and reports Step's next state or exception |
| Accumulator.ParserStack.ApplyTree | dynamic_content/framework/util/parser/html.py:43-98 | each tree-building markup action changes the object as Step says and reports its exception, leaving what Leftover says |
| Accumulator.ParserStack.ApplyBuffer | dynamic_content/framework/util/parser/html.py:104-105 | each buffer action appends its piece as Step says and never raises |
| Accumulator.ParserStack.ApplyDirective | dynamic_content/framework/dchp/parser.py:72-121 | each directive action changes the object as Step says and reports its next state or exception |
| MarkupActions.FlushText | dynamic_content/framework/util/parser/html.py:43-47 | buffered text becomes one text child of the current node and the buffer empties; with no text pending, the tree is left alone |
| MarkupActions.OpenElement | dynamic_content/framework/util/parser/html.py:50-56 | the current node is pushed onto the ancestor list, a fresh element of the lower-cased buffered name becomes current, and the name buffer empties |
| MarkupActions.FinishElement | dynamic_content/framework/util/parser/html.py:90-93 | fails with IndexError exactly when the ancestor list is empty; otherwise the popped parent, with the finished element appended as its last child, becomes current |
| MarkupActions.FinishIfNonClosing | dynamic_content/framework/util/parser/html.py:96-98 | finishes the element exactly when its tag is non-closing, else leaves the stack alone |
| MarkupActions.OpenElementFinish | dynamic_content/framework/util/parser/html.py:59-61 | open followed by the non-closing check |
| MarkupActions.RecordFlag | dynamic_content/framework/util/parser/html.py:64-66 | the buffered attribute name becomes a flag of the current node, and the buffer empties |
| MarkupActions.RecordFlagFinish | dynamic_content/framework/util/parser/html.py:69-71 | the flag is recorded, then the non-closing check runs |
| MarkupActions.RecordValue | dynamic_content/framework/util/parser/html.py:74-77 | the buffered name maps to the buffered value in the current node, and both buffers empty |
| MarkupActions.CloseElement | dynamic_content/framework/util/parser/html.py:80-87 | a closing tag whose lower-cased name is the current tag finishes it; any other name is MismatchedClosingTag(current tag, name); html.py:81-82 empties the name buffer before raising, which Accumulator.ParserStack.Close states for the object |
| MarkupActions.PushText | dynamic_content/framework/util/parser/html.py:104-105 | the text buffer grows by exactly the given piece |
| MarkupActions.PushName | dynamic_content/framework/util/parser/html.py:106 | the element-name buffer grows by the character |
| MarkupActions.PushArgName | dynamic_content/framework/util/parser/html.py:107 | the attribute-name buffer grows by the character |
| MarkupActions.PushValueChar | dynamic_content/framework/util/parser/html.py:138 | the attribute-value buffer grows by the character |
| MarkupGrammar.GroupTransition | dynamic_content/framework/util/parser/html.py:116-169 | each state's edge group matches every character as the markup transition function says |
| MarkupGrammar.TableGroups | dynamic_content/framework/util/parser/html.py:171 | the automaton has exactly the 17 states 0-16, each with its group's vertex |
| MarkupGrammar.TableImplements | dynamic_content/framework/util/parser/html.py:171 | the built automaton implements the markup transition function |
| MarkupGrammar.GroupDisjoint | dynamic_content/framework/util/parser/html.py:116-171 | no two edges of a state share a character |
| MarkupGrammar.BuildsOk | dynamic_content/framework/util/parser/html.py:171 | building the automaton from the edge list raises nothing |
| MarkupGrammar.BuildAutomaton | dynamic_content/framework/util/parser/html.py:171 | the module-level automaton is the table of the edge list |
| MarkupGrammar.TopLevel | dynamic_content/framework/util/parser/html.py:178-186 | an open element at the end is a SyntaxError; an empty document is an IndexError; a doctype first needs html second, which then carries it |
| MarkupGrammar.DriverRunsGrammar | dynamic_content/framework/util/parser/html.py:174-177 | the driver over the built automaton is the run of the transition function |
| MarkupGrammar.Parse | dynamic_content/framework/util/parser/html.py:174-186 | parse: the run from a fresh stack on the cellar root, then the top-level checks; both layers' errors are kept |
| MarkupGrammar.Transition | dynamic_content/framework/util/parser/html.py:116-169 | definition; characterised by MarkupGrammar.GroupTransition and MarkupGrammar.TableImplements |
| MarkupGrammar.ParseSpec | dynamic_content/framework/util/parser/html.py:174-186 | definition; characterised by MarkupGrammar.Parse, the MarkupParses lemmas and MarkupRoundTrip.RenderParses |
| MarkupRuns.NameRest | dynamic_content/framework/util/parser/html.py:123 | in state 2 or 11, alphanumeric characters extend the name buffer and stay in that state |
| MarkupRuns.TagName | dynamic_content/framework/util/parser/html.py:120-123 | a tag name after '<' lands in state 2 with exactly that name buffered |
| MarkupRuns.ClosingName | dynamic_content/framework/util/parser/html.py:147-149 | a closing tag's name lands in state 11 with exactly that name buffered |
| MarkupRuns.WordChar | dynamic_content/framework/util/parser/html.py:118 | in a text state a conforming character is buffered and leads to state 0 |
| MarkupRuns.Word | dynamic_content/framework/util/parser/html.py:118-144 | a word of conforming characters is buffered and ends in text state 0 |
| MarkupRuns.Whitespace | dynamic_content/framework/util/parser/html.py:119-143 | a run of spaces and newlines in text ends in state 8 and buffers one space, only when it follows text state 0 |
| MarkupRuns.RejectsInText | dynamic_content/framework/util/parser/html.py:117-119 | in text, a character that is not '<', a space, a newline or conforming is a SyntaxError at its position |
| MarkupRuns.LtName | dynamic_content/framework/util/parser/html.py:117-123 | '<' flushes pending text, then the name is buffered |
| MarkupRuns.BangName | dynamic_content/framework/util/parser/html.py:122-151 | `<!` and a name of at least two characters starting with a letter buffers the name and reaches state 2, as `<name` does |
| MarkupRuns.OpenTag | dynamic_content/framework/util/parser/html.py:117-124 | `<name>` flushes text and opens a fresh element of the lower-cased name above the current node; a non-closing one is appended to the current node at once |
| MarkupRuns.OpenTagSpace | dynamic_content/framework/util/parser/html.py:125 | `<name ` opens the element and waits for attributes in state 3 |
| MarkupRuns.CloseTag | dynamic_content/framework/util/parser/html.py:121-148 | `</name>` is the close action on exactly that name |
| MarkupRuns.MismatchedClose | dynamic_content/framework/util/parser/html.py:80-86 | a closing name other than the current tag fails at the '>' position with MismatchedClosingTag |
| MarkupRuns.MatchingClose | dynamic_content/framework/util/parser/html.py:80-93 | the closing tag of the current element makes it the last child of its parent, which becomes current again |
| MarkupRuns.ArgNameRest | dynamic_content/framework/util/parser/html.py:130 | alphanumeric characters extend the attribute-name buffer |
| MarkupRuns.ArgName | dynamic_content/framework/util/parser/html.py:127 | an attribute name in state 3 lands in state 4 with that name buffered |
| MarkupRuns.ValueRest | dynamic_content/framework/util/parser/html.py:134-139 | any characters but '"' inside a quoted value are buffered unchanged |
| MarkupRuns.FlagSpace | dynamic_content/framework/util/parser/html.py:129 | `name ` records a flag on the current element and returns to state 3 |
| MarkupRuns.FlagEnd | dynamic_content/framework/util/parser/html.py:132 | `name>` records the flag and then runs the non-closing check |
| MarkupRuns.ValueAttrOpen | dynamic_content/framework/util/parser/html.py:130-133 | `name="` reads the attribute name and starts its value |
| MarkupRuns.ValueAttr | dynamic_content/framework/util/parser/html.py:131-140 | `name="value"` stores the value under the name on the current element |
| MarkupRuns.SelfClose | dynamic_content/framework/util/parser/html.py:128-146 | `/>` in a tag finishes the element |
| MarkupRuns.CommentBody | dynamic_content/framework/util/parser/html.py:153 | comment text without '-' is buffered verbatim |
| MarkupRuns.CommentOpen | dynamic_content/framework/util/parser/html.py:122-152 | `<!--` buffers `<!--` and enters the comment body |
| MarkupRuns.CommentClose | dynamic_content/framework/util/parser/html.py:154-162 | `-->` buffers `-->` and returns to text |
| MarkupRuns.CommentUntilClose | dynamic_content/framework/util/parser/html.py:150-154 | up to its closing marker, a comment flushes the pending text and keeps its opening marker and each character as text |
| MarkupRuns.Comment | dynamic_content/framework/util/parser/html.py:150-168 | a whole comment whose body has no '-' is kept as text, markers included |
| MarkupRuns.CommentVerbatim | dynamic_content/framework/util/parser/html.py:152-168 | the pieces a comment buffers join back to the comment's whole text |
| MarkupParses.TrailingTextDropped | dynamic_content/framework/util/parser/html.py:178-182 | text with no element is never flushed, so `c[0]` raises IndexError |
| MarkupParses.UnclosedElement | dynamic_content/framework/util/parser/html.py:178-179 | an element left open at the end is a SyntaxError |
| MarkupParses.LoneNonClosing | dynamic_content/framework/util/parser/html.py:174-182 | a single non-closing tag other than doctype, such as `<meta>`, parses to that one element |
| MarkupParses.ClosingAtTop | dynamic_content/framework/util/parser/html.py:80-93 | a closing tag at the top level is a MismatchedClosingTag against the cellar at the '>' position, or an IndexError when it names the cellar itself |
| MarkupParses.ClosingTheRoot | dynamic_content/framework/util/parser/html.py:90-93 | `</cellar>` at the top level pops an empty element list: IndexError |
| MarkupParses.OpensTwo | dynamic_content/framework/util/parser/html.py:50-56 | two nested open tags make the second a child of the first, with both on the element list |
| MarkupParses.MismatchedNesting | dynamic_content/framework/util/parser/html.py:80-86 | `<a><b></a>` fails with MismatchedClosingTag(b, a) at the closing '>' |
| MarkupParses.LowerMismatchedNesting | dynamic_content/framework/util/parser/html.py:80-86 | the same holds after lower-casing the names |
| MarkupParses.LowerNesting | dynamic_content/framework/util/parser/html.py:80-86 | nesting is tested on lower-cased names, so case does not matter |
| MarkupParses.MismatchExample | dynamic_content/framework/util/parser/html.py:83-86 | `<div><span></div>` fails at line 1, column 16, with MismatchedClosingTag("span", "div") |
| MarkupParses.WordNotBlank | dynamic_content/framework/util/parser/html.py:43-47 | a word makes the buffered text non-blank |
| MarkupParses.TextChild | dynamic_content/framework/util/parser/html.py:43-93 | text inside an element becomes its text child when the element closes |
| MarkupParses.OpenWithValueAttr | dynamic_content/framework/util/parser/html.py:74-77 | up to the `>`, an opening tag with an attribute value opens the element and records that value |
| MarkupParses.OpenWithValue | dynamic_content/framework/util/parser/html.py:74-77 | an opening tag with an attribute value records that value on the element |
| MarkupParses.DivParses | dynamic_content/framework/util/parser/html.py:174-186 | `<div class="a"><p>Hi</p></div>` parses to one div with that value attribute, holding a p that holds the text |
| MarkupParses.DivHead | dynamic_content/framework/util/parser/elements.py:93-101 | example: the head of a div with class "a" is `div class="a"` (an instance of Elements.HeadOneValue) |
| MarkupParses.ParagraphRenders | dynamic_content/framework/util/parser/elements.py:102-105 | an element with children renders as open tag, children and closing tag |
| MarkupParses.DivRendersBack | dynamic_content/framework/util/parser/elements.py:91-109 | the parsed tree renders to the input text |
| MarkupParses.DivRoundTrip | dynamic_content/framework/util/parser/html.py:174-186 | parsing the rendered tree gives the same tree again |
| MarkupParses.DoctypeDecl | dynamic_content/framework/util/parser/html.py:122-151 | `<!doctype k>` adds a doctype element with flag k to the current node and returns to text |
| MarkupParses.DoctypeParses | dynamic_content/framework/util/parser/html.py:181-186 | a doctype followed by html parses to the html element carrying that doctype |
| MarkupParses.DoctypeRenders | dynamic_content/framework/util/parser/elements.py:152-154 | a doctype renders its tag upper-cased after '!' |
| MarkupParses.BodyRenders | dynamic_content/framework/util/parser/elements.py:102-105 | the html body renders with its children |
| MarkupParses.BaseRenderIgnoresDoctype | dynamic_content/framework/util/parser/elements.py:170-172 | the base rendering of html does not include its doctype |
| MarkupParses.DoctypeRendersBack | dynamic_content/framework/util/parser/elements.py:170-172 | the html element renders as its doctype's rendering followed by its own |
| MarkupParses.DoctypeRoundTrip | dynamic_content/framework/util/parser/html.py:181-186 | the doctype document parses back to the same tree |
| MarkupRoundTrip.ShapedRender | dynamic_content/framework/util/parser/elements.py:91-109 | a plain element without attributes renders as `<t>`, its content and `</t>`, or as `<t />` when empty; by_tag of its name is the element without content |
| MarkupRoundTrip.FlushAfterContent | dynamic_content/framework/util/parser/html.py:43-47 | flushing the text pending after shaped content leaves the whole content in the current element |
| MarkupRoundTrip.NodeRun | dynamic_content/framework/util/parser/html.py:116-169 | reading a rendered shaped element flushes pending text and appends exactly that element to the current node, ending in text state 0 |
| MarkupRoundTrip.EmptyNodeRun | dynamic_content/framework/util/parser/html.py:125-146 | `<t />` opens t and finishes it as an empty child of the current node |
| MarkupRoundTrip.FullNodeRun | dynamic_content/framework/util/parser/html.py:117-148 | an element with content is read as its opening tag, its content and its closing tag, and ends as the last child of the current node |
| MarkupRoundTrip.InsideRun | dynamic_content/framework/util/parser/html.py:116-169 | after the opening tag, the content and the matching closing tag finish the element |
| MarkupRoundTrip.OpenShaped | dynamic_content/framework/util/parser/html.py:117-124 | the opening tag of a shaped element opens a fresh element of that name above the flushed accumulator |
| MarkupRoundTrip.CloseAfterContent | dynamic_content/framework/util/parser/html.py:80-93 | the closing tag after the content makes the element, with that content, the last child of its parent |
| MarkupRoundTrip.ContentRun | dynamic_content/framework/util/parser/html.py:116-169 | shaped content read inside an element leaves every child in order in the element, a last text child still pending |
| MarkupRoundTrip.TopLevelOne | dynamic_content/framework/util/parser/html.py:181-186 | one closed element under the root that is not doctype is the whole document |
| MarkupRoundTrip.RenderParses | dynamic_content/framework/util/parser/html.py:174-186 | parse(render(n)) is exactly [n] for every shaped tree n |
| Elements.ByTag | dynamic_content/framework/util/parser/elements.py:185-191 | by_tag gives an empty node of that tag, of kind HTML for 'html', Doctype for 'doctype' and Base otherwise |
| Elements.DirectiveElement | dynamic_content/framework/dchp/parser.py:60-63 | a directive node holds the code and has not been executed |
| Elements.Append | dynamic_content/framework/util/parser/elements.py:114-115 | append adds the child at the end and changes nothing else |
| Elements.SplitContent | dynamic_content/framework/util/parser/elements.py:79-83 | children() and text_fields() partition the content |
| Elements.AppendSplits | dynamic_content/framework/util/parser/elements.py:79-115 | appending text extends text() and leaves children(); appending a node extends children() and leaves text_fields() |
| Elements.UnwrapList | dynamic_content/framework/util/parser/elements.py:31-37 | definition (a string as it is, a list joined with ", "); used by Elements.HeadOneValue |
| Elements.Head | dynamic_content/framework/util/parser/elements.py:93-101 | definition; characterised by Elements.HeadBare and Elements.HeadOneValue |
| Elements.HeadBare | dynamic_content/framework/util/parser/elements.py:93-101 | with no flags and only None-valued params the inside of the opening tag is the rendered tag alone |
| Elements.HeadOneValue | dynamic_content/framework/util/parser/elements.py:93-101 | with no flags and one value param, the inside of the opening tag is the tag, a space and `k="v"` with the value unwrapped |
| Elements.BaseRender | dynamic_content/framework/util/parser/elements.py:91-109 | definition; characterised by Elements.RenderDelimited and MarkupRoundTrip.RenderParses |
| Elements.Render | dynamic_content/framework/util/parser/elements.py:152-174 | definition; characterised by Elements.RenderDelimited and MarkupRoundTrip.RenderParses |
| Elements.RenderAll | dynamic_content/framework/util/parser/elements.py:103-104 | definition; characterised by Elements.RenderAllAppend |
| Elements.RenderAllAppend | dynamic_content/framework/util/parser/elements.py:103-104 | rendering concatenated content is concatenating the renderings |
| Elements.RenderDelimited | dynamic_content/framework/util/parser/elements.py:91-109 | every unexecuted node renders to text that starts with '<' and ends with '>' |
| Elements.SatisfiesValuesMeaning | dynamic_content/framework/util/parser/elements.py:136 | satisfied exactly when every value selector's key is present with that value; a missing key is a KeyError |
| Elements.SatisfiesMeaning | dynamic_content/framework/util/parser/elements.py:132-136 | _satisfies holds exactly when every flag selector is a flag and every value selector matches |
| Elements.Satisfies | dynamic_content/framework/util/parser/elements.py:132-136 | definition; characterised by Elements.SatisfiesMeaning |
| Elements.Find | dynamic_content/framework/util/parser/elements.py:139-149 | definition; characterised by Elements.FindIsFilteredPreorder |
| Elements.FindIsFilteredPreorder | dynamic_content/framework/util/parser/elements.py:139-149 | find gives exactly the matching nodes of the subtree, in pre-order; a KeyError only skips that node |
| Elements.FindAllIsFiltered | dynamic_content/framework/util/parser/elements.py:145-146 | searching the children gives the matching nodes of their subtrees in order |
| Elements.SetAttr | dynamic_content/framework/util/parser/elements.py:71-77 | __setattr__ as written: any bool adds a flag, any other value is stored as a value attribute |
| Elements.GetAttr | dynamic_content/framework/util/parser/elements.py:68-69 | __getattr__: the value if one is stored, else whether the name is a flag |
| Elements.SetAttrFalseReadsTrue | dynamic_content/framework/util/parser/elements.py:68-77 | as written, setting an attribute to False makes it read back True |
| Elements.SetAttrIntended | dynamic_content/framework/util/parser/elements.py:71-77 | corrected __setattr__: True adds a flag, False removes it, a value replaces any flag of that name |
| Elements.SetAttrIntendedRoundTrip | dynamic_content/framework/util/parser/elements.py:68-77 | with the corrected setter, what is set reads back, and other attributes read as before |
| DirectiveActions.PushDirectiveName | dynamic_content/framework/dchp/parser.py:128 | the directive-name buffer grows by the character |
| DirectiveActions.CheckDirectiveName | dynamic_content/framework/dchp/parser.py:72-77 | succeeds exactly when the name buffer spells 'dchp', and then empties it and resets the declared indentation; otherwise a SyntaxError holds the name |
| DirectiveActions.PushCode | dynamic_content/framework/dchp/parser.py:80-81 | the code buffer grows by exactly the given text |
| DirectiveActions.Finalize | dynamic_content/framework/dchp/parser.py:89-91 | the code becomes a directive child of the current node, and the buffer empties |
| DirectiveActions.IncrementIndent | dynamic_content/framework/dchp/parser.py:94-95 | one more space of declared indentation |
| DirectiveActions.ResetIndent | dynamic_content/framework/dchp/parser.py:98-99 | the declared indentation returns to 0 after a newline before code |
| DirectiveActions.ReduceIndent | dynamic_content/framework/dchp/parser.py:102-112 | with no declared indentation, the character is code and the state becomes 42; otherwise a non-space is IndentationMismatch(declared, spaces seen), the last expected space selects state 42, and an earlier one only counts down |
| DirectiveActions.ResetActiveIndent | dynamic_content/framework/dchp/parser.py:115-117 | a newline in code is buffered and the indentation count restarts from the declared one |
| DirectiveActions.AfterIndentQuestion | dynamic_content/framework/dchp/parser.py:120-121 | q47: state 44 when at most one expected space of the line remains, else state 48 |
| DirectiveGrammar.GroupTransition | dynamic_content/framework/dchp/parser.py:124-173 | each directive state's edge group matches every character as the directive transition function says |
| DirectiveGrammar.DirectiveEdgesFrom | dynamic_content/framework/dchp/parser.py:124-173 | sorting the combined list leaves each directive state exactly its own edges |
| DirectiveGrammar.MarkupEdgesFrom | dynamic_content/framework/util/parser/html.py:116-169 | sorting the combined list leaves each markup state exactly the markup edges |
| DirectiveGrammar.CombinedEdgesFrom | dynamic_content/framework/dchp/parser.py:176 | the combined list sorts into the markup groups followed by the directive groups |
| DirectiveGrammar.TableGroups | dynamic_content/framework/dchp/parser.py:176 | the combined automaton has exactly the markup and directive states, each with its group's vertex |
| DirectiveGrammar.TableImplements | dynamic_content/framework/dchp/parser.py:176 | the combined automaton implements the directive transition function |
| DirectiveGrammar.GroupDisjoint | dynamic_content/framework/dchp/parser.py:124-176 | no two edges of a directive state share a character, including state 1's extra '?' |
| DirectiveGrammar.BuildsOk | dynamic_content/framework/dchp/parser.py:176 | building the combined automaton raises nothing |
| DirectiveGrammar.BuildAutomaton | dynamic_content/framework/dchp/parser.py:176 | the module-level automaton is the table of the combined list |
| DirectiveGrammar.DriverRunsGrammar | dynamic_content/framework/dchp/parser.py:179-182 | the driver over that automaton is the run of the directive transition function |
| DirectiveGrammar.Parse | dynamic_content/framework/dchp/parser.py:179-191 | parse: the run from a fresh stack, then the same top-level checks as the markup parser |
| DirectiveGrammar.Transition | dynamic_content/framework/dchp/parser.py:124-173 | definition; characterised by DirectiveGrammar.GroupTransition and DirectiveGrammar.TableImplements |
| DirectiveGrammar.ParseSpec | dynamic_content/framework/dchp/parser.py:179-191 | definition; characterised by DirectiveGrammar.Parse and the DirectiveParses lemmas |
| DirectiveRuns.MarkupTargets | dynamic_content/framework/dchp/parser.py:176 | the markup transitions stay among markup states and never run the directive actions that choose a state |
| DirectiveRuns.MarkupUnchanged | dynamic_content/framework/dchp/parser.py:176 | from a markup state, input without '?' runs in the combined grammar exactly as in the markup grammar |
| DirectiveRuns.MarkupParsesUnchanged | dynamic_content/framework/dchp/parser.py:176-191 | input without '?' parses as in the markup parser |
| DirectiveRuns.QuestionAfterLt | dynamic_content/framework/dchp/parser.py:125 | `<?` enters the directive name state and leaves the stack alone |
| DirectiveRuns.NameRest | dynamic_content/framework/dchp/parser.py:130-131 | letters extend the directive name buffer |
| DirectiveRuns.DirectiveName | dynamic_content/framework/dchp/parser.py:127-131 | a directive name lands in its state with the name buffered |
| DirectiveRuns.NameEnd | dynamic_content/framework/dchp/parser.py:132-133 | a space, newline or '?' after the name enters state 41 (48 for '?') with the buffer emptied when the name is 'dchp', and is a SyntaxError holding the name otherwise |
| DirectiveRuns.DirectiveStart | dynamic_content/framework/dchp/parser.py:125 | from a text state, `<?` flushes pending text and enters the directive-name state 30 |
| DirectiveRuns.DirectiveOpen | dynamic_content/framework/dchp/parser.py:125-133 | `<?name` and a space, newline or '?' opens a directive when the name is dchp, and fails at that character with the name otherwise |
| DirectiveRuns.DeclaredIndentAppend | dynamic_content/framework/dchp/parser.py:135-136 | the declared indentation counts the spaces of each piece in turn |
| DirectiveRuns.DeclaredSpaces | dynamic_content/framework/dchp/parser.py:135-136 | n spaces after the opening line declare indentation n |
| DirectiveRuns.DeclaredAfterNewline | dynamic_content/framework/dchp/parser.py:94-99 | after a newline, the declared indentation restarts at 0 |
| DirectiveRuns.Indentation | dynamic_content/framework/dchp/parser.py:135-136 | whitespace in state 41 counts spaces into the declared indentation, a newline restarting the count |
| DirectiveRuns.Code | dynamic_content/framework/dchp/parser.py:143 | plain code characters are buffered unchanged in state 42 |
| DirectiveRuns.FirstCode | dynamic_content/framework/dchp/parser.py:137-138 | the first non-space character starts the code |
| DirectiveRuns.QuotedRest | dynamic_content/framework/dchp/parser.py:163-166 | characters of a quoted span other than the quote are buffered |
| DirectiveRuns.QuoteOpens | dynamic_content/framework/dchp/parser.py:139-147 | a quote opens a quoted span and is buffered |
| DirectiveRuns.QuoteCloses | dynamic_content/framework/dchp/parser.py:162-165 | the matching quote closes the span |
| DirectiveRuns.Quoted | dynamic_content/framework/dchp/parser.py:139-166 | a quoted span, `?>` included, is buffered verbatim and returns to code |
| DirectiveRuns.Close | dynamic_content/framework/dchp/parser.py:141-156 | `?>` in state 41 or 42 ends the directive, appends it to the current node and returns to text |
| DirectiveRuns.QuestionCode | dynamic_content/framework/dchp/parser.py:157-159 | a '?' followed by anything but '>' or a newline is code, '?' included; a quote after it opens a quoted span |
| DirectiveRuns.QuestionNewline | dynamic_content/framework/dchp/parser.py:160 | '?' followed by a newline keeps only the newline (the '?' is not buffered) and enters the line-start state 47 |
| DirectiveRuns.Newline | dynamic_content/framework/dchp/parser.py:145 | a newline in code is buffered and restarts the indentation count |
| DirectiveRuns.BlankLine | dynamic_content/framework/dchp/parser.py:169 | a newline at a line start is buffered and restarts the count for the next line |
| DirectiveRuns.ConsumeIndent | dynamic_content/framework/dchp/parser.py:168 | the expected spaces at a line start are dropped, and code resumes in state 42 |
| DirectiveRuns.ShortIndent | dynamic_content/framework/dchp/parser.py:106-109 | a line with too few spaces fails with IndentationMismatch(declared, spaces seen) at its first non-space character |
| DirectiveRuns.LineStartNoIndent | dynamic_content/framework/dchp/parser.py:103-105 | with no declared indentation, any line-start character is code |
| DirectiveRuns.IndentQuestion | dynamic_content/framework/dchp/parser.py:170 | a '?' at a line start moves to state 44 or 48 as q47 chooses, leaving the stack alone |
| DirectiveRuns.OnlyGreater | dynamic_content/framework/dchp/parser.py:172 | in state 48 any character but '>' is a SyntaxError at its position |
| DirectiveParses.OpensFresh | dynamic_content/framework/dchp/parser.py:125-132 | `<?dchp` and a space or newline reaches state 41 with the stack still fresh |
| DirectiveParses.EndsWithDirective | dynamic_content/framework/dchp/parser.py:183-187 | finalizing with no element open leaves the directive as the only top-level node |
| DirectiveParses.OneLineDirective | dynamic_content/framework/dchp/parser.py:179-191 | `<?dchp code?>` parses to one directive node holding the code |
| DirectiveParses.FirstLine | dynamic_content/framework/dchp/parser.py:135-143 | the first indented line fixes the indentation and buffers its code |
| DirectiveParses.ContinuationLine | dynamic_content/framework/dchp/parser.py:145-168 | a further line with exactly the declared indentation adds a newline and its code, without the spaces |
| DirectiveParses.IndentedDirective | dynamic_content/framework/dchp/parser.py:179-191 | a two-line indented directive parses to the code with its indentation removed |
| DirectiveParses.ShortLine | dynamic_content/framework/dchp/parser.py:106-109 | a continuation line with j of k spaces fails on the next line, at column j, with IndentationMismatch(k, j) |
| DirectiveParses.MisindentedDirective | dynamic_content/framework/dchp/parser.py:102-109 | a directive whose second code line has j < k spaces fails on line 3, at column j, with IndentationMismatch(k, j) |
| DirectiveFinding.QuoteAtLineStartAsWritten | dynamic_content/framework/dchp/parser.py:102-105 | as written, `<?dchp x` + newline + `"?>"?>` fails at line 2, column 3 with NoMatchingEdge('"') |
| DirectiveFinding.ReduceIndentQuoting | dynamic_content/framework/dchp/parser.py:102-112 | corrected reduce_indent: with no declared indentation, a quote at line start opens a quoted span; otherwise it is unchanged |
| DirectiveFinding.AvoidsIndentState | dynamic_content/framework/dchp/parser.py:168-170 | from a state other than 47, a character other than newline never leads to state 47 and never runs reduce_indent or q47 |
| DirectiveFinding.QuotingAgrees | dynamic_content/framework/dchp/parser.py:168-170 | from a state other than 47, input without a newline runs the same under the written and the corrected reduce_indent |
| DirectiveFinding.QuoteStartsLine | dynamic_content/framework/dchp/parser.py:103-105 | with the correction, a line-start quote opens a quoted span |
| DirectiveFinding.QuotedLineStartOpaque | dynamic_content/framework/dchp/parser.py:102-105 | with the correction, a quoted span at a line start, `?>` included, is code and returns to state 42 |
| DirectiveFinding.QuoteAtLineStartQuoting | dynamic_content/framework/dchp/parser.py:102-105 | with the correction, the same input parses to one directive holding `x`, newline, `"?>"` |
| OldMarkupGrammar.GroupTransition | dyc/util/parser/html.py:103-142 | each state's edge group matches as the old transition function says |
| OldMarkupGrammar.TableGroups | dyc/util/parser/html.py:144 | the old automaton has exactly its states, each with its group's vertex |
| OldMarkupGrammar.TableImplements | dyc/util/parser/html.py:144 | the built old automaton implements the old transition function |
| OldMarkupGrammar.GroupDisjoint | dyc/util/parser/html.py:103-144 | no two edges of an old state share a character |
| OldMarkupGrammar.BuildsOk | dyc/util/parser/html.py:144 | building the old automaton raises nothing |
| OldMarkupGrammar.BuildAutomaton | dyc/util/parser/html.py:144 | the old module-level automaton is that table |
| OldMarkupGrammar.Seeded | dyc/util/parser/html.py:147-149 | the old parser starts with the cellar current and every buffer empty |
| OldMarkupGrammar.TopLevel | dyc/util/parser/html.py:151-154 | the result is the current node's content exactly when at most the seeded cellar entry is left on the ancestor list, even when it is empty; otherwise an element is open, a SyntaxError |
| OldMarkupGrammar.DriverRunsGrammar | dyc/util/parser/html.py:147-150 | the driver over the old automaton is the old transition function's run |
| OldMarkupGrammar.Parse | dyc/util/parser/html.py:147-154 | old parse: run, then the top-level check |
| OldMarkupGrammar.Transition | dyc/util/parser/html.py:103-142 | definition; characterised by OldMarkupGrammar.GroupTransition, OldMarkupGrammar.TableImplements and OldMarkupRuns.Differences |
| OldMarkupGrammar.ParseSpec | dyc/util/parser/html.py:147-154 | definition; characterised by OldMarkupGrammar.Parse and the OldMarkupParses lemmas |
| OldMarkupRuns.Differences | dyc/util/parser/html.py:103-142 | the grammars differ exactly on a listed set of states and characters, where the old one has no edge, except a space in state 4, which runs the old html_q4 |
| OldMarkupRuns.SharedTargets | dyc/util/parser/html.py:103-142 | where they agree, both move to the same state with the same action |
| OldMarkupRuns.AlongAgrees | dyc/util/parser/html.py:103-142 | input that stays on shared transitions runs identically in both grammars |
| OldMarkupRuns.AlongWord | dyc/util/parser/html.py:105-133 | words run on shared transitions |
| OldMarkupRuns.AlongWhitespace | dyc/util/parser/html.py:106-132 | whitespace runs on shared transitions |
| OldMarkupRuns.AlongNameRest | dyc/util/parser/html.py:111-141 | the rest of a tag name runs on shared transitions |
| OldMarkupRuns.AlongName | dyc/util/parser/html.py:108-138 | a whole tag name runs on shared transitions |
| OldMarkupRuns.AlongArgNameRest | dyc/util/parser/html.py:120 | attribute names run on shared transitions |
| OldMarkupRuns.AlongOpenTag | dyc/util/parser/html.py:104-113 | a plain opening tag runs on shared transitions |
| OldMarkupRuns.AlongCloseTag | dyc/util/parser/html.py:109-140 | a plain closing tag runs on shared transitions |
| OldMarkupRuns.AlongSelfClose | dyc/util/parser/html.py:117-136 | `/>` runs on shared transitions |
| OldMarkupRuns.RejectsInText | dyc/util/parser/html.py:105-133 | in the old text states, the non-alphanumeric characters the newer grammar admits ('?', '!', '&', '%', '$') are a SyntaxError at their position |
| OldMarkupRuns.AttributeNameEnds | dyc/util/parser/html.py:68-121 | in state 4, '>' has no edge (a SyntaxError) and a space runs the old html_q4, which raises NameError |
| OldMarkupParses.RunsAsNewer | dyc/util/parser/html.py:103-144 | plain tags and words parse the same under the old grammar as under the new one |
| OldMarkupParses.EmptyDocument | dyc/util/parser/html.py:147-154 | the empty document gives an empty list, where the newer parser raises IndexError |
| OldMarkupParses.ElementWithText | dyc/util/parser/html.py:147-154 | an element with a word parses to that element holding the word |
| OldMarkupParses.UnclosedElement | dyc/util/parser/html.py:151-152 | an element left open is a SyntaxError |
| OldMarkupParses.LoneNonClosing | dyc/util/parser/html.py:95-97 | a single non-closing tag parses to that element, even doctype, which makes the newer parser raise IndexError |
| OldMarkupParses.SelfClosing | dyc/util/parser/html.py:117-136 | `<t />`, with the space, parses to an empty t |
| OldMarkupParses.ClosingTheRoot | dyc/util/parser/html.py:89-92 | `</cellar>` at the top parses to the cellar inside itself, twice raises IndexError, and the newer parser raises IndexError at once |
| OldMarkupParses.MismatchedClose | dyc/util/parser/html.py:79-86 | a mismatched closing tag fails at the '>' with both names |
| OldMarkupParses.BangRejected | dyc/util/parser/html.py:108-109 | `<!` is a SyntaxError at line 1, column 1: the old grammar has no edge for '!' |
| OldMarkupParses.ConformRejected | dyc/util/parser/html.py:105 | a character such as '?' after a word is a SyntaxError at its position in the old grammar |
| OldMarkupParses.BareAttribute | dyc/util/parser/html.py:68-70 | `<t k ` raises NameError, because the old html_q4 uses an undefined name; `<t k>` is a SyntaxError at the '>', which has no edge in state 4 |
| Headers.FromStr | dynamic_content/framework/http/headers.py:20-29 | from_str succeeds exactly when ': ' occurs; the key is the text before the first ': ' and the value the rest; printing the header gives the input back |
| Headers.FromStrToString | dynamic_content/framework/http/headers.py:20-29 | a header reads back from its printed form exactly when its key has no ': ' |
| Headers.ToString | dynamic_content/framework/http/headers.py:175-176 | definition; characterised by Headers.FromStrToString |
| Headers.ToTuple | dynamic_content/framework/http/headers.py:160-162 | definition; characterised by Headers.FromTupleToTuple |
| Headers.Split | dynamic_content/framework/http/headers.py:40-41 | str.split with a separator gives at least one piece |
| Headers.SplitJoin | dynamic_content/framework/http/headers.py:40-41 | joining the pieces with the separator gives the string back |
| Headers.SplitPieces | dynamic_content/framework/http/headers.py:40-41 | no piece contains the separator |
| Headers.SplitSingle | dynamic_content/framework/http/headers.py:53-54 | exactly one piece when the separator does not occur, and it is the whole string |
| Headers.SplitOfJoin | dynamic_content/framework/http/headers.py:40-41 | splitting joined pieces gives the pieces back |
| Headers.LinesHaveNoBreak | dynamic_content/framework/http/headers.py:40-41 | the lines many_from_str reads have no newline |
| Headers.LinesOfJoin | dynamic_content/framework/http/headers.py:40-41 | lines joined by CRLF are read back as exactly those lines |
| Headers.Collect | dynamic_content/framework/http/headers.py:40-42 | the generator yields at most one header per line, yields one for every line exactly when it does not stop early, and the exception it stops with is ValueError |
| Headers.CollectParses | dynamic_content/framework/http/headers.py:40-42 | each yielded header is from_str of the line at its position, and the line the generator stops at is one from_str rejects |
| Headers.CollectCons | dynamic_content/framework/http/headers.py:40-42 | a line that parses puts its header in front of what the remaining lines yield, with the same stop |
| Headers.CollectStrings | dynamic_content/framework/http/headers.py:40-42 | the printed lines of headers give back exactly those headers |
| Headers.ManyFromStrRoundTrip | dynamic_content/framework/http/headers.py:32-42 | many_from_str of headers printed and joined by CRLF yields exactly those headers |
| Headers.ManyFromJoined | dynamic_content/framework/http/headers.py:32-54 | two or more printed headers contain a newline and read back as a generator of all of them |
| Headers.ManyFromEmpty | dynamic_content/framework/http/headers.py:40-42 | the empty string yields nothing and then raises ValueError |
| Headers.ManyFromStr | dynamic_content/framework/http/headers.py:32-42 | definition; characterised by Headers.ManyFromStrRoundTrip, Headers.ManyFromJoined and Headers.ManyFromEmpty |
| Headers.AnyFromStr | dynamic_content/framework/http/headers.py:45-54 | definition; characterised by Headers.AnyFromStrSingle and Headers.ManyFromJoined |
| Headers.AnyFromStrSingle | dynamic_content/framework/http/headers.py:45-54 | a string without newline is one header; with a newline it is many_from_str |
| Headers.AutoConstructLines | dynamic_content/framework/http/headers.py:136-150 | a string with a newline auto-constructs to many_from_str |
| Headers.FromTuple | dynamic_content/framework/http/headers.py:71-83 | from_tuple fails with TypeError exactly when the length is not 2; a header value is returned as is, otherwise Header(key, value) is built |
| Headers.FromTupleToTuple | dynamic_content/framework/http/headers.py:71-83 | from_tuple inverts to_tuple |
| Headers.AnyFromPair | dynamic_content/framework/http/headers.py:113-131 | a pair whose first item is no header line is from_tuple; when it is one, a header second item is an assertion error, a second header line gives both headers, and any other string gives Header(first, second) |
| Headers.ManyFromDict | dynamic_content/framework/http/headers.py:57-68 | one header per entry in order: a header value as is, anything else as Header(key, value) |
| Headers.AutoConstruct | dynamic_content/framework/http/headers.py:136-154 | a header is itself, a list of headers is a generator over them, an unsupported type is TypeError, and only a pair can give a pair |
| Headers.EqualsHeaders | dynamic_content/framework/http/headers.py:164-168 | two headers are equal exactly when key and value are |
| Headers.EqualsStringForm | dynamic_content/framework/http/headers.py:164-168 | a printable header equals its own printed form |
| Headers.Equals | dynamic_content/framework/http/headers.py:164-168 | definition; characterised by Headers.EqualsHeaders and Headers.EqualsStringForm |
| HeaderMaps.Put | dynamic_content/framework/http/headers.py:226-229 | storing a header: the key holds it, other keys keep their headers, a new key goes last and existing keys keep their order |
| HeaderMaps.PutAllHas | dynamic_content/framework/http/headers.py:185-224 | after storing a sequence of headers, each of their keys is present |
| HeaderMaps.PutAllLast | dynamic_content/framework/http/headers.py:185-224 | after storing a sequence, a key holds the last header with that key |
| HeaderMaps.PutAllOthers | dynamic_content/framework/http/headers.py:185-224 | a key no stored header has keeps what it held before, or stays absent |
| HeaderMaps.PairsStored | dynamic_content/framework/http/headers.py:244-259 | to_tuple holds one pair per key, and exactly the pairs of the stored headers |
| HeaderMaps.PairSetStored | dynamic_content/framework/http/headers.py:261-267 | to_set holds exactly the pairs of the stored headers |
| HeaderMaps.AddHeaderLine | dynamic_content/framework/http/headers.py:231-242 | adding a header line stores the header it parses to |
| HeaderMaps.AddHeaderLinesSpec | dynamic_content/framework/http/headers.py:231-242 | adding CRLF-joined header lines stores them all, in order |
| HeaderMaps.AddSpec | dynamic_content/framework/http/headers.py:231-242 | definition; characterised by HeaderMaps.HeaderMap.Add, HeaderMaps.AddHeaderLine and HeaderMaps.AddHeaderLinesSpec |
| HeaderMaps.Coerce | dynamic_content/framework/http/headers.py:226-229 | the value __setitem__ stores is from_tuple of key and value |
| HeaderMaps.HeaderMap.constructor | dynamic_content/framework/http/headers.py:185-224 | HeaderMap() is empty |
| HeaderMaps.HeaderMap.FromHeaders | dynamic_content/framework/http/headers.py:185-224 | HeaderMap(headers) holds each header under its key, later ones overwriting earlier ones |
| HeaderMaps.HeaderMap.Store | dynamic_content/framework/http/headers.py:229 | dict item assignment, as Put |
| HeaderMaps.HeaderMap.SetItem | dynamic_content/framework/http/headers.py:226-229 | __setitem__ stores the coerced header under the key |
| HeaderMaps.HeaderMap.Add | dynamic_content/framework/http/headers.py:231-242 | add changes the map and reports exactly as the add specification says, including the headers a failing generator stored first |
| HeaderMaps.HeaderMap.AddEach | dynamic_content/framework/http/headers.py:238-240 | adding each header a generator yields, in turn, leaves the map as PutAll of them |
| HeaderMaps.HeaderMap.ToTupleAll | dynamic_content/framework/http/headers.py:244-259 | to_tuple gives the pairs in key order |
| HeaderMaps.HeaderMap.ToSet | dynamic_content/framework/http/headers.py:261-267 | to_set gives the set of those pairs |
| Components.Remove | dynamic_content/framework/machinery/component.py:14 | str.replace(c, ''): no c is left, and all other characters are kept |
| Components.NameTransform | dynamic_content/framework/machinery/component.py:13-17 | _name_transform gives an all-lower-case alphabetic name, or ValueError |
| Components.NameTransformAccepts | dynamic_content/framework/machinery/component.py:13-17 | it succeeds exactly when the name with '_' and ' ' removed is non-empty and alphabetic |
| Components.NameTransformIdempotent | dynamic_content/framework/machinery/component.py:13-17 | a transformed name transforms to itself |
| Components.NameIgnoresSeparators | dynamic_content/framework/machinery/component.py:60-66 | an underscore or a space anywhere does not change the key |
| Components.NameIgnoresCase | dynamic_content/framework/machinery/component.py:60-66 | the case of a letter does not change the key |
| Components.SetThenGet | dynamic_content/framework/machinery/component.py:39-47 | a wrapper that may be set gets back what was set |
| Components.SetOnce | dynamic_content/framework/machinery/component.py:39-42 | without reload, a second set raises ComponentLoaded and keeps the first object |
| Components.ComponentWrapper.constructor | dynamic_content/framework/machinery/component.py:34-37 | the wrapper holds the name, the reload flag and the wrapped object |
| Components.ComponentWrapper.Set | dynamic_content/framework/machinery/component.py:39-42 | set changes the wrapper as the set specification says |
| Components.ComponentWrapper.Get | dynamic_content/framework/machinery/component.py:44-47 | get gives the content, or ComponentNotLoaded exactly when nothing is loaded |
| Components.SetKey | dynamic_content/framework/machinery/component.py:70-74 | a string key is transformed, a type is its own key, anything else is TypeError |
| Components.GetKey | dynamic_content/framework/machinery/component.py:78-81 | __getitem__ keys as __setitem__ does, except that a non-string, non-type key fails in the transform with AttributeError |
| Components.WithPlaceholder | dynamic_content/framework/machinery/component.py:75 | setdefault adds an empty wrapper for a missing key and keeps every existing one |
| Components.ContainsRaisesOnPlaceholder | dynamic_content/framework/machinery/component.py:89-93 | as written, after `container[T]` the test `T in container` raises ComponentNotLoaded |
| Components.ContainsAgrees | dynamic_content/framework/machinery/component.py:89-93 | where the written __contains__ answers, it answers as the corrected one; it raises exactly for a present, unloaded raw key |
| Components.ContainsAsWritten | dynamic_content/framework/machinery/component.py:89-93 | definition; characterised by Components.ContainsRaisesOnPlaceholder and Components.ContainsAgrees |
| Components.Holds | dynamic_content/framework/machinery/component.py:89-93 | definition of the intended membership test; characterised by Components.ContainsAgrees |
| Components.RegisterThenGet | dynamic_content/framework/machinery/component.py:128-136 | a registered component is found under any name that transforms to the same key |
| Components.RegisterTwice | dynamic_content/framework/machinery/component.py:128-136 | registering a second time under an equivalent name raises ComponentLoaded and keeps the first |
| Components.SetItemIsRegister | dynamic_content/framework/machinery/component.py:70-76 | for string and type keys, item assignment and register do the same |
| Components.ComponentContainer.constructor | dynamic_content/framework/machinery/component.py:54-68 | a new container is empty |
| Components.ComponentContainer.SetDefault | dynamic_content/framework/machinery/component.py:75 | setdefault keeps every existing wrapper and adds an empty one for a missing key |
| Components.ComponentContainer.SetItem | dynamic_content/framework/machinery/component.py:70-76 | __setitem__ changes the registry as its specification says |
| Components.ComponentContainer.GetItem | dynamic_content/framework/machinery/component.py:78-82 | __getitem__ gives the key's wrapper, creating an empty one if needed |
| Components.ComponentContainer.ContainsItem | dynamic_content/framework/machinery/component.py:89-93 | corrected __contains__: true exactly when the key holds a loaded component |
| Components.Register | dynamic_content/framework/machinery/component.py:128-136 | register changes the registry as its specification says |
| Requests.RSplitOnce | dynamic_content/framework/http/request.py:50 | rsplit(c, 1): one piece exactly when c does not occur; two pieces joined by c give the string, with no c after the separator |
| Requests.RSplitOnceOf | dynamic_content/framework/http/request.py:50 | the split of p + c + q, with no c in q, is [p, q] |
| Requests.ParentPage | dynamic_content/framework/http/request.py:45-51 | parent_page is never empty |
| Requests.ParentPageOf | dynamic_content/framework/http/request.py:45-51 | `p/name` has parent p, or '/' when p is empty |
| Requests.ParentPageNoSlash | dynamic_content/framework/http/request.py:45-51 | a path without '/' is its own parent, except that the empty path gives '/' |
| Requests.ParseInt | dynamic_content/framework/http/request.py:76 | int() of an optional sign and decimal digits, otherwise ValueError; the empty string never parses |
| Requests.ParseDecimal | dynamic_content/framework/http/request.py:76 | int() reads back a number's decimal form, with or without '-' |
| Requests.SplitHost | dynamic_content/framework/http/request.py:75-77 | the only failure of the host split is a bad port |
| Requests.SplitHostPort | dynamic_content/framework/http/request.py:75-77 | `host:port` splits into host and number, even when the host has colons |
| Requests.SplitHostNoPort | dynamic_content/framework/http/request.py:75-77 | without ':' the whole string is the host and there is no port |
| Requests.SplitHostBadPort | dynamic_content/framework/http/request.py:75-77 | non-numeric text after the last ':' raises ValueError |
| Requests.HeadersNone | dynamic_content/framework/http/request.py:32-33 | no headers give an empty HeaderMap |
| Requests.HeadersSingle | dynamic_content/framework/http/request.py:34-36 | a single header gives a map holding exactly it |
| Requests.HeadersSingleLine | dynamic_content/framework/http/request.py:29-36 | a single printed header line gives a map holding exactly that header |
| Requests.HeadersFromGenerator | dynamic_content/framework/http/request.py:29-31 | a generator that yields every header gives the map of those headers |
| Requests.HeadersTwoLines | dynamic_content/framework/http/request.py:29-31 | two CRLF-joined header lines give a map holding both |
| Requests.HeadersSpec | dynamic_content/framework/http/request.py:29-36 | definition; characterised by Requests.HeadersNone, Requests.HeadersSingle, Requests.HeadersSingleLine, Requests.HeadersFromGenerator and Requests.HeadersTwoLines |
| Requests.Request.Of | dynamic_content/framework/http/request.py:26-43 | the record holds exactly the given fields |
| Requests.Request.Parent | dynamic_content/framework/http/request.py:45-51 | the parent_page property: the parent page of the record's path, as characterised by Requests.ParentPageOf and Requests.ParentPageNoSlash |
| Requests.NewRequest | dynamic_content/framework/http/request.py:26-43 | the constructor succeeds exactly when the headers normalise; the new map holds them, the verb is lower-cased and the other fields are kept |
| Requests.FromPathAndPost | dynamic_content/framework/http/request.py:54-83 | a bad port is BadPort; otherwise the host split gives host and port, succeeds exactly when the headers normalise, a header failure is BadHeaders of that error, and the request is fresh with a fresh header map of those headers, the lower-cased verb, and the path and ssl flag passed through |

## Left out

- I/O is not modelled: sockets, `payload` and `client`. `urlsplit`, `parse_qs` and `query` are left out too, and the path passed to `FromPathAndPost` is taken as already split from its query string.
- Guard order: `Vertex.f` is a set, so when two guards of a state accept the same character, the one Python picks depends on set iteration order; the model takes the first in edge-list order, and `Generic.MatchUniqueGuard` shows the order does not matter when only one guard accepts.
- Character classes (`isalnum`, `isalpha`, lower/upper case) are modelled for ASCII only; Python's Unicode classes accept more characters.
- The flags of an element (`_params`, a set) render in insertion order in the model; Python renders them in set iteration order.
- The old `ParserStack` uses mutable default lists shared between calls; the model gives each parse fresh buffers. Trees are values, so when `</cellar>` makes the old cellar append itself, the model holds a copy of the earlier cellar instead of a cycle.
- OldMarkupGrammar.TopLevel: `current is cellar_bottom` is modelled as "no element is still open", which it equals whenever the cellar is not re-entered through aliasing. On `</cellar><a>` they differ: `<a>` pushes the re-entered cellar and leaves `a` current, so Python raises SyntaxError, while the model has one ancestor left and returns Ok with a's empty content.
- The automaton is a module-level value built once in Python; the model rebuilds it for each call, which is proved to give the same table.
- Directive execution is not modelled: a directive node renders as a placeholder, and `executed` is always None.
- Generators are modelled eagerly, as the list of headers yielded plus the exception that stopped them, if any.
- Headers.AutoConstruct: restricted to the raw shapes the model defines (a header, a string, a key/value pair, a list of headers, or an unsupported value). `many_from_tuple`/`many_from_set` of arbitrary nested items and set iteration order are not modelled.
- Headers.FromTuple: requires a string key when the value is a string, the only shape the rest of the model builds; Python accepts any key.
- Elements.GetAttr: models `__getattr__` alone. Python calls it only when normal lookup fails, so a name that is a class attribute (`render`, `find`, `content`, `children`, …) never reaches it: after `node.render = False`, `node.render` is still the method. The model has no class attributes and answers from the flags and values for every name.
- Elements.UnwrapList: a value is a string, a list of strings or None. A value that is neither a string nor iterable (such as `node.k = 5`) makes `unwrap_list` raise TypeError when the node is rendered; the model has no such values, so that TypeError is not modelled.
- Header: key and value are strings in the model. Python's `Header` accepts any key and value, defaults the value to None, and `__str__` prints both with `str()`, so `Header('k')` prints as `k: None` and reads back with the string value `'None'`. Headers.FromStrToString, Headers.EqualsStringForm and Headers.FromTupleToTuple are therefore stated for string values only.
- HeaderMaps.Coerce: only headers and strings are coerced, since `Arg` holds nothing else.
- HeaderMaps.HeaderMap.SetItem: a value that is neither a header nor a string (which `__setitem__` wraps as `Header(key, value)`, printed with `str()`) is not modelled; `Arg` holds only strings and headers.
- `Header.__hash__` is left out: it depends on Python's randomised string hashing.
- `HeaderMap(iterable)` of arbitrary items, a dict argument and `**kwargs` are left out; `HeaderMap.FromHeaders` takes a list of headers.
- Requests.ParseInt: surrounding whitespace and digit-grouping underscores, which Python's int() accepts, are not modelled.
- The `Base(tag, *children, **params)` constructor and `prepend`, `insert` and `add_class` are left out; trees are built through `ByTag` and `Append` as the parser builds them.
- `ComponentContainer.__contains__` with an unhashable key (TypeError) is not modelled.
- util.Maybe is not part of this model; `ComponentWrapper` holds its content directly.
- `ComponentWrapper.wrapped`, the `inject` and `component` decorators, and the `__getattr__`/`__call__` aliases of `ComponentContainer` are left out.
- dyc/util/parser/elements.py is not part of this model; the old grammar builds the same `Node` values as the newer one.
- `_parse_indeterministic` is modelled only as raising NotImplementedError, which is all it does.
- Where the description of `parent_page` and the code differ, the model follows the code: the empty path gives '/'.

## Findings

| source | as written | input that shows it | evidently intended | confidence | as-written member | corrected member |
|---|---|---|---|---|---|---|
| dynamic_content/framework/dchp/parser.py:102-105 | with no declared indentation, `reduce_indent` copies a line-start character into the code and moves to state 42, so a quote there does not open a quoted span | `<?dchp x`, newline, `"?>"?>`: the inner `?>` ends the directive and the next `"` fails at line 2, column 3 | a quote at line start opens a quoted span, as it does anywhere else in code, so the whole directive is `x`, newline, `"?>"` | not executed | DirectiveFinding.QuoteAtLineStartAsWritten | DirectiveFinding.QuoteAtLineStartQuoting |
| dynamic_content/framework/machinery/component.py:89-93 | `__contains__` calls `self[item].get()`, which raises ComponentNotLoaded for an unloaded wrapper instead of returning None | `container[T]` then `T in container` | False for a key with no loaded component | not executed | Components.ContainsRaisesOnPlaceholder | Components.ComponentContainer.ContainsItem |
| dynamic_content/framework/util/parser/elements.py:71-77 | `__setattr__` adds the flag for every bool, False included | `node.k = False` then `node.k` reads True | False removes the flag | not executed | Elements.SetAttrFalseReadsTrue | Elements.SetAttrIntendedRoundTrip |
| dyc/util/parser/html.py:68-70 | `html_q4` uses the undefined name `current` instead of `stack.current` | `<t k >` raises NameError | the flag is recorded on the current element, as the newer grammar does | not executed | OldMarkupParses.BareAttribute | MarkupRuns.FlagSpace |

The old grammar is modelled as written; the newer grammar in
dynamic_content/framework/util/parser/html.py:64-66 carries the intended
`html_q4`. The directive grammar's own parse (`DirectiveGrammar.Parse`)
follows the code as written; the corrected `reduce_indent` is modelled
beside it in `DirectiveFinding`.
