/**
 * The accumulator the grammars' actions work on, as a value: the ancestor
 * stack, the node being built, the character buffers of the markup grammar
 * and the buffers and counters of the directive grammar.
 */
module ParseState {
  import opened Elements

  datatype Stack = Stack(
    element: seq<Node>,          // the ancestors of `current`, outermost first
    elementName: string,         // tag name read so far
    argname: string,             // attribute name read so far
    kwargValue: string,          // attribute value read so far
    textContent: seq<string>,    // pending text pieces, joined on flush
    current: Node,               // the node whose content is being read
    dchpContent: string,         // directive code read so far
    dchpElementName: string,     // directive name read so far
    dchpIndent: int,             // declared indentation of the directive body
    dchpActiveIndent: int)       // indentation still to be consumed on this line

  /** A fresh accumulator whose current node is the given root. */
  function Fresh(root: Node): (s: Stack)
    ensures s.current == root && s.element == []
    ensures s.elementName == [] && s.argname == [] && s.kwargValue == [] && s.textContent == []
    ensures s.dchpContent == [] && s.dchpElementName == [] && s.dchpIndent == 0 && s.dchpActiveIndent == 0
  {
    Stack([], [], [], [], [], root, [], [], 0, 0)
  }

  /** The markup buffers are all empty. */
  predicate BuffersEmpty(s: Stack) {
    s.elementName == [] && s.argname == [] && s.kwargValue == [] && s.textContent == []
  }
}
