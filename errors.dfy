/**
 * The exceptions the parsing engine can end with.  Python raises them; the
 * model returns them as values.
 */
module Errors {

  /** What a SyntaxError raised while scanning says went wrong. */
  datatype SyntaxReason =
    | NoMatchingEdge(c: char)
    | MismatchedClosingTag(expected: string, found: string)
    | UnexpectedDirectiveName(name: string)
    | IndentationMismatch(expectedIndent: int, foundIndent: int)

  /** An exception raised inside an edge action. */
  datatype ActionError =
    | RaisedSyntax(reason: SyntaxReason)  // caught by the driver and re-raised with the position
    | RaisedIndexError                    // pop from an empty ancestor list; not caught
    | RaisedNameError                     // a reference to an undefined name; not caught

  /** The exception a whole parse ends with. */
  datatype ParseError =
    | MissingStartState            // KeyError: the automaton has no state 0
    | SyntaxAt(line: int, col: int, reason: SyntaxReason)
    | UnknownState(head: int)      // SyntaxError naming the edge's head state
    | NotImplemented               // the indeterministic driver
    | UnknownAutomatonType         // KeyError from the driver table
    | Unterminated                 // SyntaxError: the parse did not end at the root
    | IndexError                   // from an action, or from taking a missing top-level item
    | AttributeError               // a top-level text item has no tag
    | TypeError                    // a doctype not followed by an html element
    | NameError                    // from an action of the older grammar

  function Propagate(e: ActionError): ParseError
    requires !e.RaisedSyntax?
  {
    if e.RaisedIndexError? then IndexError else NameError
  }

  /** The error an exception raised by an edge action becomes, seen at the given position. */
  function FromAction(e: ActionError, line: int, col: int): (r: ParseError)
    ensures e.RaisedSyntax? ==> r == SyntaxAt(line, col, e.reason)
    ensures e.RaisedIndexError? ==> r == IndexError
    ensures e.RaisedNameError? ==> r == NameError
  {
    if e.RaisedSyntax? then SyntaxAt(line, col, e.reason) else Propagate(e)
  }
}
