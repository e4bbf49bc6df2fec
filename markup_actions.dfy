/**
 * The actions of the markup grammar, each as a function from the accumulator
 * before to the accumulator after (or to the exception it raises).  The
 * newer grammar and the older one share these; the older one's bare
 * attribute action is in module Accumulator.
 */
module MarkupActions {
  import opened Wrappers
  import opened Strings
  import opened Elements
  import opened Errors
  import opened ParseState

  /** A text buffer that flushes to nothing: empty, or the one collapsed space. */
  predicate Blank(t: seq<string>) {
    t == [] || t == [" "]
  }

  /**
   * flush_text_content: the pending pieces, joined, become a text child of
   * the current node unless they are blank; the buffer is emptied.
   */
  function FlushText(s: Stack): (r: Stack)
    ensures r.textContent == []
    ensures Blank(s.textContent) ==> r.current == s.current
    ensures !Blank(s.textContent) ==> r.current == Append(s.current, Text(Concat(s.textContent)))
    ensures r == s.(textContent := [], current := r.current)
  {
    if Blank(s.textContent) then s.(textContent := [])
    else s.(textContent := [], current := Append(s.current, Text(Concat(s.textContent))))
  }

  /** The tag name the buffer spells, lower-cased. */
  function TagName(buffer: string): string {
    Lower(buffer)
  }

  /**
   * html_q2: the node named by the buffer becomes current, the old current
   * goes on top of the ancestor stack, and the name buffer is emptied.
   */
  function OpenElement(s: Stack): (r: Stack)
    ensures r.element == s.element + [s.current]
    ensures r.current == ByTag(TagName(s.elementName))
    ensures r == s.(element := r.element, current := r.current, elementName := [])
  {
    s.(element := s.element + [s.current], current := ByTag(TagName(s.elementName)), elementName := [])
  }

  /**
   * html_finish_element: the current node is appended to the parent popped
   * from the ancestor stack, which becomes current; an empty stack is an
   * IndexError.
   */
  function FinishElement(s: Stack): (r: Result<Stack, ActionError>)
    ensures r.Err? <==> s.element == []
    ensures r.Err? ==> r.error == RaisedIndexError
    ensures r.Ok? ==> r.value.element == s.element[..|s.element| - 1]
    ensures r.Ok? ==> r.value.current == Append(s.element[|s.element| - 1], Elem(s.current))
    ensures r.Ok? ==> r.value == s.(element := r.value.element, current := r.value.current)
  {
    if s.element == [] then Err(RaisedIndexError)
    else
      var parent := s.element[|s.element| - 1];
      Ok(s.(element := s.element[..|s.element| - 1], current := Append(parent, Elem(s.current))))
  }

  /** finish_if_non_closing: a void element is finished at once; anything else is left open. */
  function FinishIfNonClosing(s: Stack): (r: Result<Stack, ActionError>)
    ensures s.current.tag !in NonClosing ==> r == Ok(s)
    ensures s.current.tag in NonClosing ==> r == FinishElement(s)
  {
    if s.current.tag in NonClosing then FinishElement(s) else Ok(s)
  }

  /** html_q2_1: open the element at `>`, and finish it at once if it is void. */
  function OpenElementFinish(s: Stack): (r: Result<Stack, ActionError>)
    ensures r == FinishIfNonClosing(OpenElement(s))
    ensures TagName(s.elementName) !in NonClosing ==> r == Ok(OpenElement(s))
    ensures TagName(s.elementName) in NonClosing ==>
      r == Ok(s.(elementName := [], current := Append(s.current, Elem(ByTag(TagName(s.elementName))))))
  {
    FinishIfNonClosing(OpenElement(s))
  }

  /** html_q4: the lower-cased attribute name becomes a boolean param of the current node. */
  function RecordFlag(s: Stack): (r: Stack)
    ensures Lower(s.argname) in r.current.params
    ensures forall p :: p in r.current.params <==> p in s.current.params || p == Lower(s.argname)
    ensures r.current == s.current.(params := r.current.params)
    ensures r == s.(current := r.current, argname := [])
  {
    s.(current := s.current.(params := AddFlag(s.current.params, Lower(s.argname))), argname := [])
  }

  /** html_q4_1: record the flag at `>`, and finish the element if it is void. */
  function RecordFlagFinish(s: Stack): (r: Result<Stack, ActionError>)
    ensures r == FinishIfNonClosing(RecordFlag(s))
  {
    FinishIfNonClosing(RecordFlag(s))
  }

  /** html_q6: the value read is stored under the lower-cased attribute name; both buffers are emptied. */
  function RecordValue(s: Stack): (r: Stack)
    ensures Lookup(r.current.valueParams, Lower(s.argname)) == Some(VStr(s.kwargValue))
    ensures forall k :: k != Lower(s.argname) ==> Lookup(r.current.valueParams, k) == Lookup(s.current.valueParams, k)
    ensures r.current == s.current.(valueParams := r.current.valueParams)
    ensures r == s.(current := r.current, argname := [], kwargValue := [])
  {
    s.(current := s.current.(valueParams := Store(s.current.valueParams, Lower(s.argname), VStr(s.kwargValue))),
       argname := [], kwargValue := [])
  }

  /**
   * html_q11: the name buffer is emptied; a closing name different from
   * the current tag is a SyntaxError, otherwise the element is finished.
   */
  function CloseElement(s: Stack): (r: Result<Stack, ActionError>)
    ensures s.current.tag != TagName(s.elementName) ==>
      r == Err(RaisedSyntax(MismatchedClosingTag(s.current.tag, TagName(s.elementName))))
    ensures s.current.tag == TagName(s.elementName) ==> r == FinishElement(s.(elementName := []))
  {
    var name := TagName(s.elementName);
    if s.current.tag != name then Err(RaisedSyntax(MismatchedClosingTag(s.current.tag, name)))
    else FinishElement(s.(elementName := []))
  }

  /** One piece of text goes onto the text buffer. */
  function PushText(s: Stack, piece: string): (r: Stack)
    ensures r.textContent == s.textContent + [piece]
    ensures r == s.(textContent := r.textContent)
  {
    s.(textContent := s.textContent + [piece])
  }

  function PushName(s: Stack, c: char): (r: Stack)
    ensures r == s.(elementName := s.elementName + [c])
  {
    s.(elementName := s.elementName + [c])
  }

  function PushArgName(s: Stack, c: char): (r: Stack)
    ensures r == s.(argname := s.argname + [c])
  {
    s.(argname := s.argname + [c])
  }

  function PushValueChar(s: Stack, c: char): (r: Stack)
    ensures r == s.(kwargValue := s.kwargValue + [c])
  {
    s.(kwargValue := s.kwargValue + [c])
  }
}
