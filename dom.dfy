/**
 * The page as the pipelines see it: element descriptors, a region whose
 * child list is cleared and refilled, and a select whose option list is
 * edited in place.
 */
module Dom {
  import opened Wrappers

  /** An element's `textContent`: plain text, or a price amount in the form
      the euro formatter prints it. */
  datatype Content = Plain(s: string) | Euros(amount: real)

  /** An element built by `document.createElement`: its tag, its
      `className`, the attribute assignments made on it in order (a name may
      be assigned more than once), its text and its children in append
      order. */
  datatype Node = Node(tag: string, className: string, attrs: seq<(string, string)>,
                       text: Content, children: seq<Node>)

  /** An element that holds only text. */
  function TextElem(tag: string, className: string, text: string): Node {
    Node(tag, className, [], Plain(text), [])
  }

  /** The current value of attribute `name`: what its last assignment set,
      or `''` when it was never assigned. */
  function Attr(n: Node, name: string): string {
    AttrIn(n.attrs, name)
  }

  function AttrIn(attrs: seq<(string, string)>, name: string): string {
    if attrs == [] then ""
    else if attrs[|attrs| - 1].0 == name then attrs[|attrs| - 1].1
    else AttrIn(attrs[..|attrs| - 1], name)
  }

  /** Assigning an attribute replaces its value: the last assignment to
      `name` decides what it reads, whatever came before. */
  lemma {:induction false} AttrLastAssignment(attrs: seq<(string, string)>, name: string, i: nat)
    requires i < |attrs| && attrs[i].0 == name
    requires forall j :: i < j < |attrs| ==> attrs[j].0 != name
    ensures AttrIn(attrs, name) == attrs[i].1
  {
    if i < |attrs| - 1 {
      AttrLastAssignment(attrs[..|attrs| - 1], name, i);
    }
  }

  /** Some child has tag `tag`. */
  predicate HasTag(children: seq<Node>, tag: string) {
    exists i :: 0 <= i < |children| && children[i].tag == tag
  }

  /** A container the pipeline owns: its child list is what `innerHTML`
      assignments and `appendChild` calls change. */
  class Region {
    var children: seq<Node>

    constructor (initial: seq<Node>)
      ensures children == initial
    {
      children := initial;
    }

    /** `innerHTML = ''` */
    method Clear()
      modifies this
      ensures children == []
    {
      children := [];
    }

    /** `innerHTML = '<div ...>...</div>'`: the markup of one element. */
    method SetMarkup(n: Node)
      modifies this
      ensures children == [n]
    {
      children := [n];
    }

    /** `appendChild(n)` */
    method Append(n: Node)
      modifies this
      ensures children == old(children) + [n]
    {
      children := children + [n];
    }
  }

  /** An `<option>`: its text and its `value` attribute, None when the
      attribute is absent. */
  datatype Choice = Choice(text: string, valueAttr: Option<string>)

  /** `new Option(text, value)`, which sets the `value` attribute. */
  function NewOption(text: string, value: string): Choice {
    Choice(text, Some(value))
  }

  /** A `<select>` whose options are removed and appended in place. */
  class Select {
    var options: seq<Choice>

    constructor (initial: seq<Choice>)
      ensures options == initial
    {
      options := initial;
    }

    /** `o.remove()` for the option at position `k`. */
    method RemoveAt(k: nat)
      requires k < |options|
      modifies this
      ensures options == old(options[..k] + options[k + 1..])
    {
      options := options[..k] + options[k + 1..];
    }

    /** `appendChild(o)` */
    method Append(o: Choice)
      modifies this
      ensures options == old(options) + [o]
    {
      options := options + [o];
    }
  }
}
