/**
 What a mustache template means: a tree of literal text, variables and blocks, rendered against a stack of contexts
 whose last element is the innermost.
 */
module Mustache {
  datatype Context =
    | NullValue
    | False
    | True
    | Number(text: string)
    | Text(s: string)
    | List(items: seq<Context>)
    | Object(members: map<string, Context>)

  /** The result of rendering: the text, or the exception for a context that cannot be shown. */
  datatype Rendered = Shown(text: string) | Failed

  function Join(a: Rendered, b: Rendered): Rendered {
    if a.Shown? && b.Shown? then Shown(a.text + b.text) else Failed
  }

  lemma JoinAssociative(a: Rendered, b: Rendered, c: Rendered)
    ensures Join(Join(a, b), c) == Join(a, Join(b, c))
  {
    if a.Shown? && b.Shown? && c.Shown? {
      assert a.text + b.text + c.text == a.text + (b.text + c.text);
    }
  }

  lemma JoinEmpty(a: Rendered)
    ensures Join(a, Shown("")) == a && Join(Shown(""), a) == a
  {
    if a.Shown? {
      assert a.text + "" == a.text && "" + a.text == a.text;
    }
  }

  // ---- Looking a name up ----

  datatype Lookup = Found(ctx: Context) | Missing

  function SplitDots(name: string): (parts: seq<string>)
    ensures |parts| >= 1
  {
    if name == "" then [""]
    else
      var rest := SplitDots(name[1..]);
      if name[0] == '.' then [""] + rest else [[name[0]] + rest[0]] + rest[1..]
  }

  /** Following the parts of a dotted name down from one context. */
  function Walk(view: Context, parts: seq<string>): Lookup {
    if parts == [] then Found(view)
    else if view.Object? && parts[0] in view.members then Walk(view.members[parts[0]], parts[1..])
    else Missing
  }

  /** The innermost context that has the name; a dotted name in an object block is tried on the innermost only. */
  function FindIn(stack: seq<Context>, parts: seq<string>, onlyTop: bool): Lookup {
    if stack == [] then Missing
    else
      var hit := Walk(stack[|stack| - 1], parts);
      if hit.Found? || (onlyTop && |parts| > 1) then hit
      else FindIn(stack[..|stack| - 1], parts, onlyTop)
  }

  function FindContext(name: string, stack: seq<Context>, onlyTop: bool): Lookup
    requires stack != []
  {
    if name == "." then Found(stack[|stack| - 1]) else FindIn(stack, SplitDots(name), onlyTop)
  }

  // ---- Rendering the tree ----

  /** Every node starts with the literal text in front of its tag; a block ends with the text in front of its
      closing tag. */
  datatype Node =
    | Comment(before: string, text: string)
    | Variable(before: string, name: string, escaped: bool, enclosed: bool)
    | Block(before: string, name: string, inverted: bool, body: seq<Node>, tail: string)

  function EscapeHtmlChar(c: char): string {
    match c
    case '&' => "&amp;"
    case '<' => "&lt;"
    case '>' => "&gt;"
    case '"' => "&quot;"
    case '\'' => "&#39;"
    case '/' => "&#x2F;"
    case '`' => "&#x60;"
    case '=' => "&#x3D;"
    case _ => [c]
  }

  function EscapeHtml(s: string): string {
    if s == "" then "" else EscapeHtmlChar(s[0]) + EscapeHtml(s[1..])
  }

  function RenderValue(hit: Lookup, escaped: bool): Rendered {
    match hit
    case Missing => Shown("")
    case Found(ctx) =>
      match ctx
      case False => Shown("false")
      case True => Shown("true")
      case Number(text) => Shown(text)
      case Text(s) => Shown(if escaped then EscapeHtml(s) else s)
      case _ => Failed
  }

  /** The contexts in which the body of a block is rendered, one after the other; none hides the block. */
  function Instances(hit: Lookup, inverted: bool): seq<Context> {
    if inverted then
      match hit
      case Missing => [NullValue]
      case Found(ctx) =>
        match ctx
        case List(items) => if items == [] then [NullValue] else []
        case False => [NullValue]
        case NullValue => [NullValue]
        case _ => []
    else
      match hit
      case Missing => []
      case Found(ctx) =>
        match ctx
        case List(items) => items
        case False => []
        case NullValue => []
        case _ => [ctx]
  }

  function Render(nodes: seq<Node>, stack: seq<Context>): Rendered
    requires stack != []
    decreases nodes, 0, 0
  {
    if nodes == [] then Shown("") else Join(RenderNode(nodes[0], stack), Render(nodes[1..], stack))
  }

  function RenderNode(n: Node, stack: seq<Context>): Rendered
    requires stack != []
    decreases n, 1, 0
  {
    Join(Shown(n.before),
         match n
         case Comment(_, _) => Shown("")
         case Variable(_, name, escaped, enclosed) =>
           RenderValue(FindContext(name, stack, enclosed && stack[|stack| - 1].Object?), escaped)
         case Block(_, name, inverted, body, tail) =>
           RenderBodies(n, Instances(FindContext(name, stack, false), inverted), stack))
  }

  function RenderBodies(n: Node, instances: seq<Context>, stack: seq<Context>): Rendered
    requires n.Block? && stack != []
    decreases n, 0, |instances|
  {
    if instances == [] then Shown("")
    else Join(Join(Render(n.body, stack + [instances[0]]), Shown(n.tail)), RenderBodies(n, instances[1..], stack))
  }
}
