/** The tokens an event carries: slices of the source, quoted ones still escaped. */
module Tokens {
  import opened Bytes

  datatype StringToken = Bare(text: bytes) | Quoted(inner: bytes, escaped: bool)

  datatype ScalarToken =
    | NullToken
    | BoolToken(flag: bool)
    | IntegerToken(text: bytes)
    | FloatToken(text: bytes)
    | BareString(text: bytes)
    | QuotedString(inner: bytes, escaped: bool)

  /** One field of a tabular header: a node without children consumes one cell of every row. */
  datatype FieldNode = FieldNode(name: StringToken, children: seq<FieldNode>)

  function LeafCount(node: FieldNode): (n: nat)
    ensures node.children == [] ==> n == 1
    decreases node
  {
    if node.children == [] then 1 else LeafSum(node.children)
  }

  function LeafSum(nodes: seq<FieldNode>): nat
    decreases nodes
  {
    if nodes == [] then 0 else LeafCount(nodes[0]) + LeafSum(nodes[1..])
  }

  /** Levels of nested field groups. */
  function GroupDepth(nodes: seq<FieldNode>): nat
    decreases nodes
  {
    if nodes == [] then 0
    else Max(1 + GroupDepth(nodes[0].children), GroupDepth(nodes[1..]))
  }

  function Max(a: nat, b: nat): nat {
    if a < b then b else a
  }
}
