/** What a row of a table holds: the header's fields, and its cells in their order (src/parser.rs). */
module RowLaws {
  import opened Bytes
  import opened Faults
  import opened Tokens
  import opened Cells
  import opened Header
  import opened Events
  import opened Grammar

  /** The fields are the header's, at every level, all at the row's position. */
  predicate Mirrors(fields: seq<Field>, nodes: seq<FieldNode>, at: Position)
    decreases nodes
  {
    |fields| == |nodes| && (nodes == [] || (MirrorsOne(fields[0], nodes[0], at) && Mirrors(fields[1..], nodes[1..], at)))
  }

  predicate MirrorsOne(field: Field, node: FieldNode, at: Position)
    decreases node
  {
    && field.key == node.name && field.at == at && field.value.at == at
    && if node.children == [] then field.value.Leaf?
       else field.value.Obj? && field.value.kind == Group && Mirrors(field.value.fields, node.children, at)
  }

  /** The scalars of the fields, from left to right. */
  function Scalars(fields: seq<Field>): seq<ScalarToken>
    decreases fields
  {
    if fields == [] then [] else ScalarsIn(fields[0]) + Scalars(fields[1..])
  }

  function ScalarsIn(field: Field): seq<ScalarToken>
    decreases field
  {
    match field.value
    case Leaf(token, _) => [token]
    case Obj(_, fields, _) => Scalars(fields)
    case _ => []
  }

  /** Each cell's text is the scalar. */
  predicate Spells(cells: seq<bytes>, tokens: seq<ScalarToken>, at: Position) {
    |cells| == |tokens| && forall i :: 0 <= i < |cells| ==> ValueToken(cells[i], at) == Ok(tokens[i])
  }

  lemma {:induction false} AsManyScalars(fields: seq<Field>, nodes: seq<FieldNode>, at: Position)
    requires Mirrors(fields, nodes, at)
    ensures |Scalars(fields)| == LeafSum(nodes)
    decreases nodes
  {
    if nodes != [] {
      AsManyIn(fields[0], nodes[0], at);
      AsManyScalars(fields[1..], nodes[1..], at);
    }
  }

  lemma {:induction false} AsManyIn(field: Field, node: FieldNode, at: Position)
    requires MirrorsOne(field, node, at)
    ensures |ScalarsIn(field)| == LeafCount(node)
    decreases node
  {
    if node.children != [] { AsManyScalars(field.value.fields, node.children, at); }
  }

  lemma {:induction false} SpellsConcat(cells: seq<bytes>, n: nat, m: nat, a: seq<ScalarToken>, b: seq<ScalarToken>, at: Position)
    requires |a| == n && |b| == m && n + m <= |cells|
    ensures Spells(cells[..n + m], a + b, at) <==> Spells(cells[..n], a, at) && Spells(cells[n..][..m], b, at)
  {
    hide ValueToken;
    var all := cells[..n + m];
    assert forall i :: 0 <= i < n ==> all[i] == cells[..n][i];
    assert forall i :: 0 <= i < m ==> all[n + i] == cells[n..][..m][i] && (a + b)[n + i] == b[i];
    if Spells(all, a + b, at) {
      forall i | 0 <= i < n ensures ValueToken(cells[..n][i], at) == Ok(a[i]) { assert (a + b)[i] == a[i]; }
      forall i | 0 <= i < m ensures ValueToken(cells[n..][..m][i], at) == Ok(b[i]) {}
    }
    if Spells(cells[..n], a, at) && Spells(cells[n..][..m], b, at) {
      forall i | 0 <= i < n + m ensures ValueToken(all[i], at) == Ok((a + b)[i]) {
        if i >= n { assert all[i] == cells[n..][..m][i - n]; }
      }
    }
  }

  /** The fields of a row are the header's, with the cells as their scalars. */
  lemma {:induction false} FieldsAre(nodes: seq<FieldNode>, cells: seq<bytes>, at: Position, fields: seq<Field>)
    requires |cells| >= LeafSum(nodes)
    ensures RowFields(nodes, cells, at) == Ok(fields) <==> Mirrors(fields, nodes, at) && Spells(cells[..LeafSum(nodes)], Scalars(fields), at)
    decreases nodes
  {
    if nodes == [] {
      assert cells[..0] == [];
    } else if fields != [] {
      var n, m := LeafCount(nodes[0]), LeafSum(nodes[1..]);
      hide Spells, RowField, MirrorsOne, ScalarsIn, RowFields;
      FieldIs(nodes[0], cells, at, fields[0]);
      FieldsAre(nodes[1..], cells[n..], at, fields[1..]);
      RowFieldsSplit(nodes, cells, at, fields);
      if MirrorsOne(fields[0], nodes[0], at) && Mirrors(fields[1..], nodes[1..], at) {
        AsManyIn(fields[0], nodes[0], at);
        AsManyScalars(fields[1..], nodes[1..], at);
        SpellsConcat(cells, n, m, ScalarsIn(fields[0]), Scalars(fields[1..]), at);
      }
    } else {
      RowFieldsSome(nodes, cells, at);
    }
  }

  lemma {:induction false} RowFieldsSome(nodes: seq<FieldNode>, cells: seq<bytes>, at: Position)
    requires nodes != [] && |cells| >= LeafSum(nodes)
    ensures RowFields(nodes, cells, at) != Ok([])
  {
    hide RowField;
  }

  lemma {:induction false} RowFieldsSplit(nodes: seq<FieldNode>, cells: seq<bytes>, at: Position, fields: seq<Field>)
    requires nodes != [] && fields != [] && |cells| >= LeafSum(nodes)
    ensures RowFields(nodes, cells, at) == Ok(fields) <==>
            RowField(nodes[0], cells, at) == Ok(fields[0]) && RowFields(nodes[1..], cells[LeafCount(nodes[0])..], at) == Ok(fields[1..])
  {
    hide RowField;
    var first, others := RowField(nodes[0], cells, at), RowFields(nodes[1..], cells[LeafCount(nodes[0])..], at);
    if first.Ok? && others.Ok? {
      assert ([first.value] + others.value)[0] == first.value && ([first.value] + others.value)[1..] == others.value;
      assert fields == [fields[0]] + fields[1..];
    }
  }

  lemma {:induction false} FieldIs(node: FieldNode, cells: seq<bytes>, at: Position, field: Field)
    requires |cells| >= LeafCount(node)
    ensures RowField(node, cells, at) == Ok(field) <==> MirrorsOne(field, node, at) && Spells(cells[..LeafCount(node)], ScalarsIn(field), at)
    decreases node
  {
    hide ValueToken;
    if node.children == [] {
      assert cells[..1] == [cells[0]];
    } else if field.value.Obj? {
      FieldsAre(node.children, cells, at, field.value.fields);
      hide Spells, Mirrors, Scalars, RowFields;
    }
  }

  /** A row is accepted exactly when its line has a cell for every scalar of the header, and is the object of the
      header's fields with the cells as scalars. */
  lemma {:induction false} RowIs(header: Header, content: bytes, at: Position, tree: Tree)
    ensures RowObject(header, content, at) == Ok(tree) <==>
            && tree.Obj? && tree.kind == Row && tree.at == at && Mirrors(tree.fields, header.fields, at)
            && Spells(SplitCells(content, header.delimiter), Scalars(tree.fields), at)
    ensures |SplitCells(content, header.delimiter)| != LeafSum(header.fields) ==>
              RowObject(header, content, at) == Err(Fault(WrongRowWidth, at.line, Some(at.column), false))
  {
    var cells := SplitCells(content, header.delimiter);
    hide SplitCells, RowFields, Mirrors, Scalars;
    if tree.Obj? {
      if Mirrors(tree.fields, header.fields, at) { AsManyScalars(tree.fields, header.fields, at); }
      if |cells| == LeafSum(header.fields) {
        FieldsAre(header.fields, cells, at, tree.fields);
        assert cells[..|cells|] == cells;
      }
    }
  }

  /** The scalars of the header. */
  function LeafNames(nodes: seq<FieldNode>): seq<StringToken>
    decreases nodes
  {
    if nodes == [] then []
    else (if nodes[0].children == [] then [nodes[0].name] else LeafNames(nodes[0].children)) + LeafNames(nodes[1..])
  }

  lemma {:induction false} LeavesAreCounted(nodes: seq<FieldNode>)
    ensures LeafSum(nodes) == |LeafNames(nodes)|
    decreases nodes
  {
    if nodes != [] {
      LeavesAreCounted(nodes[0].children);
      LeavesAreCounted(nodes[1..]);
    }
  }
}
