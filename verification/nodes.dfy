/** Nodes (Node.py): a node is an instance of a catalog type that owns its
    own copy of the type's schema and one pin per schema entry. */
module Nodes {
  import opened Types
  import opened Pins

  /** Canvas coordinates, carried through unchanged. */
  datatype Position = Position(x: real, y: real)

  /** A node: its display title, its own schema copy, its pins in schema
      order, and where it sits. */
  datatype Node = Node(title: string, info: NodeInfo, inputs: seq<Pin>, outputs: seq<Pin>, pos: Position)

  /** Pins for a schema list, created in index order, with the schema list
      as the pins leave it (dynamic entries resolved). */
  function SetupPins(specs: seq<PinSpec>): (r: (seq<Pin>, seq<PinSpec>))
    ensures |r.0| == |specs| && |r.1| == |specs|
    ensures forall i :: 0 <= i < |specs| ==> (r.0[i], r.1[i]) == NewPin(specs[i])
    ensures forall i :: 0 <= i < |specs| ==> r.0[i].kind == r.1[i].kind && !r.0[i].connected && r.0[i].conns == []
    ensures forall i :: 0 <= i < |specs| && !(specs[i].editable && specs[i].kind == Dynamic) ==>
              r.1[i] == specs[i] && r.0[i].kind == specs[i].kind
  {
    if specs == [] then ([], [])
    else
      var head := NewPin(specs[0]);
      var tail := SetupPins(specs[1..]);
      ([head.0] + tail.0, [head.1] + tail.1)
  }

  /** A node whose pins match its own schema copy, entry by entry. */
  predicate Shaped(n: Node)
  {
    && |n.inputs| == |n.info.input|
    && |n.outputs| == |n.info.output|
    && (forall i :: 0 <= i < |n.inputs| ==> n.inputs[i].kind == n.info.input[i].kind)
    && (forall i :: 0 <= i < |n.outputs| ==> n.outputs[i].kind == n.info.output[i].kind)
  }

  /** `Node(name, x, y)`: look the type up in the catalog (a missing type
      raises), build one pin per schema entry, and show the type's label. */
  function CreateNode(cat: Catalog, typeName: string, pos: Position): (r: Option<Node>)
    ensures r.Some? <==> typeName in cat
    ensures r.Some? ==> Shaped(r.value)
    ensures r.Some? ==>
              var info := cat[typeName];
              var n := r.value;
              && n.title == info.zhName
              && n.info.nodeName == info.nodeName && n.info.zhName == info.zhName
              && |n.inputs| == |info.input| && |n.outputs| == |info.output|
              && n.pos == pos
              && (forall i :: 0 <= i < |info.input| ==> (n.inputs[i], n.info.input[i]) == NewPin(info.input[i]))
              && (forall i :: 0 <= i < |info.output| ==> (n.outputs[i], n.info.output[i]) == NewPin(info.output[i]))
  {
    if typeName !in cat then None
    else
      var info := cat[typeName];
      var ins := SetupPins(info.input);
      var outs := SetupPins(info.output);
      Some(Node(info.zhName, info.(input := ins.1, output := outs.1), ins.0, outs.0, pos))
  }
}
