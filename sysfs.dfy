/** The sysfs tree as the topology code reads it through the go-sysfs
    library: each node has a name, the string attributes whose read succeeds,
    the integer attributes whose `ReadInt` succeeds, and its child nodes in
    listing order. The files themselves are not modelled. */
module Sysfs {
  import opened Base
  import opened GoStrings

  datatype Node = Node(
    name: string,
    attrs: map<string, string>,
    ints: map<string, int>,
    children: seq<Node>)

  /** `SubObject(name)`: the child of that name, if there is one. */
  function SubObject(n: Node, name: string): (r: Option<Node>)
    ensures r.Some? ==> r.value in n.children && r.value.name == name
    ensures r.None? <==> forall i :: 0 <= i < |n.children| ==> n.children[i].name != name
  {
    FirstNamed(n.children, name)
  }

  function FirstNamed(nodes: seq<Node>, name: string): (r: Option<Node>)
    ensures r.Some? ==> r.value in nodes && r.value.name == name
    ensures r.None? <==> forall i :: 0 <= i < |nodes| ==> nodes[i].name != name
    decreases |nodes|
  {
    if |nodes| == 0 then None
    else if nodes[0].name == name then Some(nodes[0])
    else
      var r := FirstNamed(nodes[1..], name);
      assert forall i :: 1 <= i < |nodes| ==> nodes[i] == nodes[1..][i - 1];
      r
  }

  /** `SubObjectsFilter(prefix + "*")`: the children whose names start with
      `prefix`, in listing order. */
  function SubObjectsFilter(n: Node, prefix: string): (r: seq<Node>)
    ensures forall x :: x in r <==> x in n.children && HasPrefix(x.name, prefix)
  {
    Filter(n.children, prefix)
  }

  function Filter(nodes: seq<Node>, prefix: string): (r: seq<Node>)
    ensures |r| <= |nodes|
    ensures forall x :: x in r <==> x in nodes && HasPrefix(x.name, prefix)
    decreases |nodes|
  {
    if |nodes| == 0 then []
    else
      var rest := Filter(nodes[1..], prefix);
      assert forall x :: x in nodes <==> x == nodes[0] || x in nodes[1..];
      if HasPrefix(nodes[0].name, prefix) then [nodes[0]] + rest else rest
  }

  /** `Attribute(name).Read()`. */
  function Read(n: Node, attr: string): Option<string>
  {
    if attr in n.attrs then Some(n.attrs[attr]) else None
  }

  /** `Attribute(name).ReadInt()`. */
  function ReadInt(n: Node, attr: string): Option<int>
  {
    if attr in n.ints then Some(n.ints[attr]) else None
  }
}
