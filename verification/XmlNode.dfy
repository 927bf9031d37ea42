/** XML elements (pkg/cot/node.go). A nil *Node is None, and reading from it
    gives the empty value. */
module XmlNode {
  import opened Wrappers

  datatype Attr = Attr(name: string, value: string)

  datatype Node = Node(name: string, attrs: seq<Attr>, content: string, nodes: seq<Node>)

  /** The order in which `range` visits the keys of a map. */
  type Order = map<string, string> -> seq<string>

  ghost predicate IsOrder(ord: Order) {
    forall m :: Visits(ord(m), m)
  }

  /** Every key of m, each once. */
  ghost predicate Visits(keys: seq<string>, m: map<string, string>) {
    (forall k :: k in keys <==> k in m) && forall i, j :: 0 <= i < j < |keys| ==> keys[i] != keys[j]
  }

  // ---- reading ----

  function First(nodes: seq<Node>, name: string): Option<Node> {
    if nodes == [] then None
    else if nodes[0].name == name then Some(nodes[0])
    else First(nodes[1..], name)
  }

  function GetFirst(n: Option<Node>, name: string): Option<Node> {
    if n.None? then None else First(n.value.nodes, name)
  }

  predicate Has(n: Option<Node>, name: string) {
    GetFirst(n, name).Some?
  }

  function All(nodes: seq<Node>, name: string): seq<Node> {
    if nodes == [] then []
    else if nodes[0].name == name then [nodes[0]] + All(nodes[1..], name)
    else All(nodes[1..], name)
  }

  function GetAll(n: Option<Node>, name: string): seq<Node> {
    if n.None? then [] else All(n.value.nodes, name)
  }

  /** The first attribute of that name wins. */
  function Value(attrs: seq<Attr>, name: string): string {
    if attrs == [] then ""
    else if attrs[0].name == name then attrs[0].value
    else Value(attrs[1..], name)
  }

  function AttrsAt(n: Option<Node>): seq<Attr> {
    if n.None? then [] else n.value.attrs
  }

  function GetAttr(n: Option<Node>, name: string): string {
    if n.None? then "" else Value(n.value.attrs, name)
  }

  /** GetAttrs as a map; the last attribute of a name wins. */
  function AttrMap(attrs: seq<Attr>): map<string, string> {
    if attrs == [] then map[]
    else AttrMap(attrs[..|attrs| - 1])[attrs[|attrs| - 1].name := attrs[|attrs| - 1].value]
  }

  function DestFor(dests: seq<Node>, name: string): seq<string> {
    if dests == [] then []
    else
      var v := Value(dests[0].attrs, name);
      if v != "" then [v] + DestFor(dests[1..], name) else DestFor(dests[1..], name)
  }

  /** getDestFor: the non-empty values of one attribute of the <dest> children of <marti>. */
  function GetDestFor(n: Option<Node>, name: string): (r: seq<string>)
    ensures "" !in r
  {
    DestForNonEmpty(GetAll(GetFirst(n, "marti"), "dest"), name);
    DestFor(GetAll(GetFirst(n, "marti"), "dest"), name)
  }

  lemma {:induction false} DestForNonEmpty(dests: seq<Node>, name: string)
    ensures "" !in DestFor(dests, name)
  {
    if dests != [] {
      DestForNonEmpty(dests[1..], name);
    }
  }

  // ---- writing ----

  /** The attributes that a loop over params appends, in visiting order; AddChild
      leaves out the empty values. */
  function AttrsOf(params: map<string, string>, keys: seq<string>, keepEmpty: bool): seq<Attr>
    requires forall k <- keys :: k in params
  {
    if keys == [] then []
    else
      var rest := AttrsOf(params, keys[1..], keepEmpty);
      if keepEmpty || params[keys[0]] != "" then [Attr(keys[0], params[keys[0]])] + rest else rest
  }

  ghost function WithChild(nodes: seq<Node>, name: string, params: map<string, string>, text: string,
                           ord: Order): seq<Node>
    requires IsOrder(ord)
  {
    nodes + [Node(name, AttrsOf(params, ord(params), false), text, [])]
  }

  ghost function WithChildOrAttrs(nodes: seq<Node>, name: string, params: map<string, string>, ord: Order): seq<Node>
    requires IsOrder(ord)
  {
    var i := IndexOf(nodes, name);
    if i < |nodes| then nodes[i := nodes[i].(attrs := nodes[i].attrs + AttrsOf(params, ord(params), true))]
    else WithChild(nodes, name, params, "", ord)
  }

  function IndexOf(nodes: seq<Node>, name: string): (i: nat)
    ensures i <= |nodes| && (i < |nodes| ==> nodes[i].name == name)
    ensures forall k :: 0 <= k < i ==> nodes[k].name != name
  {
    if nodes == [] || nodes[0].name == name then 0 else 1 + IndexOf(nodes[1..], name)
  }

  function Without(nodes: seq<Node>, tags: set<string>): seq<Node> {
    if nodes == [] then []
    else if nodes[0].name in tags then Without(nodes[1..], tags)
    else [nodes[0]] + Without(nodes[1..], tags)
  }

  /** An element that is being built or edited in place; its children are values. */
  class Element {
    const name: string
    var attrs: seq<Attr>
    var content: string
    var nodes: seq<Node>

    ghost function AsNode(): Node
      reads this
    {
      Node(name, attrs, content, nodes)
    }

    constructor (name: string, attrs: seq<Attr>, content: string, nodes: seq<Node>)
      ensures AsNode() == Node(name, attrs, content, nodes)
    {
      this.name, this.attrs, this.content, this.nodes := name, attrs, content, nodes;
    }

    method AddChild(name: string, params: map<string, string>, text: string, ord: Order)
      requires IsOrder(ord)
      modifies this`nodes
      ensures nodes == WithChild(old(nodes), name, params, text, ord)
    {
      var attrs := Collect(params, false, ord);
      nodes := nodes + [Node(name, attrs, text, [])];
    }

    method AddOrChangeChild(name: string, params: map<string, string>, ord: Order)
      requires IsOrder(ord)
      modifies this`nodes
      ensures nodes == WithChildOrAttrs(old(nodes), name, params, ord)
    {
      var i := 0;
      while i < |nodes| && nodes[i].name != name
        invariant 0 <= i <= |nodes| && forall k :: 0 <= k < i ==> nodes[k].name != name
      {
        i := i + 1;
      }
      assert i == IndexOf(nodes, name);
      if i < |nodes| {
        var attrs := Collect(params, true, ord);
        nodes := nodes[i := nodes[i].(attrs := nodes[i].attrs + attrs)];
      } else {
        AddChild(name, params, "", ord);
      }
    }

    method RemoveTags(tags: set<string>)
      modifies this`nodes, this`content
      ensures nodes == Without(old(nodes), tags) && content == ""
    {
      var newNodes: seq<Node> := [];
      var i := 0;
      while i < |nodes|
        invariant 0 <= i <= |nodes| && nodes == old(nodes)
        invariant newNodes + Without(nodes[i..], tags) == Without(nodes, tags)
      {
        assert nodes[i..][1..] == nodes[i + 1..];
        if nodes[i].name !in tags {
          Regroup(newNodes, nodes[i], Without(nodes[i + 1..], tags));
          newNodes := newNodes + [nodes[i]];
        }
        i := i + 1;
      }
      assert newNodes + [] == newNodes;
      content := "";
      nodes := newNodes;
    }
  }

  /** The loops over a parameter map in AddChild and AddOrChangeChild. */
  method Collect(params: map<string, string>, keepEmpty: bool, ord: Order) returns (attrs: seq<Attr>)
    requires IsOrder(ord)
    ensures attrs == AttrsOf(params, ord(params), keepEmpty)
  {
    var keys := ord(params);
    assert Visits(keys, params);
    attrs := [];
    var i := 0;
    while i < |keys|
      invariant 0 <= i <= |keys|
      invariant attrs + AttrsOf(params, keys[i..], keepEmpty) == AttrsOf(params, keys, keepEmpty)
    {
      assert keys[i..][1..] == keys[i + 1..];
      if keepEmpty || params[keys[i]] != "" {
        Regroup(attrs, Attr(keys[i], params[keys[i]]), AttrsOf(params, keys[i + 1..], keepEmpty));
        attrs := attrs + [Attr(keys[i], params[keys[i]])];
      }
      i := i + 1;
    }
  }

  lemma {:induction false} Regroup<T>(a: seq<T>, x: T, b: seq<T>)
    ensures a + ([x] + b) == (a + [x]) + b
  {
  }

  // ---- laws ----

  /** Whatever the visiting order, every parameter is read back from a new child. */
  lemma {:induction false} ValueOfAttrs(params: map<string, string>, keys: seq<string>, keepEmpty: bool, k: string)
    requires (forall x <- keys :: x in params) && forall i, j :: 0 <= i < j < |keys| ==> keys[i] != keys[j]
    ensures Value(AttrsOf(params, keys, keepEmpty), k) == if k in keys then params[k] else ""
  {
    if keys != [] {
      var t, a := AttrsOf(params, keys[1..], keepEmpty), Attr(keys[0], params[keys[0]]);
      ValueOfAttrs(params, keys[1..], keepEmpty, k);
      assert k in keys <==> k == keys[0] || k in keys[1..];
      assert ([a] + t)[1..] == t;
      assert keys[0] !in keys[1..];
    }
  }

  lemma {:induction false} NewChildAttr(name: string, params: map<string, string>, text: string, ord: Order, k: string)
    requires IsOrder(ord)
    ensures GetAttr(Some(Node(name, AttrsOf(params, ord(params), false), text, [])), k) == if k in params
            then params[k] else ""
  {
    assert Visits(ord(params), params);
    ValueOfAttrs(params, ord(params), false, k);
  }

  /** The number of different attribute names is at most the number of parameters. */
  lemma {:induction false} AttrNames(params: map<string, string>, keys: seq<string>, keepEmpty: bool)
    requires forall x <- keys :: x in params
    ensures forall a <- AttrsOf(params, keys, keepEmpty) :: a.name in params
  {
    if keys != [] {
      AttrNames(params, keys[1..], keepEmpty);
    }
  }

  lemma {:induction false} AttrMapKeys(attrs: seq<Attr>)
    ensures forall k :: k in AttrMap(attrs) <==> exists i :: 0 <= i < |attrs| && attrs[i].name == k
  {
    if attrs != [] {
      var init := attrs[..|attrs| - 1];
      AttrMapKeys(init);
      forall k ensures k in AttrMap(attrs) <==> exists i :: 0 <= i < |attrs| && attrs[i].name == k {
        if k in AttrMap(init) {
          var i :| 0 <= i < |init| && init[i].name == k;
          assert attrs[i].name == k;
        }
        if i :| 0 <= i < |attrs| && attrs[i].name == k {
          assert i < |init| ==> init[i].name == k;
        }
      }
    }
  }

  predicate NoRepeats(attrs: seq<Attr>) {
    forall i, j :: 0 <= i < j < |attrs| ==> attrs[i].name != attrs[j].name
  }

  /** A loop that keeps empty values appends one attribute for each key. */
  lemma {:induction false} AttrsOfAll(params: map<string, string>, keys: seq<string>)
    requires forall x <- keys :: x in params
    ensures var attrs := AttrsOf(params, keys, true);
            |attrs| == |keys| && forall i :: 0 <= i < |keys| ==> attrs[i] == Attr(keys[i], params[keys[i]])
  {
    if keys != [] {
      AttrsOfAll(params, keys[1..]);
    }
  }

  lemma {:induction false} AttrMapConcat(a: seq<Attr>, b: seq<Attr>)
    ensures AttrMap(a + b) == AttrMap(a) + AttrMap(b)
  {
    if b == [] {
      assert a + b == a;
    } else {
      assert (a + b)[..|a + b| - 1] == a + b[..|b| - 1];
      AttrMapConcat(a, b[..|b| - 1]);
    }
  }

  /** The attributes written for a map, read as a map, are that map. */
  lemma {:induction false} AttrMapOfAll(params: map<string, string>, keys: seq<string>)
    requires Visits(keys, params)
    ensures AttrMap(AttrsOf(params, keys, true)) == params
  {
    var attrs := AttrsOf(params, keys, true);
    AttrsOfAll(params, keys);
    AttrMapDistinct(attrs);
    AttrMapKeys(attrs);
    forall k ensures k in AttrMap(attrs) <==> k in params {
      if k in params {
        var i :| 0 <= i < |keys| && keys[i] == k;
        assert attrs[i].name == k;
      }
    }
    forall k | k in params ensures k in AttrMap(attrs) && AttrMap(attrs)[k] == params[k] {
      var i :| 0 <= i < |keys| && keys[i] == k;
      assert attrs[i].name == k;
    }
  }

  lemma {:induction false} AttrMapDistinct(attrs: seq<Attr>)
    requires NoRepeats(attrs)
    ensures forall i :: 0 <= i < |attrs| ==>
              attrs[i].name in AttrMap(attrs) && AttrMap(attrs)[attrs[i].name] == attrs[i].value
  {
    if attrs != [] {
      var init := attrs[..|attrs| - 1];
      AttrMapDistinct(init);
      forall i | 0 <= i < |attrs|
        ensures attrs[i].name in AttrMap(attrs) && AttrMap(attrs)[attrs[i].name] == attrs[i].value
      {
        assert i < |init| ==> init[i] == attrs[i];
      }
    }
  }

  /** Appending attributes with these different names repeats none exactly when none
      was repeated and none of the names is there already. */
  lemma {:induction false} RepeatsConcat(a: seq<Attr>, b: seq<Attr>, names: seq<string>)
    requires |b| == |names| && forall i :: 0 <= i < |b| ==> b[i].name == names[i]
    requires forall i, j :: 0 <= i < j < |names| ==> names[i] != names[j]
    ensures NoRepeats(a + b) <==> NoRepeats(a) && forall k <- names :: k !in AttrMap(a)
  {
    var c := a + b;
    AttrMapKeys(a);
    if NoRepeats(c) {
      forall i, j | 0 <= i < j < |a| ensures a[i].name != a[j].name {
        assert c[i].name != c[j].name;
      }
      forall k | k in names ensures k !in AttrMap(a) {
        var j :| 0 <= j < |names| && names[j] == k;
        forall i | 0 <= i < |a| ensures a[i].name != k {
          assert c[i].name != c[|a| + j].name;
        }
      }
    }
    if NoRepeats(a) && forall k <- names :: k !in AttrMap(a) {
      forall i, j | 0 <= i < j < |c| ensures c[i].name != c[j].name {
        if i < |a| <= j {
          assert names[j - |a|] in names;
          assert a[i].name in AttrMap(a);
        }
      }
    }
  }

  lemma {:induction false} FirstConcat(a: seq<Node>, b: seq<Node>, name: string)
    ensures First(a + b, name) == if First(a, name).Some? then First(a, name) else First(b, name)
  {
    if a == [] {
      assert a + b == b;
    } else {
      assert (a + b)[1..] == a[1..] + b;
      FirstConcat(a[1..], b, name);
    }
  }

  lemma {:induction false} FirstIs(nodes: seq<Node>, name: string)
    ensures var i := IndexOf(nodes, name); First(nodes, name) == if i < |nodes| then Some(nodes[i]) else None
  {
    if nodes != [] && nodes[0].name != name {
      FirstIs(nodes[1..], name);
    }
  }

  lemma {:induction false} WithoutConcat(a: seq<Node>, b: seq<Node>, tags: set<string>)
    ensures Without(a + b, tags) == Without(a, tags) + Without(b, tags)
  {
    if a == [] {
      assert a + b == b;
    } else {
      assert (a + b)[1..] == a[1..] + b;
      WithoutConcat(a[1..], b, tags);
    }
  }

  /** Without keeps exactly the children with other names, in order. */
  lemma {:induction false} WithoutNone(nodes: seq<Node>, tags: set<string>)
    ensures Without(nodes, tags) == nodes <==> forall n <- nodes :: n.name !in tags
    ensures forall n :: n in Without(nodes, tags) <==> n in nodes && n.name !in tags
    ensures |Without(nodes, tags)| <= |nodes|
  {
    if nodes != [] {
      var rest := nodes[1..];
      WithoutNone(rest, tags);
      assert nodes == [nodes[0]] + rest;
      if nodes[0].name !in tags {
        assert Without(nodes, tags)[1..] == Without(rest, tags);
      }
    }
  }

  lemma {:induction false} FirstWithout(nodes: seq<Node>, tags: set<string>, name: string)
    ensures First(Without(nodes, tags), name) == if name in tags then None else First(nodes, name)
  {
    if nodes != [] {
      FirstWithout(nodes[1..], tags, name);
      assert ([nodes[0]] + Without(nodes[1..], tags))[1..] == Without(nodes[1..], tags);
    }
  }
}
