/**
 A namespace of nodes that grows on demand. A node keeps a payload in its data slot and
 any number of named children in its instance dictionary; reading a missing name creates
 an empty child, assigning to a name installs a fresh child wrapping the value.
 */
module Namespace {
  import opened InstanceDict

  /** What get_tree returns: None for a node without children, otherwise a dictionary. */
  datatype Tree = Nothing | Dict(entries: map<string, Tree>)

  /**
   Every node allocated so far, in allocation order. It holds no data of the program: it is
   the bookkeeping that shows the children graph is a tree. Each node is numbered when it is
   built, and a child is always built after the node it is installed under.
   */
  class World<T> {
    ghost var nodes: set<Node<T>>
    ghost var count: nat

    ghost predicate Valid()
      reads this, nodes
    {
      forall n {:trigger Linked(n)} :: n in nodes ==> Linked(n)
    }

    /**
     A node of this world: numbered below the counter, shaped, and every child of it a
     later node of this world that records it as its parent under that name.
     */
    ghost predicate Linked(n: Node<T>)
      reads this, nodes, n
    {
      && n.world == this
      && n.index < count
      && Shaped(n.dict)
      && NamesAllowed(n.dict)
      && forall k <- n.dict :: k != DATA_KEY ==>
           var c := n.dict[k].node;
           c in nodes && n.index < c.index && c.parent == n && c.slot == k
    }

    constructor ()
      ensures Valid() && nodes == {}
    {
      nodes := {};
      count := 0;
    }
  }

  class Node<T> {
    /** The instance dictionary: the data slot and the children. */
    var dict: map<string, Slot<T, Node<T>>>

    ghost const world: World<T>
    /** Position of this node in allocation order. */
    ghost const index: nat
    /** The node and name this node was last installed under. */
    ghost var parent: Node?<T>
    ghost var slot: string

    ghost predicate Valid()
      reads this, world, world.nodes
    {
      this in world.nodes && world.Valid() && Shaped(dict)
    }

    /** `Node(value)`; `Node()` is `Node(None)`. */
    constructor (value: Option<T>, ghost w: World<T>)
      requires w.Valid()
      modifies w
      ensures Valid() && world == w && parent == null
      ensures dict == Initial(value)
      ensures GetData() == value && Children() == map[]
      ensures w.nodes == old(w.nodes) + {this} && index == old(w.count)
    {
      dict := Initial(value);
      world := w;
      index := w.count;
      parent := null;
      slot := "";
      new;
      label built:
      InitialShape<T, Node<T>>(value);
      w.nodes := w.nodes + {this};
      w.count := w.count + 1;
      forall m | m in w.nodes
        ensures w.Linked(m)
      {
        if m != this {
          assert old@built(w.Linked(m));
        }
      }
    }

    /** The payload in the data slot. */
    function GetData(): (r: Option<T>)
      reads this
      requires Shaped(dict)
      ensures dict[DATA_KEY] == DataSlot(r)
    {
      dict[DATA_KEY].value
    }

    /** The children by name: the instance dictionary without its data slot. */
    function Children(): map<string, Node<T>>
      reads this
    {
      ChildrenOf(dict)
    }

    /** Store a payload; the children stay as they are. */
    method SetData(value: Option<T>)
      requires Valid()
      modifies this
      ensures Valid()
      ensures dict == old(dict)[DATA_KEY := DataSlot(value)]
      ensures GetData() == value && Children() == old(Children())
    {
      label before:
      StoreData(dict, value);
      dict := dict[DATA_KEY := DataSlot(value)];
      forall m | m in world.nodes
        ensures world.Linked(m)
      {
        assert old@before(world.Linked(m));
      }
    }

    /** What the invariant says of each child: a later node of the same world that points back here. */
    lemma ChildFacts()
      requires Valid()
      ensures index < world.count
      ensures forall k <- Children() ::
        var c := Children()[k];
        c.Valid() && c.world == world && index < c.index && c.parent == this && c.slot == k
    {
      assert world.Linked(this);
      ChildKeys(dict);
      forall k <- Children()
        ensures var c := Children()[k];
          c.Valid() && c.world == world && index < c.index && c.parent == this && c.slot == k
      {
        var c := Children()[k];
        assert dict[k] == ChildSlot(c);
        assert world.Linked(c);
      }
    }

    /**
     `object.__setattr__(self, name, node)` for a node not yet installed anywhere: bind the
     name to it, replacing whatever the name held.
     */
    method Install(name: string, node: Node<T>)
      requires Valid() && IsChildName(name)
      requires node in world.nodes && node.parent == null && node != this && index < node.index
      modifies this, node
      ensures Valid() && node.Valid()
      ensures dict == old(dict)[name := ChildSlot(node)]
      ensures node.dict == old(node.dict) && node.parent == this && node.slot == name
    {
      label before:
      InstallChild(dict, name, node);
      node.parent := this;
      node.slot := name;
      dict := dict[name := ChildSlot(node)];
      forall m | m in world.nodes
        ensures world.Linked(m)
      {
        assert old@before(world.Linked(m));
        if m != this && m != node {
          forall k | k in m.dict && k != DATA_KEY
            ensures m.dict[k].node != node
          {
            assert old@before(m.dict[k].node.parent) == m;
          }
        } else if m == this {
          forall k | k in dict && k != DATA_KEY && k != name
            ensures dict[k].node != node
          {
            assert old@before(dict[k].node.parent) == this;
          }
        }
      }
    }

    /** `node.name = value`: wrap the value in a fresh node and install it under the name. */
    method SetChild(name: string, value: Option<T>)
      requires Valid() && IsChildName(name)
      modifies this, world
      ensures Valid()
      ensures name in Children()
      ensures var c := Children()[name];
        && fresh(c) && c.Valid() && c.world == world
        && c.GetData() == value && c.Children() == map[]
      ensures dict == old(dict)[name := ChildSlot(Children()[name])]
      ensures Children() == old(Children())[name := Children()[name]]
      ensures GetData() == old(GetData())
      ensures world.nodes == old(world.nodes) + {Children()[name]}
    {
      assert world.Linked(this);
      var node := new Node(value, world);
      Install(name, node);
      InstallChild(old(dict), name, node);
    }

    /**
     `node.name`: the child under the name if there is one, otherwise a fresh empty child,
     installed under the name.
     */
    method GetChild(name: string) returns (child: Node<T>)
      requires Valid() && IsChildName(name)
      modifies this, world
      ensures Valid() && child.Valid() && child.world == world
      ensures name in Children() && Children()[name] == child
      ensures old(name in Children()) ==>
        old(Children()[name]) == child && dict == old(dict) && unchanged(world)
      ensures old(name !in Children()) ==>
        && fresh(child) && child.GetData() == None && child.Children() == map[]
        && dict == old(dict)[name := ChildSlot(child)]
        && Children() == old(Children())[name := child]
        && world.nodes == old(world.nodes) + {child}
    {
      if name in dict {
        child := dict[name].node;
        ChildKeys(dict);
        ChildFacts();
        assert name in Children() && Children()[name] == child;
      } else {
        assert world.Linked(this);
        child := new Node(None, world);
        Install(name, child);
        InstallChild(old(dict), name, child);
      }
    }

    /** `len(node)`: the size of the instance dictionary less the data slot. */
    function Len(): (r: nat)
      reads this
      requires Shaped(dict)
      ensures r == |Children()|
    {
      SizeCountsDataSlot(dict);
      |dict| - 1
    }

    /** `iter(node)`: every entry of the instance dictionary except the data slot, in no fixed order. */
    method Iter() returns (subnodes: seq<Node<T>>)
      requires Valid()
      ensures |subnodes| == Len()
      ensures forall c :: c in subnodes <==> c in Children().Values
      ensures forall i, j :: 0 <= i < j < |subnodes| ==> subnodes[i] != subnodes[j]
      ensures this !in subnodes
    {
      subnodes := [];
      ghost var names: seq<string> := [];
      var pending := dict.Keys;
      while pending != {}
        invariant pending <= dict.Keys
        invariant |subnodes| == |names|
        invariant forall i :: 0 <= i < |names| ==>
          && names[i] in dict && names[i] != DATA_KEY && names[i] !in pending
          && subnodes[i] == dict[names[i]].node
        invariant forall k :: k in dict && k != DATA_KEY && k !in pending ==> k in names
        invariant forall i, j :: 0 <= i < j < |names| ==> names[i] != names[j]
        decreases pending
      {
        var name :| name in pending;
        if name != DATA_KEY {
          subnodes := subnodes + [dict[name].node];
          names := names + [name];
        }
        pending := pending - {name};
      }
      ChildKeys(dict);
      ListedKeysCount(names, Children().Keys);
      ListsChildren(names, subnodes);
    }

    /** A duplicate-free list of all child names gives, child by child, every child exactly once. */
    lemma ListsChildren(names: seq<string>, subnodes: seq<Node<T>>)
      requires Valid() && |subnodes| == |names|
      requires forall i :: 0 <= i < |names| ==> names[i] in Children() && subnodes[i] == Children()[names[i]]
      requires forall k <- Children() :: k in names
      requires forall i, j :: 0 <= i < j < |names| ==> names[i] != names[j]
      ensures forall c :: c in subnodes <==> c in Children().Values
      ensures forall i, j :: 0 <= i < j < |subnodes| ==> subnodes[i] != subnodes[j]
      ensures this !in subnodes
    {
      ChildFacts();
      forall c | c in Children().Values
        ensures c in subnodes
      {
        var k :| k in Children() && Children()[k] == c;
        var i :| 0 <= i < |names| && names[i] == k;
        assert subnodes[i] == c;
      }
    }

    /** `node.children_as_dictionary()`: a copy of the instance dictionary without the data slot. */
    method ChildrenAsDictionary() returns (dct: map<string, Node<T>>)
      requires Shaped(dict)
      ensures dct.Keys == dict.Keys - {DATA_KEY}
      ensures forall k <- dct :: dict[k] == ChildSlot(dct[k])
      ensures dct == Children()
    {
      dct := map[];
      var pending := dict.Keys;
      while pending != {}
        invariant pending <= dict.Keys
        invariant dct.Keys == (dict.Keys - pending) - {DATA_KEY}
        invariant forall k <- dct :: dict[k] == ChildSlot(dct[k])
        decreases pending
      {
        var name :| name in pending;
        if name != DATA_KEY {
          dct := dct[name := dict[name].node];
        }
        pending := pending - {name};
      }
      ChildKeys(dict);
    }

    /**
     `node.get_tree()`: None when the node has no children, whatever its data slot holds;
     otherwise a dictionary from each child's name to that child's tree.
     */
    function GetTree(): (t: Tree)
      reads this, world, world.nodes
      requires Valid()
      ensures t.Nothing? <==> Len() == 0
      ensures t.Dict? ==> t.entries.Keys == Children().Keys
      decreases world.count - index
    {
      ChildFacts();
      if Len() == 0 then Nothing
      else Dict(map k | k in Children() :: Children()[k].GetTree())
    }
  }

  /** The node reached from `n` by reading the names of `path` one after the other, if each exists. */
  ghost function Walk<T>(n: Node<T>, path: seq<string>): (r: Option<Node<T>>)
    reads n, n.world, n.world.nodes
    requires n.Valid()
    ensures r.Some? ==> r.value.Valid() && r.value.world == n.world
    decreases |path|
  {
    n.ChildFacts();
    if path == [] then Some(n)
    else if path[0] in n.Children() then Walk(n.Children()[path[0]], path[1..])
    else None
  }

  /** The subtree of an exported tree at a path of names, if the path exists in it. */
  function Lookup(t: Tree, path: seq<string>): Option<Tree>
    decreases |path|
  {
    if path == [] then Some(t)
    else match t
      case Nothing => None
      case Dict(entries) =>
        if path[0] in entries then Lookup(entries[path[0]], path[1..]) else None
  }

  /**
   The export of a node holds, at every path, exactly the export of the node found by
   walking that path; and a path that leads to no node is absent from the export.
   */
  lemma {:induction false} ExportAlongPath<T>(n: Node<T>, path: seq<string>)
    requires n.Valid()
    ensures Lookup(n.GetTree(), path) ==
      if Walk(n, path).Some? then Some(Walk(n, path).value.GetTree()) else None
    decreases |path|
  {
    n.ChildFacts();
    if path != [] {
      if path[0] in n.Children() {
        ExportAlongPath(n.Children()[path[0]], path[1..]);
      }
    }
  }

  /**
   Along any chain of parent-to-child steps the nodes were allocated in increasing order,
   so no chain visits a node twice: the children graph has no cycle.
   */
  lemma {:induction false} ChainsAscend<T>(w: World<T>, chain: seq<Node<T>>)
    requires w.Valid() && |chain| >= 1 && chain[0] in w.nodes
    requires forall i :: 0 < i < |chain| ==> chain[i] in chain[i - 1].Children().Values
    ensures forall i :: 0 <= i < |chain| ==> chain[i] in w.nodes
    ensures forall i, j :: 0 <= i < j < |chain| ==> chain[i].index < chain[j].index
    ensures forall i, j :: 0 <= i < j < |chain| ==> chain[i] != chain[j]
    decreases |chain|
  {
    if |chain| > 1 {
      var m := |chain| - 1;
      ChainsAscend(w, chain[..m]);
      assert chain[m - 1] == chain[..m][m - 1];
      var p := chain[m - 1];
      assert w.Linked(p);
      p.ChildFacts();
      assert chain[m] in p.Children().Values;
      var k :| k in p.Children() && p.Children()[k] == chain[m];
    }
  }

  /** No node is held under two names, nor under two parents: the children graph is a tree. */
  lemma SingleParent<T>(w: World<T>, p: Node<T>, q: Node<T>, a: string, b: string)
    requires w.Valid() && p in w.nodes && q in w.nodes
    requires a in p.Children() && b in q.Children() && p.Children()[a] == q.Children()[b]
    ensures p == q && a == b
  {
    assert w.Linked(p) && w.Linked(q);
    p.ChildFacts();
    q.ChildFacts();
  }

  /** A node's exported tree is assembled from its children's exported trees, name by name. */
  lemma TreeFromChildTrees<T>(n: Node<T>, m: map<string, Tree>)
    requires n.Valid() && n.Children() != map[] && n.Children().Keys == m.Keys
    requires forall k <- m :: n.Children()[k].Valid() && n.Children()[k].GetTree() == m[k]
    ensures n.GetTree() == Dict(m)
  {
    n.ChildFacts();
    var e := map k | k in n.Children() :: n.Children()[k].GetTree();
    assert e == m;
  }
}
