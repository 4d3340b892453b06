/**
 Client programs that build namespaces the way the repository's docstring and tests do,
 and what the model proves they observe.
 */
module Scenarios {
  import opened InstanceDict
  import opened Namespace

  /** `Node(v)`: the data reads back as `v`; no children, nothing to iterate, no tree. */
  method Construct<T>(v: Option<T>) returns (data: Option<T>, subnodes: seq<Node<T>>, len: nat, tree: Tree)
    ensures data == v && subnodes == [] && len == 0 && tree == Nothing
  {
    var w := new World<T>();
    var node := new Node(v, w);
    subnodes := node.Iter();
    data := node.GetData();
    len := node.Len();
    tree := node.GetTree();
  }

  /** `Node(v).set_data(u)`: the data reads back as `u`. */
  method Reassign<T>(v: Option<T>, u: Option<T>) returns (data: Option<T>)
    ensures data == u
  {
    var w := new World<T>();
    var node := new Node(v, w);
    node.SetData(u);
    data := node.GetData();
  }

  /** `node.a = 5; node.a.get_data()`: the assigned value sits in the child's data slot. */
  method AssignThenRead() returns (data: Option<int>)
    ensures data == Some(5)
  {
    var w := new World<int>();
    var node := new Node(None, w);
    node.SetChild("a", Some(5));
    var a := node.GetChild("a");
    data := a.GetData();
  }

  /** node.a = 1; node.b = 2; node.c = 3 on a fresh node. */
  method BuildThree() returns (node: Node<int>, a: Node<int>, b: Node<int>, c: Node<int>)
    ensures fresh(node) && fresh(node.world) && node.Valid()
    ensures node.Children() == map["a" := a, "b" := b, "c" := c]
  {
    PlainChildName("a"); PlainChildName("b"); PlainChildName("c");
    var w := new World<int>();
    node := new Node(None, w);
    node.SetChild("a", Some(1));
    a := node.Children()["a"];
    node.SetChild("b", Some(2));
    b := node.Children()["b"];
    node.SetChild("c", Some(3));
    c := node.Children()["c"];
  }

  /** `node.a`, `node.b`, `node.c` on a node that has these children: the children themselves, nothing changed. */
  method ReadThree(node: Node<int>) returns (a: Node<int>, b: Node<int>, c: Node<int>)
    requires node.Valid() && node.Children().Keys == {"a", "b", "c"}
    modifies node, node.world
    ensures node.dict == old(node.dict)
    ensures a == node.Children()["a"] && b == node.Children()["b"] && c == node.Children()["c"]
  {
    PlainChildName("a"); PlainChildName("b"); PlainChildName("c");
    a := node.GetChild("a");
    b := node.GetChild("b");
    c := node.GetChild("c");
  }

  /**
   Three assigned children: `len` is 3, iteration yields exactly `node.a`, `node.b` and `node.c`
   and never the node, and the children dictionary maps each name to the node read under it.
   */
  method ThreeChildren()
      returns (node: Node<int>, subnodes: seq<Node<int>>, dct: map<string, Node<int>>, len: nat,
               a: Node<int>, b: Node<int>, c: Node<int>)
    ensures len == 3 && |subnodes| == 3
    ensures forall x :: x in subnodes <==> x == a || x == b || x == c
    ensures node !in subnodes
    ensures dct == map["a" := a, "b" := b, "c" := c]
  {
    var a0, b0, c0;
    node, a0, b0, c0 := BuildThree();
    subnodes := node.Iter();
    dct := node.ChildrenAsDictionary();
    len := node.Len();
    a, b, c := ReadThree(node);
  }

  /** `node.name` read twice gives the same node both times. */
  method ReadTwice<T>(node: Node<T>, name: string) returns (first: Node<T>, second: Node<T>)
    requires node.Valid() && IsChildName(name)
    modifies node, node.world
    ensures first == second && node.Valid()
    ensures node.Children() == old(node.Children())[name := first]
  {
    first := node.GetChild(name);
    second := node.GetChild(name);
  }

  /**
   `Node.ChildFacts` for one named child. Calling it instead of `ChildFacts` keeps the
   quantifier over all children out of the proofs below.
   */
  lemma ChildValid<T>(n: Node<T>, k: string)
    requires n.Valid() && k in n.Children()
    ensures n.Children()[k].Valid()
  {
    n.ChildFacts();
  }

  /** The export of a node with exactly one child. */
  lemma TreeOfOneChild<T>(n: Node<T>, k: string, c: Node<T>)
    requires n.Valid() && n.Children() == map[k := c]
    ensures c.Valid() && n.GetTree() == Dict(map[k := c.GetTree()])
  {
    ChildValid(n, k);
    TreeFromChildTrees(n, map[k := c.GetTree()]);
  }

  /** The export of a node with exactly two children. */
  lemma TreeOfTwoChildren<T>(n: Node<T>, k1: string, c1: Node<T>, k2: string, c2: Node<T>)
    requires n.Valid() && k1 != k2 && n.Children() == map[k1 := c1, k2 := c2]
    ensures c1.Valid() && c2.Valid()
    ensures n.GetTree() == Dict(map[k1 := c1.GetTree(), k2 := c2.GetTree()])
  {
    ChildValid(n, k1);
    ChildValid(n, k2);
    var m := map[k1 := c1.GetTree(), k2 := c2.GetTree()];
    assert m.Keys == n.Children().Keys;
    TreeFromChildTrees(n, m);
  }

  /** The export of a node whose one child has no children. */
  lemma OneLeaf<T>(n: Node<T>, k: string, c: Node<T>)
    requires n.Valid() && n.Children() == map[k := c] && c.Children() == map[]
    ensures n.GetTree() == Dict(map[k := Nothing])
  {
    TreeOfOneChild(n, k, c);
  }

  /** The export of a node whose two children have no children. */
  lemma TwoLeaves<T>(n: Node<T>, k1: string, c1: Node<T>, k2: string, c2: Node<T>)
    requires n.Valid() && k1 != k2 && n.Children() == map[k1 := c1, k2 := c2]
    requires c1.Children() == map[] && c2.Children() == map[]
    ensures n.GetTree() == Dict(map[k1 := Nothing, k2 := Nothing])
  {
    TreeOfTwoChildren(n, k1, c1, k2, c2);
  }

  /**
   root.parent1.child1 = 1; root.parent1.child2 = 2; root.parent2 = 3: the exported tree has
   the two children under parent1, and None wherever a node has no children.
   */
  method ExportTwoLevels() returns (tree: Tree)
    ensures tree == Dict(map[
      "parent1" := Dict(map["child1" := Nothing, "child2" := Nothing]),
      "parent2" := Nothing])
  {
    var root, p1, p2, c1, c2 := BuildTwoLevels();
    TwoLevelExport(root, p1, p2, c1, c2);
    tree := root.GetTree();
  }

  /** The statements of the tree test that build its namespace. */
  method BuildTwoLevels() returns (root: Node<int>, p1: Node<int>, p2: Node<int>, c1: Node<int>, c2: Node<int>)
    ensures root.Valid()
    ensures root.Children() == map["parent1" := p1, "parent2" := p2]
    ensures p1.Children() == map["child1" := c1, "child2" := c2]
    ensures c1.Children() == map[] && c2.Children() == map[] && p2.Children() == map[]
  {
    PlainChildName("parent2");
    var w := new World<int>();
    root := new Node(None, w);
    p1, c1, c2 := FillParent1(root);
    root.SetChild("parent2", Some(3));
    p2 := root.Children()["parent2"];
  }

  /** The export of a root with two children, the first of which has two childless children. */
  lemma TwoLevelExport<T>(root: Node<T>, p1: Node<T>, p2: Node<T>, c1: Node<T>, c2: Node<T>)
    requires root.Valid()
    requires root.Children() == map["parent1" := p1, "parent2" := p2]
    requires p1.Children() == map["child1" := c1, "child2" := c2]
    requires c1.Children() == map[] && c2.Children() == map[] && p2.Children() == map[]
    ensures root.GetTree() == Dict(map[
      "parent1" := Dict(map["child1" := Nothing, "child2" := Nothing]),
      "parent2" := Nothing])
  {
    TreeOfTwoChildren(root, "parent1", p1, "parent2", p2);
    TwoLeaves(p1, "child1", c1, "child2", c2);
    assert p2.Len() == 0;
  }

  /**
   root.parent1.child1 = 1; root.parent1.child2 = 2 on a node without children; the second
   statement reads back the node the first one created.
   */
  method FillParent1(root: Node<int>) returns (p1: Node<int>, c1: Node<int>, c2: Node<int>)
    requires root.Valid() && root.Children() == map[]
    modifies root, root.world
    ensures root.Valid() && root.Children() == map["parent1" := p1]
    ensures old(root.world.nodes) <= root.world.nodes
    ensures p1.Children() == map["child1" := c1, "child2" := c2]
    ensures c1.Children() == map[] && c2.Children() == map[]
    ensures fresh(p1) && fresh(c1) && fresh(c2)
  {
    PlainChildName("parent1"); PlainChildName("child1"); PlainChildName("child2");
    p1 := root.GetChild("parent1");
    p1.SetChild("child1", Some(1));
    c1 := p1.Children()["child1"];
    var again := root.GetChild("parent1");
    assert again == p1;
    again.SetChild("child2", Some(2));
    c2 := p1.Children()["child2"];
  }

  /**
   complex.rovat_0.ceg_id = ...; complex.rovat_1.ceg_id = ...; complex.rovat_1.name = ...
   on a node without children.
   */
  method FillComplex(complex: Node<string>)
      returns (rovat0: Node<string>, rovat1: Node<string>, ceg0: Node<string>, ceg1: Node<string>, name1: Node<string>)
    requires complex.Valid() && complex.Children() == map[]
    modifies complex, complex.world
    ensures complex.Valid() && complex.GetData() == old(complex.GetData())
    ensures old(complex.world.nodes) <= complex.world.nodes
    ensures complex.Children() == map["rovat_0" := rovat0, "rovat_1" := rovat1]
    ensures rovat0.Children() == map["ceg_id" := ceg0] && ceg0.Children() == map[]
    ensures rovat1.Children() == map["ceg_id" := ceg1, "name" := name1]
    ensures ceg1.Children() == map[] && name1.Children() == map[]
    ensures fresh(rovat0) && fresh(rovat1) && fresh(ceg0) && fresh(ceg1) && fresh(name1)
  {
    PlainChildName("rovat_0"); PlainChildName("ceg_id");
    rovat0 := complex.GetChild("rovat_0");
    rovat0.SetChild("ceg_id", Some("[1,2,3]"));
    ceg0 := rovat0.Children()["ceg_id"];
    rovat1, ceg1, name1 := FillRovat1(complex);
  }

  /** complex.rovat_1.ceg_id = ...; complex.rovat_1.name = ..., where complex has no rovat_1 yet. */
  method FillRovat1(complex: Node<string>) returns (rovat1: Node<string>, ceg1: Node<string>, name1: Node<string>)
    requires complex.Valid() && "rovat_1" !in complex.Children()
    modifies complex, complex.world
    ensures complex.Valid() && complex.GetData() == old(complex.GetData())
    ensures old(complex.world.nodes) <= complex.world.nodes
    ensures complex.Children() == old(complex.Children())["rovat_1" := rovat1]
    ensures rovat1.Children() == map["ceg_id" := ceg1, "name" := name1]
    ensures ceg1.Children() == map[] && name1.Children() == map[]
    ensures fresh(rovat1) && fresh(ceg1) && fresh(name1)
  {
    PlainChildName("rovat_1"); PlainChildName("ceg_id"); PlainChildName("name");
    rovat1 := complex.GetChild("rovat_1");
    rovat1.SetChild("ceg_id", Some("[1,2,3]"));
    ceg1 := rovat1.Children()["ceg_id"];
    rovat1.SetChild("name", Some("['Firm A', 'Firm B', 'Firm C']"));
    name1 := rovat1.Children()["name"];
  }

  /** root.output.frame = ..., where root has no output yet. */
  method FillOutput(root: Node<string>) returns (output: Node<string>, frame: Node<string>)
    requires root.Valid() && "output" !in root.Children()
    modifies root, root.world
    ensures root.Valid() && root.Children() == old(root.Children())["output" := output]
    ensures old(root.world.nodes) <= root.world.nodes
    ensures output.Children() == map["frame" := frame] && frame.Children() == map[]
    ensures fresh(output) && fresh(frame)
  {
    PlainChildName("output"); PlainChildName("frame");
    output := root.GetChild("output");
    output.SetChild("frame", Some("{}"));
    frame := output.Children()["frame"];
  }

  /** The statements of the module's docstring that build its namespace. */
  method BuildDocstring()
      returns (root: Node<string>, complex: Node<string>, output: Node<string>, rovat0: Node<string>,
               rovat1: Node<string>, ceg0: Node<string>, ceg1: Node<string>, name1: Node<string>, frame: Node<string>)
    ensures root.Valid() && complex.Valid() && complex.GetData() == Some("Data from Complex")
    ensures root.Children() == map["complex" := complex, "output" := output]
    ensures complex.Children() == map["rovat_0" := rovat0, "rovat_1" := rovat1]
    ensures output.Children() == map["frame" := frame]
    ensures rovat0.Children() == map["ceg_id" := ceg0]
    ensures rovat1.Children() == map["ceg_id" := ceg1, "name" := name1]
    ensures ceg0.Children() == map[] && ceg1.Children() == map[]
    ensures name1.Children() == map[] && frame.Children() == map[]
  {
    var w := new World<string>();
    root := new Node(None, w);
    complex, rovat0, rovat1, ceg0, ceg1, name1 := AddComplex(root);
    output, frame := FillOutput(root);
  }

  /** root.complex = 'Data from Complex' and the assignments below it, on a node without children. */
  method AddComplex(root: Node<string>)
      returns (complex: Node<string>, rovat0: Node<string>, rovat1: Node<string>,
               ceg0: Node<string>, ceg1: Node<string>, name1: Node<string>)
    requires root.Valid() && root.Children() == map[]
    modifies root, root.world
    ensures root.Valid() && complex.Valid() && complex.GetData() == Some("Data from Complex")
    ensures root.Children() == map["complex" := complex] && complex.world == root.world
    ensures complex.Children() == map["rovat_0" := rovat0, "rovat_1" := rovat1]
    ensures rovat0.Children() == map["ceg_id" := ceg0]
    ensures rovat1.Children() == map["ceg_id" := ceg1, "name" := name1]
    ensures ceg0.Children() == map[] && ceg1.Children() == map[] && name1.Children() == map[]
    ensures fresh(complex) && fresh(rovat0) && fresh(rovat1) && fresh(ceg0) && fresh(ceg1) && fresh(name1)
  {
    PlainChildName("complex");
    root.SetChild("complex", Some("Data from Complex"));
    complex := root.Children()["complex"];
    rovat0, rovat1, ceg0, ceg1, name1 := FillComplex(complex);
  }

  /**
   The namespace of the module's docstring. `complex` keeps the data assigned to it while it
   gains children; the exported tree shows only the names.
   */
  method DocstringNamespace() returns (tree: Tree, complexData: Option<string>)
    ensures tree == Dict(map[
      "complex" := Dict(map[
        "rovat_0" := Dict(map["ceg_id" := Nothing]),
        "rovat_1" := Dict(map["ceg_id" := Nothing, "name" := Nothing])]),
      "output" := Dict(map["frame" := Nothing])])
    ensures complexData == Some("Data from Complex")
  {
    var root, complex, output, rovat0, rovat1, ceg0, ceg1, name1, frame := BuildDocstring();
    DocstringExport(root, complex, output, rovat0, rovat1, ceg0, ceg1, name1, frame);
    tree := root.GetTree();
    complexData := complex.GetData();
  }

  /** The export of a namespace shaped like the docstring's. */
  lemma DocstringExport<T>(root: Node<T>, complex: Node<T>, output: Node<T>, rovat0: Node<T>, rovat1: Node<T>,
                           ceg0: Node<T>, ceg1: Node<T>, name1: Node<T>, frame: Node<T>)
    requires root.Valid()
    requires root.Children() == map["complex" := complex, "output" := output]
    requires complex.Children() == map["rovat_0" := rovat0, "rovat_1" := rovat1]
    requires output.Children() == map["frame" := frame]
    requires rovat0.Children() == map["ceg_id" := ceg0]
    requires rovat1.Children() == map["ceg_id" := ceg1, "name" := name1]
    requires ceg0.Children() == map[] && ceg1.Children() == map[]
    requires name1.Children() == map[] && frame.Children() == map[]
    ensures root.GetTree() == Dict(map[
      "complex" := Dict(map[
        "rovat_0" := Dict(map["ceg_id" := Nothing]),
        "rovat_1" := Dict(map["ceg_id" := Nothing, "name" := Nothing])]),
      "output" := Dict(map["frame" := Nothing])])
  {
    TreeOfTwoChildren(root, "complex", complex, "output", output);
    ComplexExport(complex, rovat0, rovat1, ceg0, ceg1, name1);
    OneLeaf(output, "frame", frame);
  }

  /** The export of `complex` in the docstring's namespace. */
  lemma ComplexExport<T>(complex: Node<T>, rovat0: Node<T>, rovat1: Node<T>, ceg0: Node<T>, ceg1: Node<T>, name1: Node<T>)
    requires complex.Valid()
    requires complex.Children() == map["rovat_0" := rovat0, "rovat_1" := rovat1]
    requires rovat0.Children() == map["ceg_id" := ceg0]
    requires rovat1.Children() == map["ceg_id" := ceg1, "name" := name1]
    requires ceg0.Children() == map[] && ceg1.Children() == map[] && name1.Children() == map[]
    ensures complex.GetTree() == Dict(map[
      "rovat_0" := Dict(map["ceg_id" := Nothing]),
      "rovat_1" := Dict(map["ceg_id" := Nothing, "name" := Nothing])])
  {
    TreeOfTwoChildren(complex, "rovat_0", rovat0, "rovat_1", rovat1);
    OneLeaf(rovat0, "ceg_id", ceg0);
    TwoLeaves(rovat1, "ceg_id", ceg1, "name", name1);
  }
}
