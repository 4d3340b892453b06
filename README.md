# pynamespace `Node`, modelled in Dafny

pynamespace builds a namespace of nodes that grows on demand. A `Node` stores one payload, its
*data*, plus any number of named child nodes. Reading an attribute that does not exist creates an
empty child under that name (auto-vivification). Assigning `node.name = value` wraps the value in
a fresh child node. A node can be iterated over its children and measured with `len`. It can be
copied into a dictionary of its children, or exported as a nested dictionary of names with
`get_tree`.

The model follows namespace.py as written:

- A node can hold data and have children at the same time.
- Any name that ordinary attribute lookup does not find on the class can become a child on first read.
- `get_tree` yields None for every node without children, whatever that node's data is.

Where test.py expects something stricter, the model follows the code:

- errors for parents with data or children of data nodes (test.py:14-39);
- `NameError` for reserved words (test.py:41-49);
- leaf *values* in the exported tree (test.py:144).

The docstring's own example (namespace.py:35-46) agrees with the code and shows None at the leaves.

## Structure

- `instance_dict.dfy`, module `InstanceDict`: a node's Python instance dictionary `__dict__` as a
  value. The sort `Slot` is either the data slot `DataSlot(value)`, stored under `"__data__"`, or
  a child `ChildSlot(node)`. The module holds:
  - the set of reserved names: those that ordinary Python 2 attribute lookup finds on the class
    when the instance dictionary does not hold them, so that reading one never reaches
    `__getattr__`, plus `__data__`. Assigning one is not modelled (see "## Left out");
  - lemmas about how construction, `set_data` and installing a child change the dictionary.
- `namespace.dfy`, module `Namespace`:
  - the class `Node` with the field `dict` (Python's `__dict__`) and one method or function per
    operation;
  - the exported tree `Tree = Nothing | Dict(entries)`, where `Nothing` is Python's None;
  - lemmas about the children graph and the export.
- `scenarios.dfy`, module `Scenarios`: the client programs of the docstring and of test.py, and
  what they observe.

Python's None as a payload is `Option.None`; any other payload is `Some(v)` of an arbitrary type
`T`.

### The ghost `World`

A ghost object `World<T>` records every node allocated so far and an allocation counter. Each
node carries these ghost fields:

- its `world`;
- its allocation `index`;
- `parent` and `slot`, the node and name it was last installed under.

The invariant `World.Valid` holds of every node:

- its dictionary is shaped: a data slot, and a child under every other key;
- every child was allocated later than the node;
- every child points back to the node under the name that holds it.

This shows that the children graph is a tree. `get_tree` terminates because indices grow along
every path. The program itself has none of this state.

## Model

| member | source | states |
|---|---|---|
| InstanceDict.InitialShape | namespace.py:50-54 | a fresh dictionary holds only the data slot with the given value: it is shaped and has no children |
| InstanceDict.StoreData | namespace.py:59-63 | replacing the data slot keeps the dictionary shaped and leaves the children unchanged |
| InstanceDict.InstallChild | namespace.py:71-76 | binding a child name replaces only that name: the children become the old children updated at that name and the data slot is unchanged |
| InstanceDict.ChildKeys | namespace.py:92-94 | the children are exactly the dictionary keys other than `__data__`, each bound to its child entry |
| InstanceDict.SizeCountsDataSlot | namespace.py:97-101 | the dictionary has exactly one entry more than there are children |
| Namespace.Node.constructor | namespace.py:50-54 | `Node(value)` holds `value` as its data, has no children and is a new node of the world, whose invariant still holds |
| Namespace.Node.GetData | namespace.py:56-57 | the payload in the data slot; the constructor and `SetData` ensure it reads back the value stored |
| Namespace.Node.SetData | namespace.py:59-63 | after `set_data(value)`, `get_data()` is `value`, only the data slot changed, the children are unchanged and the invariant holds |
| Namespace.Node.SetChild | namespace.py:71-76 | `node.name = value` installs a fresh node holding `value` with no children under `name`; every other child and the data stay as they were |
| Namespace.Node.Install | namespace.py:76 | `object.__setattr__` of a not yet installed node binds the name to it, replacing what the name held, and keeps the tree invariant |
| Namespace.Node.GetChild | namespace.py:78-84 | reading `node.name` returns the existing child unchanged. Otherwise it creates, installs and returns a fresh empty child under `name`; nothing else changes and the name then holds the returned node |
| Namespace.Node.ChildFacts | namespace.py:71-84 | every child of a valid node is valid, in the same world, allocated later, and records this node and its name as its parent |
| Namespace.Node.Len | namespace.py:97-101 | `len(node)`, the dictionary size less one, is the number of children |
| Namespace.Node.Iter | namespace.py:86-95 | iteration yields `len(node)` nodes, each child exactly once, nothing but children, and never the node itself |
| Namespace.Node.ListsChildren | namespace.py:90-95 | a list of child names without repeats that covers every child gives each child exactly once and never the node |
| Namespace.Node.ChildrenAsDictionary | namespace.py:103-109 | the copy has every key of the instance dictionary except `__data__`, each bound to the same child, so it equals the children |
| Namespace.Node.GetTree | namespace.py:111-122 | the export is None exactly when the node has no children; otherwise its keys are exactly the child names |
| Namespace.TreeFromChildTrees | namespace.py:118-122 | a node with children exports a dictionary that maps each child name to that child's export |
| Namespace.ExportAlongPath | namespace.py:111-122 | at every path of names, the export holds the export of the node reached by walking that path, and holds nothing where the walk finds no node |
| Namespace.ChainsAscend | namespace.py:75-83 | along any chain of parent-to-child steps the nodes were allocated in increasing order, so no chain repeats a node: the children graph is acyclic |
| Namespace.SingleParent | namespace.py:75-83 | no node is held under two names or by two parents |
| Scenarios.Construct | test.py:95-102 | `Node(v)` returns `v` from `get_data`, iterates over nothing, has length 0 and exports None |
| Scenarios.Reassign | test.py:149-152 | `set_data(u)` on `Node(v)` makes `get_data()` return `u` |
| Scenarios.AssignThenRead | test.py:178-181 | after `node.a = 5`, `node.a.get_data()` is 5 |
| Scenarios.BuildThree | test.py:61-64 | `node.a = 1; node.b = 2; node.c = 3` on a fresh node leaves exactly the children a, b and c |
| Scenarios.ReadThree | test.py:76 | reading `node.a`, `node.b`, `node.c` where these children exist returns those children and changes nothing |
| Scenarios.ThreeChildren | test.py:60-109 | three assigned children: `len` is 3; iteration yields 3 nodes, which are exactly `node.a`, `node.b` and `node.c`, and not the node itself; `children_as_dictionary()` is `{'a': node.a, 'b': node.b, 'c': node.c}` |
| Scenarios.ReadTwice | namespace.py:78-84 | reading the same name twice yields the same node, now held under that name |
| Scenarios.FillParent1 | test.py:140-142 | `root.parent1.child1 = 1; root.parent1.child2 = 2` puts both children under one auto-created `parent1` |
| Scenarios.BuildTwoLevels | test.py:140-143 | the test's statements leave `parent1` and `parent2` under the root, `child1` and `child2` under `parent1`, and no other children |
| Scenarios.TwoLevelExport | namespace.py:111-122 | a namespace of that shape exports `{parent1: {child1: None, child2: None}, parent2: None}` |
| Scenarios.ExportTwoLevels | test.py:139-143 | for the statements of the test, `get_tree` gives `{parent1: {child1: None, child2: None}, parent2: None}` |
| Scenarios.TwoLeaves | namespace.py:111-122 | a node whose two children have no children exports both names mapped to None |
| Scenarios.OneLeaf | namespace.py:111-122 | a node whose only child has no children exports that name mapped to None |
| Scenarios.AddComplex | namespace.py:12-15 | assigning `complex` and the three assignments below it leave the root with the single child `complex`, holding its data and the docstring's subtree |
| Scenarios.FillComplex | namespace.py:13-15 | the three docstring assignments below `complex` give it the children rovat_0 and rovat_1 with their fields, and keep its data |
| Scenarios.FillRovat1 | namespace.py:14-15 | the two assignments below `rovat_1` give it exactly the childless children ceg_id and name |
| Scenarios.FillOutput | namespace.py:16 | `root.output.frame = {}` adds `output` with the single childless child `frame` |
| Scenarios.BuildDocstring | namespace.py:12-16 | starting from `root = Node()` (line 4), the docstring's assignments build the namespace whose shape the docstring draws, with `complex` keeping its data |
| Scenarios.DocstringNamespace | namespace.py:35-46 | the docstring's namespace exports exactly the drawn dictionary, and `complex` still returns "Data from Complex" |
| Scenarios.ComplexExport | namespace.py:39-44 | `complex` exports `{rovat_0: {ceg_id: None}, rovat_1: {ceg_id: None, name: None}}` |
| Scenarios.DocstringExport | namespace.py:39-46 | a namespace of the docstring's shape exports the drawn dictionary |

## Left out

- `__unicode__` and `__str__` (namespace.py:65-69): converting an arbitrary payload to text has
  no counterpart for an opaque payload type. Neither is part of this model.
- `Node.SetChild` and `Node.GetChild` require `IsChildName(name)`: reserved names are not modelled.
  Reading a reserved name never reaches `__getattr__`, because `__getattr__` runs only when ordinary
  lookup fails, and ordinary lookup finds the name on the class.
  Assigning one behaves as follows:
  - `__dict__` and `__class__`: `object.__setattr__` (namespace.py:76) raises TypeError, because a
    Node is neither a dictionary nor a class.
  - `__weakref__`: it raises AttributeError, because that attribute is read-only.
  - `__data__`: the wrapping node replaces the payload.
  - every other reserved name (the methods of Node and of object, `__doc__`, `__module__`): the
    wrapping child is stored in the instance dictionary. It shadows the class attribute for
    ordinary attribute access, but not for `len()`, `iter()` or `str()`.
- The docstring's line `root = 'Root of namespace'` (namespace.py:8) is skipped by
  `Scenarios.BuildDocstring`. As written, it rebinds the variable `root` to a string, and the
  next assignment (line 12) would then fail. Read as `root.set_data('Root of namespace')`, it would
  change only the data slot, which `get_tree` (namespace.py:111-122) never reads, so the export
  would be the same.
- Iteration order: `Node.Iter` and `Node.ChildrenAsDictionary` visit the keys in an arbitrary
  order. Python visits them in its dictionary order, which the model does not fix.
- `Node.GetTree`'s own contract states the keys of the export. The value under each key is stated by
  `TreeFromChildTrees` and `ExportAlongPath`.
- The stricter behaviours that test.py expects (test.py:14-49, test.py:144) are not modelled,
  because namespace.py does not implement them.
- The YAML dump and the printing in test.py:145-146 and the docstring are output only.
- Payloads are opaque, and a namespace has a single payload type `T`, whereas Python nodes hold values
  of any type. In the docstring scenario the type is `string`, so the list and dictionary
  payloads (`[1,2,3]`, `['Firm A', 'Firm B', 'Firm C']`, `{}`) are written as their text.
  Assigning a Node as a value wraps it in a new node holding it as data, like any other value.
  The model does not look inside payloads, so a node held as data is not part of the children
  graph.
- Detached children: when `node.name = value` replaces a child, the old child becomes unreachable
  from the node. Its ghost `parent` still names the node, which the invariant does not need.
