/**
 The instance dictionary of a namespace node. A node keeps its payload under the
 data slot "__data__" and each of its children under the child's name; this module
 describes such a dictionary as a value and proves how the node's operations change it.
 */
module InstanceDict {

  /** A payload. Python's None is `None`; every other value is `Some`. */
  datatype Option<T> = None | Some(value: T)

  /** One entry of the instance dictionary: the payload under the data slot, or a child node. */
  datatype Slot<T, N> = DataSlot(value: Option<T>) | ChildSlot(node: N)

  /** The name of the data slot. */
  const DATA_KEY: string := "__data__"

  /**
   The names that ordinary Python 2 attribute lookup finds on the class of a Node (the methods
   of Node and what Node inherits from object) when the instance dictionary does not hold them,
   together with the data slot. Reading one of them never reaches `__getattr__`, so it never
   auto-creates a child; assigning one is not modelled.
   */
  const RESERVED_NAMES: set<string> := {
    DATA_KEY,
    "__init__", "get_data", "set_data", "__unicode__", "__str__", "__setattr__", "__getattr__",
    "__iter__", "__len__", "children_as_dictionary", "get_tree",
    "__dict__", "__module__", "__weakref__", "__doc__",
    "__class__", "__delattr__", "__format__", "__getattribute__", "__hash__", "__new__",
    "__reduce__", "__reduce_ex__", "__repr__", "__sizeof__", "__subclasshook__"
  }

  /** A name under which attribute access reaches a child node. */
  predicate IsChildName(name: string) {
    name !in RESERVED_NAMES
  }

  /** A name that does not start with an underscore is a child name unless it is a public method of Node. */
  lemma PlainChildName(name: string)
    requires |name| > 0 && name[0] != '_'
    requires name !in {"get_data", "set_data", "children_as_dictionary", "get_tree"}
    ensures IsChildName(name)
  {
  }

  /** The shape every instance dictionary keeps: a data slot, and a child under every other name. */
  ghost predicate Shaped<T, N>(d: map<string, Slot<T, N>>) {
    && DATA_KEY in d && d[DATA_KEY].DataSlot?
    && forall k <- d :: k != DATA_KEY ==> d[k].ChildSlot?
  }

  /** No entry of the dictionary shadows an attribute that ordinary lookup finds first. */
  ghost predicate NamesAllowed<T, N>(d: map<string, Slot<T, N>>) {
    forall k <- d :: k != DATA_KEY ==> IsChildName(k)
  }

  /** The children: every entry except the data slot. */
  function ChildrenOf<T, N>(d: map<string, Slot<T, N>>): map<string, N> {
    map k | k in d && k != DATA_KEY && d[k].ChildSlot? :: d[k].node
  }

  /** The dictionary a freshly constructed node holds. */
  function Initial<T, N>(value: Option<T>): map<string, Slot<T, N>> {
    map[DATA_KEY := DataSlot(value)]
  }

  /** The child names are exactly the keys other than the data slot, each bound to its child. */
  lemma ChildKeys<T, N>(d: map<string, Slot<T, N>>)
    requires Shaped(d)
    ensures ChildrenOf(d).Keys == d.Keys - {DATA_KEY}
    ensures forall k <- ChildrenOf(d) :: d[k] == ChildSlot(ChildrenOf(d)[k])
  {
  }

  /** The dictionary holds one entry more than there are children: the data slot. */
  lemma SizeCountsDataSlot<T, N>(d: map<string, Slot<T, N>>)
    requires Shaped(d)
    ensures |d| == |ChildrenOf(d)| + 1
  {
    ChildKeys(d);
    assert d.Keys == ChildrenOf(d).Keys + {DATA_KEY};
  }

  /** A freshly constructed node holds its value and has no children. */
  lemma InitialShape<T, N>(value: Option<T>)
    ensures Shaped(Initial<T, N>(value)) && NamesAllowed(Initial<T, N>(value))
    ensures ChildrenOf(Initial<T, N>(value)) == map[]
    ensures Initial<T, N>(value)[DATA_KEY] == DataSlot(value)
  {
    assert ChildrenOf(Initial<T, N>(value)).Keys == {};
  }

  /** Installing a child under a name replaces only that name and leaves the data slot alone. */
  lemma InstallChild<T, N>(d: map<string, Slot<T, N>>, name: string, n: N)
    requires Shaped(d) && IsChildName(name)
    ensures Shaped(d[name := ChildSlot(n)])
    ensures NamesAllowed(d) ==> NamesAllowed(d[name := ChildSlot(n)])
    ensures ChildrenOf(d[name := ChildSlot(n)]) == ChildrenOf(d)[name := n]
    ensures d[name := ChildSlot(n)][DATA_KEY] == d[DATA_KEY]
  {
    var d' := d[name := ChildSlot(n)];
    assert ChildrenOf(d').Keys == ChildrenOf(d)[name := n].Keys;
  }

  /** Storing a payload replaces only the data slot and leaves every child alone. */
  lemma StoreData<T, N>(d: map<string, Slot<T, N>>, value: Option<T>)
    requires Shaped(d)
    ensures Shaped(d[DATA_KEY := DataSlot(value)])
    ensures NamesAllowed(d) ==> NamesAllowed(d[DATA_KEY := DataSlot(value)])
    ensures ChildrenOf(d[DATA_KEY := DataSlot(value)]) == ChildrenOf(d)
  {
    var d' := d[DATA_KEY := DataSlot(value)];
    assert ChildrenOf(d').Keys == ChildrenOf(d).Keys;
  }

  /** A list of names without repeats that covers a set of keys exactly is as long as the set is large. */
  lemma {:induction false} ListedKeysCount(names: seq<string>, keys: set<string>)
    requires forall i, j :: 0 <= i < j < |names| ==> names[i] != names[j]
    requires forall k :: k in keys <==> k in names
    ensures |names| == |keys|
    decreases |names|
  {
    if names != [] {
      var last := names[|names| - 1];
      var rest := names[..|names| - 1];
      assert forall k :: k in keys - {last} <==> k in rest by {
        forall k
          ensures k in keys - {last} <==> k in rest
        {
          if k in rest {
            var i :| 0 <= i < |rest| && rest[i] == k;
            assert names[i] == k;
          }
          if k in names && k != last {
            var i :| 0 <= i < |names| && names[i] == k;
            assert i < |names| - 1 && rest[i] == k;
          }
        }
      }
      ListedKeysCount(rest, keys - {last});
    }
  }
}
