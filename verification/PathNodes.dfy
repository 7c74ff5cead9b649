/** The nodes of the 9P server's path tree. A node knows the nodes of its child
    names, and for each child reference its name, in two maps that are inverse to
    each other. References and nodes are numbers: their places in the server's
    tables. */
module PathNodes {

  type RefId = nat
  type NodeId = nat

  datatype PathNode = PathNode(childNodes: map<string, NodeId>,
                               childRefs: map<string, set<RefId>>,
                               childRefNames: map<RefId, string>)
  {
    /** The references by name and the names by reference agree. A name may be
        left with no reference. */
    ghost predicate Matched() {
      && (forall name, r :: name in childRefs && r in childRefs[name] ==>
            r in childRefNames && childRefNames[r] == name)
      && (forall r :: r in childRefNames ==> childRefNames[r] in childRefs && r in childRefs[childRefNames[r]])
    }

    function RefsNamed(name: string): (rs: set<RefId>)
      ensures Matched() ==> forall r :: r in rs <==> r in childRefNames && childRefNames[r] == name
    {
      if name in childRefs then childRefs[name] else {}
    }

    /** Panics on a reference that has a name already. */
    function AddChild(r: RefId, name: string): (q: PathNode)
      requires Matched() && r !in childRefNames
      ensures q.Matched() && q.childNodes == childNodes && q.childRefNames == childRefNames[r := name]
    {
      PathNode(childNodes, childRefs[name := RefsNamed(name) + {r}], childRefNames[r := name])
    }

    /** Panics if the reference has a name whose references are missing. */
    function RemoveChild(r: RefId): (q: PathNode)
      requires r in childRefNames ==> childRefNames[r] in childRefs
      ensures Matched() ==> q.Matched()
      ensures q.childNodes == childNodes && q.childRefNames == childRefNames - {r}
    {
      if r !in childRefNames then PathNode(childNodes, childRefs, childRefNames - {r}) else
      var name := childRefNames[r];
      var m := childRefs[name] - {r};
      PathNode(childNodes, if m == {} then childRefs - {name} else childRefs[name := m], childRefNames - {r})
    }

    /** One turn of the loop in removeWithName. */
    function Unname(r: RefId): (q: PathNode)
      requires r in childRefNames && childRefNames[r] in childRefs
      ensures Matched() ==> q.Matched()
      ensures q.childNodes == childNodes && q.childRefNames == childRefNames - {r}
    {
      var name := childRefNames[r];
      PathNode(childNodes, childRefs[name := childRefs[name] - {r}], childRefNames - {r})
    }

    /** Panics if the name has a node already. */
    function AddPathNodeFor(name: string, n: NodeId): (q: PathNode)
      requires name !in childNodes
      ensures Matched() ==> q.Matched()
      ensures q.childNodes == childNodes[name := n] && q.childRefNames == childRefNames
    {
      this.(childNodes := childNodes[name := n])
    }

    function DropPathNode(name: string): (q: PathNode)
      ensures Matched() ==> q.Matched()
      ensures q.childNodes == childNodes - {name} && q.childRefNames == childRefNames
    {
      this.(childNodes := childNodes - {name})
    }
  }

  const EMPTY_NODE := PathNode(map[], map[], map[])
}
