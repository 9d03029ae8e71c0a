/**
 * The tree utilities of src/utils/OrgTree.js: the root-to-node id path
 * search, the subtree head count, and the conversion of a raw record into
 * the renderer's node shape.
 */
module OrgTree {
  import opened Wrappers
  import opened Tree

  /**
   * The ids from `root` down to the first node (in pre-order, children in
   * order) whose id is `targetId`, or `None` when no node has that id.
   */
  function FindPath<Id(==), F>(root: Node<Id, F>, targetId: Id): (r: Option<seq<Id>>)
    ensures r.Some? ==> |r.value| >= 1 && r.value[0] == root.id && r.value[|r.value| - 1] == targetId
    ensures root.id == targetId ==> r == Some([root.id])
    decreases root, 1
  {
    if root.id == targetId then Some([root.id])
    else match root.children
      case Absent => None
      case Present(kids) =>
        match FindPathAmong(kids, targetId)
        case Some(childPath) => Some([root.id] + childPath)
        case None => None
  }

  /** The `for` loop over the children: the first child subtree holding `targetId` decides. */
  function FindPathAmong<Id(==), F>(kids: seq<Node<Id, F>>, targetId: Id): (r: Option<seq<Id>>)
    ensures r.Some? ==> |r.value| >= 1 && r.value[|r.value| - 1] == targetId
    decreases kids, 0
  {
    if kids == [] then None
    else match FindPath(kids[0], targetId)
      case Some(childPath) => Some(childPath)
      case None => FindPathAmong(kids[1..], targetId)
  }

  /** The number of nodes in the subtree rooted at `node`. */
  function CountEmployees<Id, F>(node: Node<Id, F>): (n: nat)
    ensures n >= 1
    ensures Kids(node) == [] ==> n == 1
    decreases node, 1
  {
    1 + match node.children
        case Absent => 0
        case Present(kids) => SumCounts(kids)
  }

  /** The `reduce` over the children: the sum of their subtree counts. */
  function SumCounts<Id, F>(kids: seq<Node<Id, F>>): (sum: nat)
    ensures sum >= |kids|
    decreases kids, 0
  {
    if kids == [] then 0 else CountEmployees(kids[0]) + SumCounts(kids[1..])
  }

  /**
   * A raw record in the renderer's shape: id and name kept, role moved under
   * `attributes`, children converted in order (an absent field becomes an
   * empty one), `hasChildren` set when the record has a non-empty children field.
   */
  function ConvertToD3Format<Id>(employee: Node<Id, Record>): (r: Node<Id, Rendered>)
    ensures r.id == employee.id && r.name == employee.name
    ensures r.fields.attributes.role == employee.fields.role && r.fields.photoUrl == employee.fields.photoUrl
    ensures r.children.Present? && |r.children.nodes| == |Kids(employee)|
    ensures forall i :: 0 <= i < |Kids(employee)| ==> r.children.nodes[i] == ConvertToD3Format(Kids(employee)[i])
    ensures r.fields.hasChildren <==> employee.children.Present? && employee.children.nodes != []
    decreases employee, 1
  {
    var children := match employee.children
                    case Absent => []
                    case Present(kids) => ConvertAll(kids);
    var hasChildren := employee.children.Present? && |employee.children.nodes| > 0;
    Node(employee.id, employee.name, Rendered(Attributes(employee.fields.role), employee.fields.photoUrl, hasChildren),
         Present(children))
  }

  /** The `map` over the children. */
  function ConvertAll<Id>(employees: seq<Node<Id, Record>>): (rs: seq<Node<Id, Rendered>>)
    ensures |rs| == |employees|
    ensures forall i :: 0 <= i < |employees| ==> rs[i] == ConvertToD3Format(employees[i])
    decreases employees, 0
  {
    if employees == [] then [] else [ConvertToD3Format(employees[0])] + ConvertAll(employees[1..])
  }

  /** The index of the first node in `s` whose id is `x`. */
  function FirstMatch<Id(==), F>(s: seq<Node<Id, F>>, x: Id): (r: Option<nat>)
    ensures r.Some? ==> r.value < |s| && s[r.value].id == x && forall j :: 0 <= j < r.value ==> s[j].id != x
    ensures r.None? ==> forall j :: 0 <= j < |s| ==> s[j].id != x
  {
    if s == [] then None
    else if s[0].id == x then Some(0)
    else match FirstMatch(s[1..], x)
      case Some(j) => Some(j + 1)
      case None => None
  }

  /** The first match in a concatenation lies in its first part if there is one there. */
  lemma {:induction false} FirstMatchOfConcat<Id, F>(a: seq<Node<Id, F>>, b: seq<Node<Id, F>>, x: Id)
    ensures FirstMatch(a + b, x) == match FirstMatch(a, x)
                                    case Some(i) => Some(i)
                                    case None => match FirstMatch(b, x)
                                                 case Some(j) => Some(|a| + j)
                                                 case None => None
  {
    if a == [] {
      assert a + b == b;
    } else {
      assert (a + b)[1..] == a[1..] + b;
      FirstMatchOfConcat(a[1..], b, x);
    }
  }

  /** `FindPath` returns the chain to the first pre-order node carrying `targetId`. */
  lemma {:induction false} FindPathIsPathToFirstMatch<Id, F>(root: Node<Id, F>, targetId: Id)
    ensures FindPath(root, targetId) == match FirstMatch(Flatten(root), targetId)
                                       case Some(i) => Some(PathAt(root, i))
                                       case None => None
    decreases root, 1
  {
    if root.id != targetId && root.children.Present? {
      var kids := root.children.nodes;
      FindPathAmongIsPathToFirstMatch(kids, targetId);
      FirstMatchOfConcat([root], FlattenAll(kids), targetId);
    }
  }

  /** `FindPathAmong` returns the chain to the first node carrying `targetId` in the siblings' listing. */
  lemma {:induction false} FindPathAmongIsPathToFirstMatch<Id, F>(kids: seq<Node<Id, F>>, targetId: Id)
    ensures FindPathAmong(kids, targetId) == match FirstMatch(FlattenAll(kids), targetId)
                                             case Some(i) => Some(PathAtAll(kids, i))
                                             case None => None
    decreases kids, 0
  {
    if kids != [] {
      FindPathIsPathToFirstMatch(kids[0], targetId);
      FindPathAmongIsPathToFirstMatch(kids[1..], targetId);
      FirstMatchOfConcat(Flatten(kids[0]), FlattenAll(kids[1..]), targetId);
    }
  }

  /**
   * `FindPath` finds a path exactly when the target id occurs in the tree, and
   * the path it finds is a genuine root-to-node chain ending at the first
   * node in pre-order that carries the id.
   */
  lemma FindPathLeadsToFirstMatch<Id, F>(root: Node<Id, F>, targetId: Id)
    ensures FindPath(root, targetId).Some? <==> Occurs(root, targetId)
    ensures match FirstMatch(Flatten(root), targetId)
            case Some(i) => FindPath(root, targetId).Some? && IsChainTo(root, FindPath(root, targetId).value, Flatten(root)[i])
            case None => FindPath(root, targetId) == None
  {
    FindPathIsPathToFirstMatch(root, targetId);
    OccursIffSomeNodeCarriesIt(root, targetId);
    match FirstMatch(Flatten(root), targetId)
    case Some(i) =>
      PathAtReachesListedNode(root, i);
      FlattenListsExactlyTheNodes(root, Flatten(root)[i]);
    case None =>
      forall n | IsNodeOf(n, root) ensures n.id != targetId {
        FlattenListsExactlyTheNodes(root, n);
      }
  }

  /** Every id after the first in a found path names a child of the node before it. */
  lemma FindPathIsChain<Id, F>(root: Node<Id, F>, targetId: Id, path: seq<Id>)
    requires FindPath(root, targetId) == Some(path)
    ensures exists n :: IsChainTo(root, path, n) && n.id == targetId && IsNodeOf(n, root)
  {
    FindPathLeadsToFirstMatch(root, targetId);
    var i := FirstMatch(Flatten(root), targetId).value;
    ChainEndsAtItsNode(root, path, Flatten(root)[i]);
  }

  /** The head count of a tree is the length of its pre-order listing. */
  lemma {:induction false} CountIsListingLength<Id, F>(node: Node<Id, F>)
    ensures CountEmployees(node) == |Flatten(node)|
    decreases node, 1
  {
    if node.children.Present? {
      SumCountsIsListingLength(node.children.nodes);
    }
  }

  /** The summed head count of siblings is the length of their concatenated listing. */
  lemma {:induction false} SumCountsIsListingLength<Id, F>(kids: seq<Node<Id, F>>)
    ensures SumCounts(kids) == |FlattenAll(kids)|
    decreases kids, 0
  {
    if kids != [] {
      CountIsListingLength(kids[0]);
      SumCountsIsListingLength(kids[1..]);
    }
  }

  /** Conversion to the renderer's shape does not change the head count. */
  lemma {:induction false} ConvertKeepsCount<Id>(employee: Node<Id, Record>)
    ensures CountEmployees(ConvertToD3Format(employee)) == CountEmployees(employee)
    decreases employee, 1
  {
    if employee.children.Present? {
      ConvertAllKeepsCount(employee.children.nodes);
    }
  }

  /** Converting siblings does not change their summed head count. */
  lemma {:induction false} ConvertAllKeepsCount<Id>(employees: seq<Node<Id, Record>>)
    ensures SumCounts(ConvertAll(employees)) == SumCounts(employees)
    decreases employees, 0
  {
    if employees != [] {
      ConvertKeepsCount(employees[0]);
      ConvertAllKeepsCount(employees[1..]);
      assert ConvertAll(employees)[1..] == ConvertAll(employees[1..]);
    }
  }

  /** Conversion to the renderer's shape does not change which path a search finds. */
  lemma {:induction false} ConvertKeepsPaths<Id>(employee: Node<Id, Record>, targetId: Id)
    ensures FindPath(ConvertToD3Format(employee), targetId) == FindPath(employee, targetId)
    decreases employee, 1
  {
    if employee.children.Present? {
      ConvertAllKeepsPaths(employee.children.nodes, targetId);
    }
  }

  /** Converting siblings does not change which path the search among them finds. */
  lemma {:induction false} ConvertAllKeepsPaths<Id>(employees: seq<Node<Id, Record>>, targetId: Id)
    ensures FindPathAmong(ConvertAll(employees), targetId) == FindPathAmong(employees, targetId)
    decreases employees, 0
  {
    if employees != [] {
      ConvertKeepsPaths(employees[0], targetId);
      ConvertAllKeepsPaths(employees[1..], targetId);
      assert ConvertAll(employees)[1..] == ConvertAll(employees[1..]);
    }
  }
}
