/**
 * The organisation tree: one employee node and its ordered subordinates,
 * plus the vocabulary the components are specified in: the pre-order
 * listing, membership of a node in a tree, and root-to-node id chains.
 */
module Tree {
  import opened Wrappers

  /** The extra fields of a raw employee record as the hierarchy endpoint sends it. */
  datatype Record = Record(role: Option<string>, photoUrl: Option<string>)

  /** The `attributes` object of a rendered node. */
  datatype Attributes = Attributes(role: Option<string>)

  /** The extra fields of a node in the shape the tree renderer consumes. */
  datatype Rendered = Rendered(attributes: Attributes, photoUrl: Option<string>, hasChildren: bool)

  /** The `children` field of a node: absent (`undefined`/`null`) or an ordered array. */
  datatype Children<Id, F> = Absent | Present(nodes: seq<Node<Id, F>>)

  /**
   * A node of the organisation tree. `fields` holds what differs between a
   * raw record and a rendered node.
   */
  datatype Node<Id, F> = Node(id: Id, name: Option<string>, fields: F, children: Children<Id, F>)

  /** The children of `t`, an absent field read as none (`node.children || []`). */
  function Kids<Id, F>(t: Node<Id, F>): seq<Node<Id, F>> {
    match t.children
    case Absent => []
    case Present(kids) => kids
  }

  /** The pre-order listing of a tree: the node itself, then each child's listing in child order. */
  function Flatten<Id, F>(t: Node<Id, F>): seq<Node<Id, F>>
    decreases t, 1
  {
    match t.children
    case Absent => [t]
    case Present(kids) => [t] + FlattenAll(kids)
  }

  /** The concatenated pre-order listings of a sequence of sibling subtrees. */
  function FlattenAll<Id, F>(ts: seq<Node<Id, F>>): seq<Node<Id, F>>
    decreases ts, 0
  {
    if ts == [] then [] else Flatten(ts[0]) + FlattenAll(ts[1..])
  }

  /** `n` is a node of the tree rooted at `t`: the root itself or a node of some child's subtree. */
  ghost predicate IsNodeOf<Id, F>(n: Node<Id, F>, t: Node<Id, F>)
    decreases t
  {
    n == t || (t.children.Present? && exists i :: 0 <= i < |t.children.nodes| && IsNodeOf(n, t.children.nodes[i]))
  }

  /** Some node of the tree rooted at `t` carries the id `x`. */
  ghost predicate Occurs<Id, F>(t: Node<Id, F>, x: Id)
    decreases t
  {
    t.id == x || (t.children.Present? && exists i :: 0 <= i < |t.children.nodes| && Occurs(t.children.nodes[i], x))
  }

  /**
   * `p` lists the ids met on the way from `t` down to its node `n`: it starts
   * at `t`, and each further id belongs to a child of the node before it.
   */
  ghost predicate IsChainTo<Id, F>(t: Node<Id, F>, p: seq<Id>, n: Node<Id, F>)
    decreases t
  {
    && |p| >= 1
    && p[0] == t.id
    && if |p| == 1 then n == t
       else t.children.Present? && exists i :: 0 <= i < |t.children.nodes| && IsChainTo(t.children.nodes[i], p[1..], n)
  }

  /** The ids on the way from `t` down to the `i`-th node of its pre-order listing. */
  ghost function PathAt<Id, F>(t: Node<Id, F>, i: nat): seq<Id>
    requires i < |Flatten(t)|
    decreases t, 1
  {
    if i == 0 || t.children.Absent? then [t.id]
    else [t.id] + PathAtAll(t.children.nodes, i - 1)
  }

  /** The ids on the way from the sibling holding it down to the `i`-th node of `FlattenAll(ts)`. */
  ghost function PathAtAll<Id, F>(ts: seq<Node<Id, F>>, i: nat): seq<Id>
    requires i < |FlattenAll(ts)|
    decreases ts, 0
  {
    var k := |Flatten(ts[0])|;
    if i < k then PathAt(ts[0], i) else PathAtAll(ts[1..], i - k)
  }

  /** A tree's pre-order listing holds exactly its nodes. */
  lemma {:induction false} FlattenListsExactlyTheNodes<Id, F>(t: Node<Id, F>, n: Node<Id, F>)
    ensures n in Flatten(t) <==> IsNodeOf(n, t)
    decreases t, 1
  {
    match t.children
    case Absent =>
    case Present(kids) =>
      FlattenAllListsExactlyTheNodes(kids, n);
  }

  /** The concatenated listing of siblings holds exactly the nodes of their subtrees. */
  lemma {:induction false} FlattenAllListsExactlyTheNodes<Id, F>(ts: seq<Node<Id, F>>, n: Node<Id, F>)
    ensures n in FlattenAll(ts) <==> exists i :: 0 <= i < |ts| && IsNodeOf(n, ts[i])
    decreases ts, 0
  {
    if ts != [] {
      FlattenListsExactlyTheNodes(ts[0], n);
      FlattenAllListsExactlyTheNodes(ts[1..], n);
      if n in FlattenAll(ts[1..]) {
        var j :| 0 <= j < |ts[1..]| && IsNodeOf(n, ts[1..][j]);
        assert IsNodeOf(n, ts[j + 1]);
      }
      if exists i :: 0 <= i < |ts| && IsNodeOf(n, ts[i]) {
        var i :| 0 <= i < |ts| && IsNodeOf(n, ts[i]);
        if i > 0 {
          assert IsNodeOf(n, ts[1..][i - 1]);
        }
      }
    }
  }

  /** `PathAt(t, i)` is a genuine chain from `t` down to the `i`-th listed node. */
  lemma {:induction false} PathAtReachesListedNode<Id, F>(t: Node<Id, F>, i: nat)
    requires i < |Flatten(t)|
    ensures IsChainTo(t, PathAt(t, i), Flatten(t)[i])
    decreases t, 1
  {
    if i > 0 && t.children.Present? {
      var kids := t.children.nodes;
      PathAtAllReachesListedNode(kids, i - 1);
      var j :| 0 <= j < |kids| && IsChainTo(kids[j], PathAtAll(kids, i - 1), FlattenAll(kids)[i - 1]);
      assert PathAt(t, i)[1..] == PathAtAll(kids, i - 1);
    }
  }

  /** `PathAtAll(ts, i)` is a chain from one of the siblings down to the `i`-th listed node. */
  lemma {:induction false} PathAtAllReachesListedNode<Id, F>(ts: seq<Node<Id, F>>, i: nat)
    requires i < |FlattenAll(ts)|
    ensures exists j :: 0 <= j < |ts| && IsChainTo(ts[j], PathAtAll(ts, i), FlattenAll(ts)[i])
    decreases ts, 0
  {
    var k := |Flatten(ts[0])|;
    if i < k {
      PathAtReachesListedNode(ts[0], i);
      assert IsChainTo(ts[0], PathAtAll(ts, i), FlattenAll(ts)[i]);
    } else {
      PathAtAllReachesListedNode(ts[1..], i - k);
      var j :| 0 <= j < |ts[1..]| && IsChainTo(ts[1..][j], PathAtAll(ts[1..], i - k), FlattenAll(ts[1..])[i - k]);
      assert IsChainTo(ts[j + 1], PathAtAll(ts, i), FlattenAll(ts)[i]);
    }
  }

  /** A chain ends with the id of the node it reaches, and that node belongs to the tree. */
  lemma {:induction false} ChainEndsAtItsNode<Id, F>(t: Node<Id, F>, p: seq<Id>, n: Node<Id, F>)
    requires IsChainTo(t, p, n)
    ensures p[|p| - 1] == n.id && IsNodeOf(n, t)
    decreases t
  {
    if |p| > 1 {
      var i :| 0 <= i < |t.children.nodes| && IsChainTo(t.children.nodes[i], p[1..], n);
      ChainEndsAtItsNode(t.children.nodes[i], p[1..], n);
    }
  }

  /** An id occurs in a tree exactly when one of the tree's nodes carries it. */
  lemma {:induction false} OccursIffSomeNodeCarriesIt<Id, F>(t: Node<Id, F>, x: Id)
    ensures Occurs(t, x) <==> exists n :: IsNodeOf(n, t) && n.id == x
    decreases t
  {
    if t.children.Present? {
      var kids := t.children.nodes;
      forall i | 0 <= i < |kids| {
        OccursIffSomeNodeCarriesIt(kids[i], x);
      }
      if Occurs(t, x) && t.id != x {
        var i :| 0 <= i < |kids| && Occurs(kids[i], x);
        var n :| IsNodeOf(n, kids[i]) && n.id == x;
        assert IsNodeOf(n, t);
      }
    }
  }
}
