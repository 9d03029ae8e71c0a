/**
 * The employee listing of src/DirectoryPanel.jsx: a pre-order walk that
 * pushes every node of the tree onto one shared, growing list.
 */
module DirectoryPanel {
  import opened Wrappers
  import opened Tree

  /** The JavaScript array the walk pushes onto. */
  class EntryList<Id, F> {
    var items: seq<Node<Id, F>>

    constructor ()
      ensures items == []
    {
      items := [];
    }

    /** Appends one node at the end of the list. */
    method Push(node: Node<Id, F>)
      modifies this
      ensures items == old(items) + [node]
    {
      items := items + [node];
    }
  }

  /**
   * `flattenTree(node, list)`: appends the pre-order listing of `node` to
   * `list`, leaving what the list held before as an untouched prefix.
   */
  method FlattenTree<Id, F>(node: Node<Id, F>, list: EntryList<Id, F>)
    modifies list
    ensures list.items == old(list.items) + Flatten(node)
    decreases node
  {
    list.Push(node);
    if node.children.Present? {
      var kids := node.children.nodes;
      var i := 0;
      while i < |kids|
        invariant 0 <= i <= |kids|
        invariant list.items == old(list.items) + [node] + FlattenAll(kids[..i])
      {
        FlattenTree(kids[i], list);
        FlattenAllOfSnoc(kids, i);
        i := i + 1;
      }
      assert kids[..i] == kids;
    }
  }

  /** Walking one more sibling extends the concatenated listing by that sibling's listing. */
  lemma {:induction false} FlattenAllOfSnoc<Id, F>(ts: seq<Node<Id, F>>, i: nat)
    requires i < |ts|
    ensures FlattenAll(ts[..i + 1]) == FlattenAll(ts[..i]) + Flatten(ts[i])
  {
    if i > 0 {
      assert ts[..i + 1][1..] == ts[1..][..i];
      assert ts[..i][1..] == ts[1..][..i - 1];
      FlattenAllOfSnoc(ts[1..], i - 1);
    }
  }

  /** The listing the panel shows: nothing before data arrives, else the root's pre-order listing. */
  function Listing<Id, F>(data: Option<Node<Id, F>>): seq<Node<Id, F>> {
    match data
    case None => []
    case Some(root) => Flatten(root)
  }

  /** The panel's employee listing: empty before data arrives, else the walk of the root into a fresh list. */
  method Employees<Id, F>(data: Option<Node<Id, F>>) returns (employees: seq<Node<Id, F>>)
    ensures employees == Listing(data)
    ensures data.None? ==> employees == []
    ensures data.Some? ==> employees != [] && employees[0] == data.value
  {
    var list := new EntryList();
    if data.Some? {
      FlattenTree(data.value, list);
    }
    employees := list.items;
  }

  /** The listing holds every node of the tree and nothing else. */
  lemma ListingHoldsExactlyTheNodes<Id, F>(root: Node<Id, F>, n: Node<Id, F>)
    ensures n in Listing(Some(root)) <==> IsNodeOf(n, root)
    ensures Listing(Some(root))[0] == root
  {
    FlattenListsExactlyTheNodes(root, n);
  }
}
