/**
 * The chart state of src/OrgChart.jsx: the loaded tree, the highlighted
 * root-to-node path a click selects, the head count shown in the header,
 * and which links are drawn highlighted.
 */
module OrgChart {
  import opened Wrappers
  import opened Tree
  import opened OrgTree
  import DirectoryPanel

  /** The path a click on `clickedId` highlights: the search result, or the empty path when the search finds nothing. */
  function ClickPath<Id(==), F>(root: Node<Id, F>, clickedId: Id): (path: seq<Id>)
    ensures path != [] <==> Occurs(root, clickedId)
    ensures path != [] ==> path[0] == root.id && path[|path| - 1] == clickedId
    ensures path != [] ==> FirstMatch(Flatten(root), clickedId).Some? &&
                           IsChainTo(root, path, Flatten(root)[FirstMatch(Flatten(root), clickedId).value])
  {
    FindPathLeadsToFirstMatch(root, clickedId);
    match FindPath(root, clickedId)
    case Some(p) => p
    case None => []
  }

  /** The `isHighlighted` test of `customLink`: both ends of the link lie on the highlighted path. */
  predicate IsHighlighted<Id(==)>(highlightedPath: seq<Id>, sourceId: Id, targetId: Id)
    ensures highlightedPath == [] ==> !IsHighlighted(highlightedPath, sourceId, targetId)
    ensures IsHighlighted(highlightedPath, sourceId, targetId) <==>
              (exists i :: 0 <= i < |highlightedPath| && highlightedPath[i] == sourceId) &&
              (exists j :: 0 <= j < |highlightedPath| && highlightedPath[j] == targetId)
  {
    sourceId in highlightedPath && targetId in highlightedPath
  }

  /** Some node of the tree rooted at `t` with id `sourceId` has a child with id `targetId`. */
  ghost predicate IsLink<Id, F>(t: Node<Id, F>, sourceId: Id, targetId: Id)
    decreases t
  {
    t.children.Present? &&
    ((t.id == sourceId && exists i :: 0 <= i < |t.children.nodes| && t.children.nodes[i].id == targetId) ||
     exists i :: 0 <= i < |t.children.nodes| && IsLink(t.children.nodes[i], sourceId, targetId))
  }

  /** Each step of a chain is a parent-to-child link of the tree. */
  lemma {:induction false} ChainStepsAreLinks<Id, F>(t: Node<Id, F>, p: seq<Id>, n: Node<Id, F>, k: nat)
    requires IsChainTo(t, p, n) && k + 1 < |p|
    ensures IsLink(t, p[k], p[k + 1])
    decreases t
  {
    var i :| 0 <= i < |t.children.nodes| && IsChainTo(t.children.nodes[i], p[1..], n);
    if k > 0 {
      ChainStepsAreLinks(t.children.nodes[i], p[1..], n, k - 1);
    }
  }

  /**
   * After a click on an id of the tree, every link between consecutive ids of
   * the highlighted path is a link of the tree, and it is drawn highlighted.
   */
  lemma ClickHighlightsLinksAlongPath<Id, F>(root: Node<Id, F>, clickedId: Id, k: nat)
    requires k + 1 < |ClickPath(root, clickedId)|
    ensures IsLink(root, ClickPath(root, clickedId)[k], ClickPath(root, clickedId)[k + 1])
    ensures IsHighlighted(ClickPath(root, clickedId), ClickPath(root, clickedId)[k], ClickPath(root, clickedId)[k + 1])
  {
    var p := ClickPath(root, clickedId);
    ChainStepsAreLinks(root, p, Flatten(root)[FirstMatch(Flatten(root), clickedId).value], k);
  }

  /** After a click on an id outside the tree nothing is highlighted, as before any click. */
  lemma NothingHighlightedOffTree<Id, F>(root: Node<Id, F>, clickedId: Id, sourceId: Id, targetId: Id)
    requires !Occurs(root, clickedId)
    ensures ClickPath(root, clickedId) == []
    ensures !IsHighlighted(ClickPath(root, clickedId), sourceId, targetId)
    ensures !IsHighlighted([], sourceId, targetId)
  {
  }

  /** The component's state: `data` (the wrapped root, once fetched) and `highlightedPath`. */
  class Chart<Id(==)> {
    var data: Option<Node<Id, Rendered>>
    var highlightedPath: seq<Id>

    /** Initial state: nothing fetched yet, nothing highlighted. */
    constructor ()
      ensures data == None && highlightedPath == []
    {
      data := None;
      highlightedPath := [];
    }

    /** The fetch completing with the raw record `tree`: the chart stores it converted to the renderer's shape. */
    method Load(tree: Node<Id, Record>)
      modifies this`data
      ensures data == Some(ConvertToD3Format(tree))
      ensures highlightedPath == old(highlightedPath)
    {
      data := Some(ConvertToD3Format(tree));
    }

    /** The memoised `employeeCount`. */
    function Total(): (n: nat)
      reads this
      ensures n == 0 <==> data.None?
      ensures data.Some? ==> n == CountEmployees(data.value)
      ensures n == |DirectoryPanel.Listing(data)|
    {
      match data
      case None => 0
      case Some(root) => CountIsListingLength(root); CountEmployees(root)
    }

    /**
     * `handleNodeClick`: highlights the path from the root to the clicked id,
     * or nothing when the id is not in the tree. The tree itself is untouched.
     */
    method HandleNodeClick(clickedId: Id)
      requires data.Some?
      modifies this`highlightedPath
      ensures data == old(data)
      ensures highlightedPath == ClickPath(data.value, clickedId)
      ensures highlightedPath == match FindPath(data.value, clickedId)
                                 case Some(path) => path
                                 case None => []
      ensures Occurs(data.value, clickedId) ==>
                highlightedPath != [] && highlightedPath[0] == data.value.id && highlightedPath[|highlightedPath| - 1] == clickedId
      ensures !Occurs(data.value, clickedId) ==> highlightedPath == []
    {
      var path := FindPath(data.value, clickedId);
      highlightedPath := path.GetOr([]);
    }
  }
}
