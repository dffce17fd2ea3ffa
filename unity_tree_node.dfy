/**
 * The nodes of the asset tree the viewer shows. A `Directory` node stands for one
 * element of a path and may have a directory asset attached to it; an `Asset` node is a
 * leaf holding a file asset. Siblings are ordered with every directory before every
 * file and, within a kind, by the lowercased search string.
 *
 * The tree is kept as an arena: node `i` holds `nodes[i]`, the index of its parent
 * `parents[i]` (`-1` for the root, node 0) and the indices of its children, in order,
 * `children[i]`. A node's index plays the part of its object identity.
 */
module UnityTreeNode {
  import opened Wrappers
  import opened JavaString
  import opened Sorting
  import opened UnityAsset

  datatype Node =
    | Directory(relativePathFromParent: string, attached: Option<UnityAsset>)
    | Asset(asset: UnityAsset)
  {
    /** `getAssetName()` returns normally: an Asset's full path has a file name. */
    predicate Named() {
      Asset? ==> asset.FileName().Some?
    }

    /** `getAssetName()`: a Directory's own path element, an Asset's file name. */
    function AssetName(): string
      requires Named()
    {
      if Directory? then relativePathFromParent else asset.FileName().value
    }

    /** `getGuid()`: the attached asset's GUID for a Directory, null without one. */
    function Guid(): Option<string> {
      match this
      case Directory(_, attached) => if attached.Some? then attached.value.Guid() else None
      case Asset(asset) => asset.Guid()
    }

    /** `hasGuid()`. */
    predicate HasGuid() {
      if Directory? then Guid().Some? else true
    }

    /** `hasSize()`. */
    predicate HasSize() {
      Asset?
    }

    /** `getStringForSearchingAndSorting()`; a null GUID prints as `null` after an asset's name. */
    function SearchString(): string
      requires Named()
    {
      match this
      case Directory(name, _) => if Guid().None? then name else name + "\t" + Guid().value
      case Asset(_) => AssetName() + "\t" + ValueOf(Guid())
    }
  }

  /** `setAsset(asset)` on a Directory: only the attached asset changes. */
  function WithAsset(n: Node, a: UnityAsset): (r: Node)
    requires n.Directory?
    ensures r.Directory? && r.relativePathFromParent == n.relativePathFromParent
    ensures r.Guid() == a.Guid()
  {
    Directory(n.relativePathFromParent, Some(a))
  }

  /** A Directory reports a GUID only when an asset with a GUID is attached, and never a size. */
  lemma DirectoryGuidAndSize(n: Node)
    requires n.Directory?
    ensures n.HasGuid() <==> n.attached.Some? && n.attached.value.Guid().Some?
    ensures !n.HasSize()
  {
  }

  /** An Asset always reports a GUID (possibly null) and a size. */
  lemma AssetGuidAndSize(n: Node)
    requires n.Asset?
    ensures n.HasGuid() && n.HasSize()
    ensures n.Guid() == n.asset.Guid()
  {
  }

  predicate NoTab(s: string) {
    forall i :: 0 <= i < |s| ==> s[i] != '\t'
  }

  /**
   * For a directory name without a tab, the search string contains a tab exactly when
   * the directory reports a GUID, and it begins with the name.
   */
  lemma DirectorySearchString(n: Node)
    requires n.Directory? && NoTab(n.relativePathFromParent)
    ensures StartsWith(n.SearchString(), n.relativePathFromParent)
    ensures NoTab(n.SearchString()) <==> !n.HasGuid()
  {
    var s := n.SearchString();
    var name := n.relativePathFromParent;
    if n.HasGuid() {
      assert s[|name|] == '\t';
    }
    assert s[..|name|] == name;
  }

  /** An Asset's search string is its file name, a tab, and its GUID (`null` when it has none). */
  lemma AssetSearchString(n: Node)
    requires n.Asset? && n.Named()
    ensures StartsWith(n.SearchString(), n.asset.FileName().value + "\t")
    ensures n.asset.Guid().None? ==> EndsWith(n.SearchString(), "\tnull")
    ensures n.asset.Guid().Some? ==> EndsWith(n.SearchString(), "\t" + n.asset.Guid().value)
  {
    var name := n.asset.FileName().value;
    var guid := ValueOf(n.asset.Guid());
    assert n.SearchString() == (name + "\t") + guid == name + ("\t" + guid);
    ConcatAffixes(name + "\t", guid);
    ConcatAffixes(name, "\t" + guid);
  }

  // ---------------------------------------------------------------------------
  // Sibling order

  /**
   * `compareTo`: every Directory before every Asset; two nodes of one kind by their
   * lowercased search strings.
   */
  function CompareNodes(a: Node, b: Node): (r: int)
    requires a.Named() && b.Named()
    ensures a.Directory? && b.Asset? ==> r < 0
    ensures a.Asset? && b.Directory? ==> r > 0
    ensures a.Directory? == b.Directory? ==> (r == 0 <==> ToLower(a.SearchString()) == ToLower(b.SearchString()))
  {
    if a.Directory? == b.Directory? then
      CompareToZeroIffEqual(ToLower(a.SearchString()), ToLower(b.SearchString()));
      CompareTo(ToLower(a.SearchString()), ToLower(b.SearchString()))
    else if a.Directory? then -1
    else 1
  }

  /** Nodes of one kind whose search strings differ only in letter case compare equal. */
  lemma CompareNodesIgnoresCase(a: Node, b: Node, c: Node)
    requires a.Named() && b.Named() && c.Named()
    requires a.Directory? == b.Directory?
    requires ToLower(a.SearchString()) == ToLower(b.SearchString())
    ensures CompareNodes(a, b) == 0
    ensures CompareNodes(a, c) == CompareNodes(b, c)
  {
  }

  /** Swapping the operands flips the sign. */
  lemma CompareNodesAntisymmetric(a: Node, b: Node)
    requires a.Named() && b.Named()
    ensures CompareNodes(b, a) < 0 <==> CompareNodes(a, b) > 0
    ensures CompareNodes(b, a) == 0 <==> CompareNodes(a, b) == 0
  {
    if a.Directory? == b.Directory? {
      CompareToAntisymmetric(ToLower(a.SearchString()), ToLower(b.SearchString()));
    }
  }

  lemma CompareNodesTransitive(a: Node, b: Node, c: Node)
    requires a.Named() && b.Named() && c.Named()
    requires CompareNodes(a, b) <= 0 && CompareNodes(b, c) <= 0
    ensures CompareNodes(a, c) <= 0
  {
    if a.Directory? == b.Directory? && b.Directory? == c.Directory? {
      CompareToTransitive(ToLower(a.SearchString()), ToLower(b.SearchString()), ToLower(c.SearchString()));
    }
  }

  /** The sibling order on node indices, for sorting a children list. */
  function ChildOrder(nodes: seq<Node>): (nat, nat) -> int {
    (a: nat, b: nat) =>
      if a < |nodes| && b < |nodes| && nodes[a].Named() && nodes[b].Named() then CompareNodes(nodes[a], nodes[b]) else 0
  }

  /** The sibling order is a total preorder, so `List.sort` may use it. */
  lemma ChildOrderTotal(nodes: seq<Node>, s: seq<nat>)
    requires forall k :: 0 <= k < |s| ==> s[k] < |nodes| && nodes[s[k]].Named()
    ensures TotalPreorderOn(ChildOrder(nodes), Elements(s))
  {
    var S := Elements(s);
    forall i | i in S ensures i < |nodes| && nodes[i].Named() {
      var k :| 0 <= k < |s| && s[k] == i;
    }
    var cmp := ChildOrder(nodes);
    forall a, b | a in S && b in S ensures cmp(a, b) <= 0 || cmp(b, a) <= 0 {
      CompareNodesAntisymmetric(nodes[a], nodes[b]);
    }
    forall a, b, c | a in S && b in S && c in S && cmp(a, b) <= 0 && cmp(b, c) <= 0 ensures cmp(a, c) <= 0 {
      CompareNodesTransitive(nodes[a], nodes[b], nodes[c]);
    }
  }

  /** In a sorted children list, no Asset comes before a Directory. */
  lemma DirectoriesFirst(nodes: seq<Node>, s: seq<nat>)
    requires forall k :: 0 <= k < |s| ==> s[k] < |nodes| && nodes[s[k]].Named()
    requires SortedBy(s, ChildOrder(nodes))
    ensures forall k, l :: 0 <= k < l < |s| && nodes[s[l]].Directory? ==> nodes[s[k]].Directory?
  {
    forall k, l | 0 <= k < l < |s| && nodes[s[l]].Directory? ensures nodes[s[k]].Directory? {
      assert ChildOrder(nodes)(s[k], s[l]) <= 0;
    }
  }

  // ---------------------------------------------------------------------------
  // The tree as a value

  datatype Forest = Forest(nodes: seq<Node>, parents: seq<int>, children: seq<seq<nat>>)

  /**
   * A tree rooted at Directory node 0: every other node has an earlier parent whose
   * children list holds it, children lists hold only nodes whose parent is the owner,
   * Asset nodes have no children, and every Asset has a file name.
   */
  predicate ValidForest(f: Forest) {
    |f.nodes| == |f.parents| == |f.children| > 0 &&
    f.nodes[0].Directory? && f.parents[0] == -1 &&
    (forall i :: 0 < i < |f.parents| ==> 0 <= f.parents[i] < i) &&
    (forall p, c :: 0 <= p < |f.children| && c in f.children[p] ==> 0 < c < |f.nodes|) &&
    (forall p, c :: 0 <= p < |f.children| && c in f.children[p] ==> f.parents[c] == p) &&
    (forall c :: 0 < c < |f.nodes| ==> c in f.children[f.parents[c]]) &&
    (forall p :: 0 <= p < |f.nodes| && f.nodes[p].Asset? ==> f.children[p] == []) &&
    (forall i {:trigger f.nodes[i].Named()} :: 0 <= i < |f.nodes| ==> f.nodes[i].Named())
  }

  const RootName: string := "(root)"

  /** `new UnityTreeNode.Directory(Paths.get("(root)"))`: a root without asset or children. */
  function RootForest(): (r: Forest)
    ensures ValidForest(r) && |r.nodes| == 1
    ensures r.nodes[0] == Directory(RootName, None) && r.children[0] == []
  {
    Forest([Directory(RootName, None)], [-1], [[]])
  }

  /** `m` and `n` are the same node, up to the asset attached to a Directory. */
  predicate SameNode(m: Node, n: Node) {
    m.Directory? == n.Directory? &&
    (m.Directory? ==> m.relativePathFromParent == n.relativePathFromParent) &&
    (m.Asset? ==> m.asset == n.asset)
  }

  /** `g` keeps every node of `f`, with its parent, kind and name. */
  predicate Extends(f: Forest, g: Forest) {
    |f.nodes| <= |g.nodes| && |f.parents| <= |g.parents| &&
    (forall i :: 0 <= i < |f.parents| ==> g.parents[i] == f.parents[i]) &&
    (forall i :: 0 <= i < |f.nodes| ==> SameNode(f.nodes[i], g.nodes[i]))
  }

  lemma ExtendsTransitive(f: Forest, g: Forest, h: Forest)
    requires Extends(f, g) && Extends(g, h)
    ensures Extends(f, h)
  {
  }

  /** `parent.add(n)`: `n` becomes the new last child of `parent`. */
  function AddChild(f: Forest, parent: nat, n: Node): (r: Forest)
    requires ValidForest(f) && parent < |f.nodes| && f.nodes[parent].Directory? && n.Named()
    ensures ValidForest(r) && Extends(f, r)
    ensures r.nodes == f.nodes + [n] && r.parents == f.parents + [parent]
    ensures r.children[parent] == f.children[parent] + [|f.nodes|]
    ensures forall p :: 0 <= p < |f.nodes| && p != parent ==> r.children[p] == f.children[p]
  {
    AddChildValid(f, parent, n);
    Appended(f, parent, n)
  }

  function Appended(f: Forest, parent: nat, n: Node): Forest
    requires parent < |f.children|
  {
    Forest(f.nodes + [n], f.parents + [parent], f.children[parent := f.children[parent] + [|f.nodes|]] + [[]])
  }

  lemma AddChildValid(f: Forest, parent: nat, n: Node)
    requires ValidForest(f) && parent < |f.nodes| && f.nodes[parent].Directory? && n.Named()
    ensures ValidForest(Appended(f, parent, n))
  {
    var id := |f.nodes|;
    var r := Appended(f, parent, n);
    AppendedMembers(f, parent, n);
    forall p, c | 0 <= p < |r.children| && c in r.children[p] ensures 0 < c < |r.nodes| && r.parents[c] == p {
      assert c in f.children[p] || (p == parent && c == id);
    }
    forall c | 0 < c < |r.nodes| ensures c in r.children[r.parents[c]] {
      if c < id {
        assert c in f.children[f.parents[c]];
      }
    }
    forall p | 0 <= p < |r.nodes| && r.nodes[p].Asset? ensures r.children[p] == [] {
      if p < id {
        assert f.nodes[p].Asset?;
      }
    }
  }

  lemma AppendedMembers(f: Forest, parent: nat, n: Node)
    requires parent < |f.children|
    ensures forall p, c :: 0 <= p < |f.children| + 1 && c in Appended(f, parent, n).children[p] ==>
      (p < |f.children| && c in f.children[p]) || (p == parent && c == |f.nodes|)
    ensures forall p :: 0 <= p < |f.children| ==> f.children[p] <= Appended(f, parent, n).children[p]
  {
  }

  /** `setAsset(a)` on Directory node `id`. */
  function AttachAsset(f: Forest, id: nat, a: UnityAsset): (r: Forest)
    requires ValidForest(f) && id < |f.nodes| && f.nodes[id].Directory?
    ensures ValidForest(r) && Extends(f, r) && Extends(r, f)
    ensures |r.nodes| == |f.nodes| && r.nodes[id] == WithAsset(f.nodes[id], a) && r.children == f.children
    ensures forall i :: 0 <= i < |f.nodes| && i != id ==> r.nodes[i] == f.nodes[i]
  {
    f.(nodes := f.nodes[id := WithAsset(f.nodes[id], a)])
  }

  // ---------------------------------------------------------------------------
  // Paths in the tree

  /** Node `j` is `top` or lies below it. */
  predicate InSubtree(parents: seq<int>, top: int, j: int)
    decreases j
  {
    0 <= j < |parents| &&
    (j == top || (top < j && 0 <= parents[j] < j && InSubtree(parents, top, parents[j])))
  }

  /** The names of the nodes from just below `top` down to `j`. */
  function NamesFrom(f: Forest, top: int, j: int): seq<string>
    requires ValidForest(f) && InSubtree(f.parents, top, j)
    decreases j
  {
    if j == top then [] else NamesFrom(f, top, f.parents[j]) + [f.nodes[j].AssetName()]
  }

  /** Every node lies below the root. */
  lemma {:induction false} UnderRoot(f: Forest, j: int)
    requires ValidForest(f) && 0 <= j < |f.nodes|
    ensures InSubtree(f.parents, 0, j)
    decreases j
  {
    if j != 0 {
      UnderRoot(f, f.parents[j]);
    }
  }

  /** A node with a node below it is a Directory. */
  lemma {:induction false} AncestorIsDirectory(f: Forest, top: int, j: int)
    requires ValidForest(f) && 0 <= top && InSubtree(f.parents, top, j) && j != top
    ensures f.nodes[top].Directory?
    decreases j
  {
    if f.parents[j] == top {
      assert j in f.children[top];
    } else {
      AncestorIsDirectory(f, top, f.parents[j]);
    }
  }

  /** What lies below a child lies below its parent. */
  lemma {:induction false} BelowChild(f: Forest, c: int, j: int)
    requires ValidForest(f) && 0 < c < |f.nodes| && InSubtree(f.parents, c, j)
    ensures InSubtree(f.parents, f.parents[c], j) && j != f.parents[c]
    decreases j
  {
    if j != c {
      BelowChild(f, c, f.parents[j]);
    }
  }

  /** A node strictly below `top` lies below one of `top`'s children. */
  lemma {:induction false} ChildOnPath(f: Forest, top: int, j: int) returns (c: nat)
    requires ValidForest(f) && 0 <= top && InSubtree(f.parents, top, j) && j != top
    ensures c in f.children[top] && InSubtree(f.parents, c, j)
    decreases j
  {
    if f.parents[j] == top {
      c := j;
    } else {
      c := ChildOnPath(f, top, f.parents[j]);
    }
  }

  /** A child comes after its parent. */
  lemma ChildIsLater(f: Forest, p: nat, c: nat)
    requires ValidForest(f) && p < |f.children| && c in f.children[p]
    ensures p < c < |f.nodes| && f.parents[c] == p
  {
  }

  /** Extending a tree moves no old node and renames none. */
  lemma {:induction false} ExtendsKeepsPaths(f: Forest, g: Forest, top: int, j: int)
    requires ValidForest(f) && ValidForest(g) && Extends(f, g) && 0 <= j < |f.nodes|
    ensures InSubtree(g.parents, top, j) <==> InSubtree(f.parents, top, j)
    ensures InSubtree(f.parents, top, j) ==> NamesFrom(g, top, j) == NamesFrom(f, top, j)
    decreases j
  {
    if j != top && top < j && j > 0 {
      ExtendsKeepsPaths(f, g, top, f.parents[j]);
    }
  }

  // ---------------------------------------------------------------------------
  // recursiveSort

  /** Children list `j` sorted by the sibling order. */
  function SortedChildren(f: Forest, j: nat): seq<nat>
    requires j < |f.children|
  {
    SortBy(f.children[j], ChildOrder(f.nodes))
  }

  /** The children lists after `recursiveSort()` on `top`. */
  function SortedLists(f: Forest, top: nat): (r: seq<seq<nat>>)
    requires |f.nodes| == |f.parents| == |f.children|
    ensures |r| == |f.children|
  {
    seq(|f.children|, j requires 0 <= j < |f.children| =>
      if InSubtree(f.parents, top, j) && f.nodes[j].Directory? then SortedChildren(f, j) else f.children[j])
  }

  /** The tree after `recursiveSort()` on Directory `top`: the children of every Directory below it sorted. */
  function SortedSubtree(f: Forest, top: nat): (r: Forest)
    requires ValidForest(f)
    ensures ValidForest(r) && Extends(f, r)
    ensures r.nodes == f.nodes && r.parents == f.parents && |r.children| == |f.children|
  {
    var r := f.(children := SortedLists(f, top));
    forall j | 0 <= j < |f.children| ensures multiset(r.children[j]) == multiset(f.children[j]) {
      SortByPermutes(f.children[j], ChildOrder(f.nodes));
    }
    ReorderedValid(f, r);
    r
  }

  /** Reordering children lists keeps a tree valid. */
  lemma ReorderedValid(f: Forest, g: Forest)
    requires ValidForest(f) && g.nodes == f.nodes && g.parents == f.parents && |g.children| == |f.children|
    requires forall j :: 0 <= j < |f.children| ==> multiset(g.children[j]) == multiset(f.children[j])
    ensures ValidForest(g)
  {
    forall p, c | 0 <= p < |g.children| && c in g.children[p] ensures c in f.children[p] {
      assert c in multiset(g.children[p]);
    }
    forall c | 0 < c < |g.nodes| ensures c in g.children[g.parents[c]] {
      assert c in multiset(f.children[f.parents[c]]);
    }
    forall p | 0 <= p < |g.nodes| && g.nodes[p].Asset? ensures g.children[p] == [] {
      assert |g.children[p]| == |multiset(g.children[p])|;
    }
  }

  /**
   * After `recursiveSort()`, the children of every Directory below `top` are sorted
   * Directories first, then by lowercased search string, and are the same children as
   * before; every other children list is untouched.
   */
  lemma SortedSubtreeSorts(f: Forest, top: nat, j: nat)
    requires ValidForest(f) && j < |f.nodes|
    ensures InSubtree(f.parents, top, j) && f.nodes[j].Directory? ==>
      SortedBy(SortedSubtree(f, top).children[j], ChildOrder(f.nodes))
    ensures multiset(SortedSubtree(f, top).children[j]) == multiset(f.children[j])
    ensures !(InSubtree(f.parents, top, j) && f.nodes[j].Directory?) ==>
      SortedSubtree(f, top).children[j] == f.children[j]
  {
    ChildrenListed(f, j);
    ChildOrderTotal(f.nodes, f.children[j]);
    SortBySorted(f.children[j], ChildOrder(f.nodes));
    SortByPermutes(f.children[j], ChildOrder(f.nodes));
  }

  /** After `recursiveSort()` on the root, no Asset precedes a Directory among any node's children. */
  lemma SortedTreeDirectoriesFirst(f: Forest, j: nat)
    requires ValidForest(f) && j < |f.nodes|
    ensures var s := SortedSubtree(f, 0).children[j];
      forall k, l :: 0 <= k < l < |s| ==>
        s[k] < |f.nodes| && s[l] < |f.nodes| && (f.nodes[s[l]].Directory? ==> f.nodes[s[k]].Directory?)
  {
    var r := SortedSubtree(f, 0);
    var s := r.children[j];
    UnderRoot(f, j);
    SortedSubtreeSorts(f, 0, j);
    ChildrenListed(r, j);
    if f.nodes[j].Directory? {
      DirectoriesFirst(f.nodes, s);
    }
  }

  lemma ChildrenListed(f: Forest, j: nat)
    requires ValidForest(f) && j < |f.children|
    ensures forall k :: 0 <= k < |f.children[j]| ==> f.children[j][k] < |f.nodes| && f.nodes[f.children[j][k]].Named()
  {
    forall k | 0 <= k < |f.children[j]| ensures f.children[j][k] < |f.nodes| && f.nodes[f.children[j][k]].Named() {
      var c := f.children[j][k];
      assert c in f.children[j];
      assert 0 < c < |f.nodes|;
      assert f.nodes[c].Named();
    }
  }

  /** Some Directory of `kids` has `j` below it; `kids` is scanned from its end. */
  predicate Covered(f: Forest, kids: seq<nat>, j: int)
    decreases |kids|
  {
    kids != [] &&
    (Covered(f, kids[..|kids| - 1], j) ||
     (kids[|kids| - 1] < |f.nodes| && f.nodes[kids[|kids| - 1]].Directory? && InSubtree(f.parents, kids[|kids| - 1], j)))
  }

  lemma {:induction false} CoveredExists(f: Forest, kids: seq<nat>, j: int)
    ensures Covered(f, kids, j) <==>
      exists k :: 0 <= k < |kids| && kids[k] < |f.nodes| && f.nodes[kids[k]].Directory? && InSubtree(f.parents, kids[k], j)
    decreases |kids|
  {
    if kids != [] {
      var n := |kids| - 1;
      CoveredExists(f, kids[..n], j);
      assert forall k :: 0 <= k < n ==> kids[..n][k] == kids[k];
    }
  }

  /** The Directories among `top`'s children cover exactly the Directories strictly below `top`. */
  lemma CoveredByChildren(f: Forest, top: nat, kids: seq<nat>, j: int)
    requires ValidForest(f) && top < |f.nodes|
    requires forall x :: x in kids <==> x in f.children[top]
    requires 0 <= j < |f.nodes| && f.nodes[j].Directory?
    ensures Covered(f, kids, j) <==> j != top && InSubtree(f.parents, top, j)
  {
    CoveredExists(f, kids, j);
    if Covered(f, kids, j) {
      var k :| 0 <= k < |kids| && kids[k] < |f.nodes| && f.nodes[kids[k]].Directory? && InSubtree(f.parents, kids[k], j);
      assert kids[k] in f.children[top];
      BelowChild(f, kids[k], j);
    }
    if j != top && InSubtree(f.parents, top, j) {
      var c := ChildOnPath(f, top, j);
      if c != j {
        AncestorIsDirectory(f, c, j);
      }
      var k :| 0 <= k < |kids| && kids[k] == c;
    }
  }

  /**
   * `cs` is `f`'s children lists while `recursiveSort()` on `id` runs: `id`'s own list is
   * sorted, and so are those of the Directories below the Directory children in `done`.
   */
  predicate PartiallySorted(f: Forest, cs: seq<seq<nat>>, id: nat, done: seq<nat>)
    requires ValidForest(f)
  {
    |cs| == |f.children| &&
    forall j :: 0 <= j < |cs| ==>
      cs[j] == if j == id || (Covered(f, done, j) && f.nodes[j].Directory?) then SortedChildren(f, j) else f.children[j]
  }

  /** Sorting `id`'s own children starts the sort, and keeps the tree valid. */
  lemma SortOwn(f: Forest, id: nat)
    requires ValidForest(f) && id < |f.nodes|
    ensures ValidForest(f.(children := f.children[id := SortedChildren(f, id)]))
    ensures PartiallySorted(f, f.children[id := SortedChildren(f, id)], id, [])
    ensures forall x :: x in SortedChildren(f, id) <==> x in f.children[id]
  {
    SortByPermutes(f.children[id], ChildOrder(f.nodes));
    SortByMembers(f.children[id], ChildOrder(f.nodes));
    ReorderedValid(f, f.(children := f.children[id := SortedChildren(f, id)]));
  }

  /** A children list that is partly sorted still forms a valid tree. */
  lemma PartiallySortedValid(f: Forest, cs: seq<seq<nat>>, id: nat, done: seq<nat>)
    requires ValidForest(f) && PartiallySorted(f, cs, id, done)
    ensures ValidForest(Forest(f.nodes, f.parents, cs))
  {
    forall j | 0 <= j < |f.children| ensures multiset(cs[j]) == multiset(f.children[j]) {
      SortByPermutes(f.children[j], ChildOrder(f.nodes));
    }
    ReorderedValid(f, Forest(f.nodes, f.parents, cs));
  }

  /** An Asset child has nothing below it to sort. */
  lemma SkipStep(f: Forest, cs: seq<seq<nat>>, id: nat, kids: seq<nat>, k: nat)
    requires ValidForest(f) && k < |kids| && kids[k] < |f.nodes| && f.nodes[kids[k]].Asset?
    requires PartiallySorted(f, cs, id, kids[..k])
    ensures PartiallySorted(f, cs, id, kids[..k + 1])
  {
    forall j | 0 <= j < |cs| ensures Covered(f, kids[..k + 1], j) == Covered(f, kids[..k], j) {
      CoveredSnoc(f, kids, k, j);
    }
  }

  /** Sorting below the next Directory child `kids[k]` extends the sorted part. */
  lemma SortStep(f: Forest, g: Forest, id: nat, kids: seq<nat>, k: nat)
    requires ValidForest(f) && ValidForest(g) && g.nodes == f.nodes && g.parents == f.parents
    requires id < |f.nodes| && k < |kids| && kids[k] in f.children[id]
    requires f.nodes[kids[k]].Directory?
    requires PartiallySorted(f, g.children, id, kids[..k])
    ensures PartiallySorted(f, SortedSubtree(g, kids[k]).children, id, kids[..k + 1])
  {
    var h := SortedLists(g, kids[k]);
    assert SortedSubtree(g, kids[k]).children == h;
    forall j | 0 <= j < |h|
      ensures h[j] ==
        if j == id || (Covered(f, kids[..k + 1], j) && f.nodes[j].Directory?) then SortedChildren(f, j) else f.children[j]
    {
      CoveredSnoc(f, kids, k, j);
      SortStepAt(f, g, id, kids[k], kids[..k], kids[..k + 1], j);
    }
  }

  lemma SortStepAt(f: Forest, g: Forest, id: nat, c: nat, before: seq<nat>, after: seq<nat>, j: nat)
    requires ValidForest(f) && ValidForest(g) && g.nodes == f.nodes && g.parents == f.parents
    requires id < |f.nodes| && c in f.children[id] && f.nodes[c].Directory?
    requires j < |f.children| && |g.children| == |f.children|
    requires g.children[j] ==
      if j == id || (Covered(f, before, j) && f.nodes[j].Directory?) then SortedChildren(f, j) else f.children[j]
    requires Covered(f, after, j) == (Covered(f, before, j) || InSubtree(f.parents, c, j))
    ensures SortedLists(g, c)[j] ==
      if j == id || (Covered(f, after, j) && f.nodes[j].Directory?) then SortedChildren(f, j) else f.children[j]
  {
    ChildIsLater(f, id, c);
    var below := InSubtree(f.parents, c, j) && f.nodes[j].Directory?;
    assert SortedLists(g, c)[j] == if below then SortBy(g.children[j], ChildOrder(f.nodes)) else g.children[j];
    if below {
      SortTwiceChildren(f, j);
    }
  }

  /** Sorting a sorted children list again changes nothing. */
  lemma SortTwiceChildren(f: Forest, j: nat)
    requires ValidForest(f) && j < |f.children|
    ensures SortBy(SortedChildren(f, j), ChildOrder(f.nodes)) == SortedChildren(f, j)
  {
    ChildrenListed(f, j);
    ChildOrderTotal(f.nodes, f.children[j]);
    SortTwice(f.children[j], ChildOrder(f.nodes));
  }

  lemma CoveredSnoc(f: Forest, kids: seq<nat>, k: nat, j: int)
    requires k < |kids| && kids[k] < |f.nodes|
    ensures Covered(f, kids[..k + 1], j) ==
      (Covered(f, kids[..k], j) || (f.nodes[kids[k]].Directory? && InSubtree(f.parents, kids[k], j)))
  {
    assert kids[..k + 1][..k] == kids[..k];
  }

  /** Once every child is done, the whole subtree is sorted. */
  lemma SortDone(f: Forest, cs: seq<seq<nat>>, id: nat, kids: seq<nat>)
    requires ValidForest(f) && id < |f.nodes|
    requires forall x :: x in kids <==> x in f.children[id]
    requires PartiallySorted(f, cs, id, kids)
    ensures cs == SortedSubtree(f, id).children
  {
    forall j | 0 <= j < |cs| ensures cs[j] == SortedSubtree(f, id).children[j] {
      if j != id && f.nodes[j].Directory? {
        CoveredByChildren(f, id, kids, j);
      }
    }
  }

  /**
   * An Asset node of a tree: the tree, the node's index in it and the asset the node
   * was created for, which never changes afterwards.
   */
  datatype AssetNode = AssetNode(tree: UnityTree, id: nat, asset: UnityAsset)

  class UnityTree {
    var nodes: seq<Node>
    var parents: seq<int>
    var children: seq<seq<nat>>

    function Value(): Forest
      reads this
    {
      Forest(nodes, parents, children)
    }

    ghost predicate Valid()
      reads this
    {
      ValidForest(Value())
    }

    /** `new UnityTreeNode.Directory(Paths.get("(root)"))`. */
    constructor ()
      ensures Value() == RootForest()
    {
      nodes := [Directory(RootName, None)];
      parents := [-1];
      children := [[]];
    }

    /** `add(n)` on node `parent`; returns the new node. */
    method Add(parent: nat, n: Node) returns (id: nat)
      requires Valid() && parent < |nodes| && nodes[parent].Directory? && n.Named()
      modifies this
      ensures Value() == AddChild(old(Value()), parent, n)
      ensures id == old(|nodes|)
    {
      id := |nodes|;
      nodes := nodes + [n];
      parents := parents + [parent];
      children := children[parent := children[parent] + [id]] + [[]];
    }

    /** `setAsset(a)` on Directory node `id`. */
    method SetAsset(id: nat, a: UnityAsset)
      requires Valid() && id < |nodes| && nodes[id].Directory?
      modifies this
      ensures Value() == AttachAsset(old(Value()), id, a)
    {
      nodes := nodes[id := Directory(nodes[id].relativePathFromParent, Some(a))];
    }

    /** `getPath()` of node `id`: the nodes from the root down to it. */
    function NodePath(id: nat): (r: seq<nat>)
      reads this
      requires Valid() && id < |nodes|
      ensures r != [] && r[0] == 0 && r[|r| - 1] == id
      ensures forall k :: 0 <= k < |r| ==> r[k] < |nodes|
      ensures forall k :: 0 < k < |r| ==> parents[r[k]] == r[k - 1] && r[k] in children[r[k - 1]]
      decreases id
    {
      if id == 0 then [0] else NodePath(parents[id]) + [id]
    }

    /**
     * `recursiveSort()` on Directory `id`: sorts its children, then recurses into its
     * Directory children. An empty children list (Java's null) stays as it is.
     */
    method RecursiveSort(id: nat)
      requires Valid() && id < |nodes| && nodes[id].Directory?
      modifies this`children
      ensures Value() == SortedSubtree(old(Value()), id)
      decreases |nodes| - id, 1
    {
      ghost var f := Value();
      children := children[id := SortBy(children[id], ChildOrder(nodes))];
      SortOwn(f, id);
      var kids := children[id];
      SortDirectoryChildren(id, kids, f);
      SortDone(f, children, id, kids);
    }

    /** The loop of `recursiveSort()` over the children `kids` of `id`, already sorted. */
    method SortDirectoryChildren(id: nat, kids: seq<nat>, ghost f: Forest)
      requires ValidForest(f) && id < |f.nodes| && nodes == f.nodes && parents == f.parents
      requires forall x :: x in kids <==> x in f.children[id]
      requires PartiallySorted(f, children, id, [])
      modifies this`children
      ensures PartiallySorted(f, children, id, kids)
      decreases |nodes| - id, 0
    {
      var k := 0;
      assert kids[..0] == [];
      while k < |kids|
        invariant 0 <= k <= |kids|
        invariant PartiallySorted(f, children, id, kids[..k])
      {
        var c := kids[k];
        ChildIsLater(f, id, c);
        if nodes[c].Directory? {
          ghost var g := Value();
          PartiallySortedValid(f, children, id, kids[..k]);
          RecursiveSort(c);
          SortStep(f, g, id, kids, k);
        } else {
          SkipStep(f, children, id, kids, k);
        }
        k := k + 1;
      }
      assert kids[..k] == kids;
    }
  }
}
