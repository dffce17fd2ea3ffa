/**
 * One hit of a search: an Asset node, shown as its full path, size and GUID, and
 * ordered by that text without regard to letter case.
 */
module SearchResult {
  import opened Wrappers
  import opened JavaString
  import opened Sorting
  import opened UnityAsset
  import opened UnityTreeNode

  datatype SearchResult = SearchResult(assetNode: AssetNode)

  /** What `toString()` prints after the asset path: ` (<size> bytes) {<guid>}`. */
  function Details(a: UnityAsset): string {
    " (" + IntToString(a.Size()) + " bytes) {" + ValueOf(a.Guid()) + "}"
  }

  /** `toString()`: `"%s (%,d bytes) {%s}"` of the asset path, size and GUID; null prints as `null`. */
  function Display(r: SearchResult): string {
    ValueOf(r.assetNode.asset.FullPath()) + Details(r.assetNode.asset)
  }

  /** `compareTo`: the lowercased display strings, by `String.compareTo`. */
  function CompareResults(x: SearchResult, y: SearchResult): int {
    CompareTo(ToLower(Display(x)), ToLower(Display(y)))
  }

  /** Two results are equivalent exactly when their display strings agree up to case; in particular every result is equivalent to itself. */
  lemma CompareResultsZeroIff(x: SearchResult, y: SearchResult)
    ensures CompareResults(x, y) == 0 <==> ToLower(Display(x)) == ToLower(Display(y))
    ensures CompareResults(x, x) == 0
  {
    CompareToZeroIffEqual(ToLower(Display(x)), ToLower(Display(y)));
    CompareToZeroIffEqual(ToLower(Display(x)), ToLower(Display(x)));
  }

  /** Swapping the operands negates the result. */
  lemma CompareResultsAntisymmetric(x: SearchResult, y: SearchResult)
    ensures CompareResults(y, x) == -CompareResults(x, y)
  {
    CompareToAntisymmetric(ToLower(Display(x)), ToLower(Display(y)));
  }

  /** The result order is a total preorder, so `Collections.sort` may use it. */
  lemma ResultOrderTotal(S: set<SearchResult>)
    ensures TotalPreorderOn(CompareResults, S)
  {
    forall x, y | x in S && y in S ensures CompareResults(x, y) <= 0 || CompareResults(y, x) <= 0 {
      CompareResultsAntisymmetric(x, y);
    }
    forall x, y, z | x in S && y in S && z in S && CompareResults(x, y) <= 0 && CompareResults(y, z) <= 0
      ensures CompareResults(x, z) <= 0
    {
      CompareToTransitive(ToLower(Display(x)), ToLower(Display(y)), ToLower(Display(z)));
    }
  }

  lemma DisplayLowered(a: UnityAsset, r: SearchResult)
    requires r.assetNode.asset == a
    ensures ToLower(Display(r)) == ToLower(ValueOf(a.FullPath())) + ToLower(Details(a))
  {
    ToLowerConcat(ValueOf(a.FullPath()), Details(a));
  }

  /**
   * Results whose paths and GUIDs differ only in letter case, and whose sizes are equal,
   * compare equal, and compare alike against every other result.
   */
  lemma CompareResultsIgnoresCase(x: SearchResult, y: SearchResult, z: SearchResult)
    requires ToLower(ValueOf(x.assetNode.asset.FullPath())) == ToLower(ValueOf(y.assetNode.asset.FullPath()))
    requires x.assetNode.asset.Size() == y.assetNode.asset.Size()
    requires ToLower(ValueOf(x.assetNode.asset.Guid())) == ToLower(ValueOf(y.assetNode.asset.Guid()))
    ensures CompareResults(x, y) == 0
    ensures CompareResults(x, z) == CompareResults(y, z) && CompareResults(z, x) == CompareResults(z, y)
  {
    var a, b := x.assetNode.asset, y.assetNode.asset;
    var pre := " (" + IntToString(a.Size()) + " bytes) {";
    ToLowerConcat(pre + ValueOf(a.Guid()), "}");
    ToLowerConcat(pre, ValueOf(a.Guid()));
    ToLowerConcat(pre + ValueOf(b.Guid()), "}");
    ToLowerConcat(pre, ValueOf(b.Guid()));
    DisplayLowered(a, x);
    DisplayLowered(b, y);
    CompareResultsZeroIff(x, y);
  }

  /**
   * Results order primarily by asset path: when neither lowercased path is a prefix of
   * the other, the paths alone decide.
   */
  lemma PathDecides(x: SearchResult, y: SearchResult)
    requires var px, py := ToLower(ValueOf(x.assetNode.asset.FullPath())), ToLower(ValueOf(y.assetNode.asset.FullPath()));
      !StartsWith(px, py) && !StartsWith(py, px)
    ensures CompareResults(x, y) ==
      CompareTo(ToLower(ValueOf(x.assetNode.asset.FullPath())), ToLower(ValueOf(y.assetNode.asset.FullPath())))
  {
    var a, b := x.assetNode.asset, y.assetNode.asset;
    DisplayLowered(a, x);
    DisplayLowered(b, y);
    CompareToDecidedBeforeEnd(ToLower(ValueOf(a.FullPath())), ToLower(ValueOf(b.FullPath())), ToLower(Details(a)), ToLower(Details(b)));
  }

  /** `getTreeNodePath()`: the nodes from the root of the result's tree down to its Asset node. */
  function GetTreeNodePath(r: SearchResult): (p: seq<nat>)
    reads r.assetNode.tree
    requires r.assetNode.tree.Valid() && r.assetNode.id < |r.assetNode.tree.nodes|
    ensures p != [] && p[0] == 0 && p[|p| - 1] == r.assetNode.id
    ensures forall k :: 0 <= k < |p| ==> p[k] < |r.assetNode.tree.nodes|
    ensures forall k :: 0 < k < |p| ==> p[k] in r.assetNode.tree.children[p[k - 1]]
  {
    r.assetNode.tree.NodePath(r.assetNode.id)
  }
}
