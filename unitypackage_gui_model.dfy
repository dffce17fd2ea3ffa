/**
 * The viewer's model of an opened package: the asset tree built from the asset list,
 * and the search over the file assets of every tree built so far.
 *
 * The tree is built in three passes over the assets, split into directory-like assets
 * and file assets (both sorted by full path): each directory asset walks its path from
 * the root, finding or creating one Directory per name element, and is attached to the
 * Directory it ends at; each file asset walks all but the last element of its path and
 * becomes a new Asset child there; finally the whole tree is sorted. `BuildForest`
 * states the result as a value, and `UnitypackageGuiModel.BuildTreeModel` performs it
 * on a `UnityTree`.
 */
module UnitypackageGuiModel {
  import opened Wrappers
  import opened JavaString
  import opened PathNames
  import opened Sorting
  import opened TarArchive
  import opened UnityAsset
  import opened UnityTreeNode
  import opened SearchResult
  import Pkg = UnityPackage
  import Stream = UnityArchiveInputStream

  // ---------------------------------------------------------------------------
  // Splitting and ordering the assets

  /** `groupingBy(isProbablyDirectory)`: the directory-like (or the file) assets, in list order. */
  function Group(assets: seq<UnityAsset>, isDirectory: bool): (r: seq<UnityAsset>)
    ensures forall x :: x in r <==> x in assets && x.IsProbablyDirectory() == isDirectory
    decreases |assets|
  {
    if assets == [] then []
    else
      var n := |assets| - 1;
      assert forall x :: x in assets <==> x in assets[..n] || x == assets[n];
      Group(assets[..n], isDirectory) + (if assets[n].IsProbablyDirectory() == isDirectory then [assets[n]] else [])
  }

  /** Every asset lands in exactly one of the two groups, as often as it occurs. */
  lemma {:induction false} GroupPartitions(assets: seq<UnityAsset>)
    ensures multiset(Group(assets, true)) + multiset(Group(assets, false)) == multiset(assets)
    decreases |assets|
  {
    if assets != [] {
      var n := |assets| - 1;
      GroupPartitions(assets[..n]);
      assert assets == assets[..n] + [assets[n]];
    }
  }

  predicate HasPath(a: UnityAsset) {
    a.FullPath().Some?
  }

  /** `UnityAssetCompare.compare`: `String.compareTo` of the two full paths. */
  function UnityAssetCompare(o1: UnityAsset, o2: UnityAsset): (r: int)
    requires HasPath(o1) && HasPath(o2)
    ensures r == 0 <==> o1.FullPath() == o2.FullPath()
  {
    CompareToZeroIffEqual(o1.FullPath().value, o2.FullPath().value);
    CompareTo(o1.FullPath().value, o2.FullPath().value)
  }

  /** The comparator handed to `List.sort`; it is applied only to assets that have a full path. */
  function AssetOrder(): (UnityAsset, UnityAsset) -> int {
    (o1: UnityAsset, o2: UnityAsset) => if HasPath(o1) && HasPath(o2) then UnityAssetCompare(o1, o2) else 0
  }

  /** On assets with a full path the comparator is a total preorder. */
  lemma AssetOrderTotal(s: seq<UnityAsset>)
    requires forall x :: x in s ==> HasPath(x)
    ensures TotalPreorderOn(AssetOrder(), Elements(s))
  {
    var S := Elements(s);
    var cmp := AssetOrder();
    forall a, b | a in S && b in S ensures cmp(a, b) <= 0 || cmp(b, a) <= 0 {
      assert a in s && b in s;
      CompareToAntisymmetric(a.FullPath().value, b.FullPath().value);
    }
    forall a, b, c | a in S && b in S && c in S && cmp(a, b) <= 0 && cmp(b, c) <= 0 ensures cmp(a, c) <= 0 {
      assert a in s && b in s && c in s;
      CompareToTransitive(a.FullPath().value, b.FullPath().value, c.FullPath().value);
    }
  }

  /** `list.sort(unityAssetCompare)`: the same assets, rearranged. */
  function SortAssets(s: seq<UnityAsset>): (r: seq<UnityAsset>)
    ensures multiset(r) == multiset(s)
    ensures forall x :: x in r <==> x in s
  {
    SortByPermutes(s, AssetOrder());
    SortByMembers(s, AssetOrder());
    SortBy(s, AssetOrder())
  }

  /** Assets with full paths come out in `String.compareTo` order of those paths. */
  lemma SortAssetsByPath(s: seq<UnityAsset>)
    requires forall x :: x in s ==> HasPath(x)
    ensures var r := SortAssets(s);
      forall i, j :: 0 <= i < j < |r| ==>
        HasPath(r[i]) && HasPath(r[j]) && CompareTo(r[i].FullPath().value, r[j].FullPath().value) <= 0
  {
    AssetOrderTotal(s);
    SortBySorted(s, AssetOrder());
    var r := SortAssets(s);
    forall i, j | 0 <= i < j < |r|
      ensures HasPath(r[i]) && HasPath(r[j]) && CompareTo(r[i].FullPath().value, r[j].FullPath().value) <= 0
    {
      assert r[i] in s && r[j] in s;
      assert AssetOrder()(r[i], r[j]) <= 0;
    }
  }

  // ---------------------------------------------------------------------------
  // findOrCreateDirectoryNode

  predicate IsDirectoryNamed(n: Node, name: string) {
    n.Directory? && n.relativePathFromParent == name
  }

  /**
   * The scan of `findOrCreateDirectoryNode` over the children `kids`: the first
   * Directory among them whose name is `name`, skipping Assets.
   */
  function FirstDirectoryNamed(nodes: seq<Node>, kids: seq<nat>, name: string): (r: Option<nat>)
    requires forall k :: 0 <= k < |kids| ==> kids[k] < |nodes|
    ensures r.Some? ==> r.value in kids && IsDirectoryNamed(nodes[r.value], name)
    ensures r.None? <==> forall k :: 0 <= k < |kids| ==> !IsDirectoryNamed(nodes[kids[k]], name)
    ensures r.Some? ==> exists i :: 0 <= i < |kids| && kids[i] == r.value &&
                                   forall k :: 0 <= k < i ==> !IsDirectoryNamed(nodes[kids[k]], name)
    decreases |kids|
  {
    if kids == [] then None
    else if IsDirectoryNamed(nodes[kids[0]], name) then Some(kids[0])
    else
      var r := FirstDirectoryNamed(nodes, kids[1..], name);
      if r.Some? then
        var i :| 0 <= i < |kids[1..]| && kids[1..][i] == r.value &&
          forall k :: 0 <= k < i ==> !IsDirectoryNamed(nodes[kids[1..][k]], name);
        assert kids[i + 1] == r.value && forall k :: 0 <= k < i + 1 ==> !IsDirectoryNamed(nodes[kids[k]], name);
        r
      else
        assert forall k :: 1 <= k < |kids| ==> kids[k] == kids[1..][k - 1];
        r
  }

  /** `g` holds every node of `f` exactly, attached assets included. */
  predicate KeepsNodes(f: Forest, g: Forest) {
    |f.nodes| <= |g.nodes| && forall i :: 0 <= i < |f.nodes| ==> g.nodes[i] == f.nodes[i]
  }

  /** Some child of `parent` is a Directory named `name`. */
  predicate HasDirectoryChild(f: Forest, parent: nat, name: string)
    requires parent < |f.children|
  {
    exists c :: c in f.children[parent] && c < |f.nodes| && IsDirectoryNamed(f.nodes[c], name)
  }

  /**
   * `findOrCreateDirectoryNode(parent, name)`: the first Directory child of `parent`
   * named `name`, the tree unchanged; or, when there is none, a new empty Directory
   * of that name added as the last child of `parent`.
   */
  function FindOrCreate(f: Forest, parent: nat, name: string): (r: (Forest, nat))
    requires ValidForest(f) && parent < |f.nodes| && f.nodes[parent].Directory?
    ensures ValidForest(r.0) && Extends(f, r.0) && KeepsNodes(f, r.0)
    ensures r.1 < |r.0.nodes| && r.0.parents[r.1] == parent && r.1 in r.0.children[parent]
    ensures IsDirectoryNamed(r.0.nodes[r.1], name)
    ensures HasDirectoryChild(f, parent, name) ==> r.0 == f
    ensures !HasDirectoryChild(f, parent, name) ==>
      r == (AddChild(f, parent, Directory(name, None)), |f.nodes|)
  {
    ChildrenListed(f, parent);
    match FirstDirectoryNamed(f.nodes, f.children[parent], name)
    case Some(id) =>
      ChildIsLater(f, parent, id);
      (f, id)
    case None =>
      NoDirectoryChild(f, parent, name);
      (AddChild(f, parent, Directory(name, None)), |f.nodes|)
  }

  lemma NoDirectoryChild(f: Forest, parent: nat, name: string)
    requires ValidForest(f) && parent < |f.children|
    requires forall k :: 0 <= k < |f.children[parent]| ==> f.children[parent][k] < |f.nodes|
    requires forall k :: 0 <= k < |f.children[parent]| ==> !IsDirectoryNamed(f.nodes[f.children[parent][k]], name)
    ensures !HasDirectoryChild(f, parent, name)
  {
    forall c | c in f.children[parent] && c < |f.nodes| ensures !IsDirectoryNamed(f.nodes[c], name) {
      var k :| 0 <= k < |f.children[parent]| && f.children[parent][k] == c;
    }
  }

  /** No Directory has two Directory children of the same name. */
  predicate UniqueDirectoryNames(f: Forest) {
    forall p, a, b ::
      (0 <= p < |f.children| && a in f.children[p] && b in f.children[p] &&
       a < |f.nodes| && b < |f.nodes| && a != b && f.nodes[a].Directory? && f.nodes[b].Directory?) ==>
      f.nodes[a].relativePathFromParent != f.nodes[b].relativePathFromParent
  }

  /** Finding before creating never makes a second Directory of one name under one parent. */
  lemma FindOrCreateKeepsNamesUnique(f: Forest, parent: nat, name: string)
    requires ValidForest(f) && parent < |f.nodes| && f.nodes[parent].Directory?
    requires UniqueDirectoryNames(f)
    ensures UniqueDirectoryNames(FindOrCreate(f, parent, name).0)
  {
    if !HasDirectoryChild(f, parent, name) {
      var g := AddChild(f, parent, Directory(name, None));
      AppendedMembers(f, parent, Directory(name, None));
      forall p, a, b | 0 <= p < |g.children| && a in g.children[p] && b in g.children[p] &&
        a < |g.nodes| && b < |g.nodes| && a != b && g.nodes[a].Directory? && g.nodes[b].Directory?
        ensures g.nodes[a].relativePathFromParent != g.nodes[b].relativePathFromParent
      {
        if a == |f.nodes| {
          assert b in f.children[parent];
        } else if b == |f.nodes| {
          assert a in f.children[parent];
        } else {
          assert a in f.children[p] && b in f.children[p];
        }
      }
    }
  }

  // ---------------------------------------------------------------------------
  // Walking a path

  /** The inner loops of `buildTreeModel`: from Directory `cur`, one `findOrCreateDirectoryNode` per element. */
  function Walk(f: Forest, cur: nat, elems: seq<string>): (r: (Forest, nat))
    requires ValidForest(f) && cur < |f.nodes| && f.nodes[cur].Directory?
    ensures ValidForest(r.0) && Extends(f, r.0) && KeepsNodes(f, r.0)
    ensures r.1 < |r.0.nodes| && r.0.nodes[r.1].Directory?
    decreases |elems|
  {
    if elems == [] then (f, cur)
    else
      var (g, next) := FindOrCreate(f, cur, elems[0]);
      var r := Walk(g, next, elems[1..]);
      ExtendsTransitive(f, g, r.0);
      r
  }

  /** A path below a child is the child's name followed by the path below it. */
  lemma {:induction false} NamesThroughChild(f: Forest, cur: nat, next: nat, j: int)
    requires ValidForest(f) && 0 < next < |f.nodes| && f.parents[next] == cur && InSubtree(f.parents, next, j)
    ensures InSubtree(f.parents, cur, j)
    ensures NamesFrom(f, cur, j) == [f.nodes[next].AssetName()] + NamesFrom(f, next, j)
    decreases j
  {
    if j != next {
      NamesThroughChild(f, cur, next, f.parents[j]);
    }
  }

  /** The walk ends at a Directory below `cur` whose names from `cur` spell `elems`. */
  lemma {:induction false} WalkSpells(f: Forest, cur: nat, elems: seq<string>)
    requires ValidForest(f) && cur < |f.nodes| && f.nodes[cur].Directory?
    ensures var r := Walk(f, cur, elems);
      InSubtree(r.0.parents, cur, r.1) && NamesFrom(r.0, cur, r.1) == elems
    decreases |elems|
  {
    if elems != [] {
      var s := FindOrCreate(f, cur, elems[0]);
      WalkSpells(s.0, s.1, elems[1..]);
      WalkStep(s.0, cur, s.1, elems[0], Walk(s.0, s.1, elems[1..]), elems[1..]);
    }
  }

  lemma WalkStep(g: Forest, cur: nat, next: nat, name: string, r: (Forest, nat), rest: seq<string>)
    requires ValidForest(g) && next < |g.nodes| && g.parents[next] == cur && IsDirectoryNamed(g.nodes[next], name)
    requires ValidForest(r.0) && Extends(g, r.0) && KeepsNodes(g, r.0)
    requires InSubtree(r.0.parents, next, r.1) && NamesFrom(r.0, next, r.1) == rest
    ensures InSubtree(r.0.parents, cur, r.1) && NamesFrom(r.0, cur, r.1) == [name] + rest
  {
    NamesThroughChild(r.0, cur, next, r.1);
  }

  /** Walking keeps the Directory names under every parent distinct. */
  lemma {:induction false} WalkKeepsNamesUnique(f: Forest, cur: nat, elems: seq<string>)
    requires ValidForest(f) && cur < |f.nodes| && f.nodes[cur].Directory? && UniqueDirectoryNames(f)
    ensures UniqueDirectoryNames(Walk(f, cur, elems).0)
    decreases |elems|
  {
    if elems != [] {
      var (g, next) := FindOrCreate(f, cur, elems[0]);
      FindOrCreateKeepsNamesUnique(f, cur, elems[0]);
      WalkKeepsNamesUnique(g, next, elems[1..]);
    }
  }

  // ---------------------------------------------------------------------------
  // Placing the assets

  /** `g` is a valid tree holding every node of `f` unchanged, and perhaps more. */
  predicate Grows(f: Forest, g: Forest) {
    ValidForest(g) && Extends(f, g) && KeepsNodes(f, g)
  }

  /** Walk `elems` from the root, then `setAsset(d)` on the Directory reached. */
  function AttachAlong(f: Forest, elems: seq<string>, d: UnityAsset): (r: Forest)
    requires ValidForest(f)
    ensures ValidForest(r) && Extends(f, r)
  {
    var w := Walk(f, 0, elems);
    AttachAsset(w.0, w.1, d)
  }

  /** Walk `dirs` from the root, then add `n` as the last child of the Directory reached. */
  function AddAlong(f: Forest, dirs: seq<string>, n: Node): (r: (Forest, nat))
    requires ValidForest(f) && n.Named()
    ensures Grows(f, r.0) && |f.nodes| <= r.1 == |r.0.nodes| - 1 && r.0.nodes[r.1] == n
  {
    var w := Walk(f, 0, dirs);
    AddChildGrows(f, w.0, w.1, n);
    (AddChild(w.0, w.1, n), |w.0.nodes|)
  }

  lemma AddChildGrows(f: Forest, g: Forest, dir: nat, n: Node)
    requires Grows(f, g) && dir < |g.nodes| && g.nodes[dir].Directory? && n.Named()
    ensures Grows(f, AddChild(g, dir, n))
  {
    ExtendsTransitive(f, g, AddChild(g, dir, n));
  }

  /** The name elements of an asset's full path. */
  function Elems(a: UnityAsset): seq<string>
    requires HasPath(a)
  {
    NameElements(a.FullPath().value)
  }

  /** A file asset with a file name has a full path, whose last name element is that file name. */
  lemma NamedFile(a: UnityAsset)
    requires Asset(a).Named()
    ensures HasPath(a) && |Elems(a)| >= 1 && Asset(a).AssetName() == Elems(a)[|Elems(a)| - 1]
  {
  }

  /** The name elements of a file asset's directory. */
  function DirElems(a: UnityAsset): (r: seq<string>)
    requires Asset(a).Named()
    ensures r + [Asset(a).AssetName()] == Elems(a)
  {
    NamedFile(a);
    var elems := Elems(a);
    assert elems == elems[..|elems| - 1] + [elems[|elems| - 1]];
    elems[..|elems| - 1]
  }

  /** The directory loop over `ds`, in order: walk each whole path, then `setAsset` on the Directory reached. */
  function PlaceDirectories(f: Forest, ds: seq<UnityAsset>): (r: Forest)
    requires ValidForest(f) && forall x :: x in ds ==> HasPath(x)
    ensures ValidForest(r) && Extends(f, r)
    decreases |ds|
  {
    if ds == [] then f
    else
      var g := AttachAlong(f, Elems(ds[0]), ds[0]);
      assert forall x :: x in ds[1..] ==> x in ds;
      var r := PlaceDirectories(g, ds[1..]);
      ExtendsTransitive(f, g, r);
      r
  }

  predicate Leaves(g: Forest, leaves: seq<nat>, fs: seq<UnityAsset>) {
    |leaves| == |fs| &&
    (forall i :: 0 <= i < |leaves| ==> leaves[i] < |g.nodes| && g.nodes[leaves[i]] == Asset(fs[i])) &&
    (forall i, j :: 0 <= i < j < |leaves| ==> leaves[i] < leaves[j])
  }

  /** Every leaf is a node `f` did not have yet. */
  predicate NewLeaves(f: Forest, leaves: seq<nat>) {
    forall i :: 0 <= i < |leaves| ==> |f.nodes| <= leaves[i]
  }

  /**
   * The file loop over `fs`, in order: walk all but the last element of each path, then
   * add a new Asset there as the last child; with the new Asset node of each file.
   */
  function PlaceFiles(f: Forest, fs: seq<UnityAsset>): (r: (Forest, seq<nat>))
    requires ValidForest(f) && forall x :: x in fs ==> Asset(x).Named()
    ensures Grows(f, r.0) && Leaves(r.0, r.1, fs) && NewLeaves(f, r.1)
    decreases |fs|
  {
    if fs == [] then (f, [])
    else
      var p := AddAlong(f, DirElems(fs[0]), Asset(fs[0]));
      assert forall x :: x in fs[1..] ==> x in fs;
      var q := PlaceFiles(p.0, fs[1..]);
      PlaceFilesStep(f, p.0, p.1, q.0, q.1, fs);
      (q.0, [p.1] + q.1)
  }

  lemma PlaceFilesStep(f: Forest, g: Forest, leaf: nat, h: Forest, leaves: seq<nat>, fs: seq<UnityAsset>)
    requires fs != [] && Grows(f, g) && Grows(g, h)
    requires |f.nodes| <= leaf < |g.nodes| && g.nodes[leaf] == Asset(fs[0])
    requires Leaves(h, leaves, fs[1..]) && NewLeaves(g, leaves)
    ensures Grows(f, h) && Leaves(h, [leaf] + leaves, fs) && NewLeaves(f, [leaf] + leaves)
  {
    ExtendsTransitive(f, g, h);
    var all := [leaf] + leaves;
    forall i | 0 <= i < |all| ensures all[i] < |h.nodes| && h.nodes[all[i]] == Asset(fs[i]) {
      if i > 0 {
        assert all[i] == leaves[i - 1] && fs[i] == fs[1..][i - 1];
      }
    }
    forall i, j | 0 <= i < j < |all| ensures all[i] < all[j] {
      assert all[j] == leaves[j - 1];
      if i > 0 {
        assert all[i] == leaves[i - 1];
      }
    }
  }

  /** Every asset has a full path, and every file asset a file name. */
  predicate Placeable(assets: seq<UnityAsset>) {
    forall x :: x in assets ==> HasPath(x) && (!x.IsProbablyDirectory() ==> Asset(x).Named())
  }

  /** Every full path is one `Paths.get` accepts: a Unix path refuses a NUL character. */
  predicate Parsable(assets: seq<UnityAsset>) {
    forall x :: x in assets && HasPath(x) ==> '\0' !in x.FullPath().value
  }

  /** The file assets in the order the file loop visits them. */
  function PlacedFiles(assets: seq<UnityAsset>): seq<UnityAsset> {
    SortAssets(Group(assets, false))
  }

  /** The directory-like assets in the order the directory loop visits them. */
  function PlacedDirectories(assets: seq<UnityAsset>): seq<UnityAsset> {
    SortAssets(Group(assets, true))
  }

  /** The tree before `recursiveSort()`, and the Asset node of each placed file. */
  function Placed(assets: seq<UnityAsset>): (r: (Forest, seq<nat>))
    requires Placeable(assets)
    ensures ValidForest(r.0) && Leaves(r.0, r.1, PlacedFiles(assets))
  {
    PlaceFiles(PlaceDirectories(RootForest(), PlacedDirectories(assets)), PlacedFiles(assets))
  }

  /**
   * `buildTreeModel`'s tree and, in the file loop's order, the Asset node of every file
   * asset; or the NullPointerException it stops at: no file asset at all (the list
   * `split.get(false)` is null), or an asset without a full path or a file asset
   * without a file name; or the InvalidPathException of `Paths.get` on a full path
   * holding a NUL.
   */
  function BuildForest(assets: seq<UnityAsset>): (r: Result<(Forest, seq<nat>), Error>)
    ensures r.Ok? ==> ValidForest(r.value.0) && Leaves(r.value.0, r.value.1, PlacedFiles(assets))
    ensures r == Err(NoFileAssets) <==> Group(assets, false) == []
    ensures r == Err(MissingPathname) <==> Group(assets, false) != [] && !Placeable(assets)
    ensures r == Err(InvalidPath) <==> Group(assets, false) != [] && Placeable(assets) && !Parsable(assets)
    ensures r.Ok? <==> Group(assets, false) != [] && Placeable(assets) && Parsable(assets)
  {
    if Group(assets, false) == [] then Err(NoFileAssets)
    else if !Placeable(assets) then Err(MissingPathname)
    else if !Parsable(assets) then Err(InvalidPath)
    else
      var (g, leaves) := Placed(assets);
      Ok((SortedSubtree(g, 0), leaves))
  }

  /** A full path holding a NUL stops the tree, as `Paths.get` throws `InvalidPathException`. */
  lemma NulPathnameRefused(assets: seq<UnityAsset>, x: UnityAsset)
    requires Group(assets, false) != [] && Placeable(assets)
    requires x in assets && HasPath(x) && '\0' in x.FullPath().value
    ensures BuildForest(assets) == Err(InvalidPath)
  { }

  /**
   * A file asset whose full path is `/` has no file name, so the package is refused;
   * Java places such an asset at the root and fails only once it is compared or shown.
   */
  lemma RootPathnameFileRefused(assets: seq<UnityAsset>, x: UnityAsset)
    requires x in assets && !x.IsProbablyDirectory() && x.FullPath() == Some("/")
    ensures BuildForest(assets) == Err(MissingPathname)
  {
    assert x in Group(assets, false);
    assert NameElements("/") == [];
    assert !Asset(x).Named();
  }

  // ---------------------------------------------------------------------------
  // What the built tree holds

  /** Node `id` lies below the root, and the names on the way down to it spell `elems`. */
  predicate SpelledAt(f: Forest, id: int, elems: seq<string>) {
    ValidForest(f) && 0 <= id < |f.nodes| && InSubtree(f.parents, 0, id) && NamesFrom(f, 0, id) == elems
  }

  /** A node of `f` spells in a larger forest what it spelled in `f`. */
  lemma SpelledAtExtends(f: Forest, g: Forest, id: int)
    requires ValidForest(f) && ValidForest(g) && Extends(f, g) && 0 <= id < |f.nodes|
    ensures forall elems :: SpelledAt(g, id, elems) <==> SpelledAt(f, id, elems)
  {
    ExtendsKeepsPaths(f, g, 0, id);
  }

  /** A new child is spelled by its parent's names followed by its own. */
  lemma AddChildSpells(g: Forest, dir: nat, n: Node, elems: seq<string>)
    requires ValidForest(g) && dir < |g.nodes| && g.nodes[dir].Directory? && n.Named() && SpelledAt(g, dir, elems)
    ensures SpelledAt(AddChild(g, dir, n), |g.nodes|, elems + [n.AssetName()])
  {
    var r := AddChild(g, dir, n);
    ExtendsKeepsPaths(g, r, 0, dir);
    assert InSubtree(r.parents, 0, |g.nodes|);
  }

  /** The node added along `dirs` is spelled by `dirs` and its own name. */
  lemma AddAlongSpells(f: Forest, dirs: seq<string>, n: Node)
    requires ValidForest(f) && n.Named()
    ensures var r := AddAlong(f, dirs, n); SpelledAt(r.0, r.1, dirs + [n.AssetName()])
  {
    var w := Walk(f, 0, dirs);
    WalkSpells(f, 0, dirs);
    AddChildSpells(w.0, w.1, n, dirs);
  }

  /** Leaf `leaves[i]` is spelled by the whole path of `fs[i]`, for every `i`. */
  predicate SpellsAll(g: Forest, leaves: seq<nat>, fs: seq<UnityAsset>) {
    |leaves| == |fs| && forall i :: 0 <= i < |fs| ==> HasPath(fs[i]) && SpelledAt(g, leaves[i], Elems(fs[i]))
  }

  /** Each placed file's Asset node is spelled by that file's whole path. */
  lemma {:induction false} PlaceFilesSpell(f: Forest, fs: seq<UnityAsset>)
    requires ValidForest(f) && forall x :: x in fs ==> Asset(x).Named()
    ensures SpellsAll(PlaceFiles(f, fs).0, PlaceFiles(f, fs).1, fs)
    decreases |fs|
  {
    if fs != [] {
      var p := AddAlong(f, DirElems(fs[0]), Asset(fs[0]));
      assert forall x :: x in fs[1..] ==> x in fs;
      PlaceFilesSpell(p.0, fs[1..]);
      PlaceFilesSpellStep(f, fs, p);
    }
  }

  lemma PlaceFilesSpellStep(f: Forest, fs: seq<UnityAsset>, p: (Forest, nat))
    requires ValidForest(f) && fs != [] && forall x :: x in fs ==> Asset(x).Named()
    requires p == AddAlong(f, DirElems(fs[0]), Asset(fs[0]))
    requires forall x :: x in fs[1..] ==> Asset(x).Named()
    requires SpellsAll(PlaceFiles(p.0, fs[1..]).0, PlaceFiles(p.0, fs[1..]).1, fs[1..])
    ensures SpellsAll(PlaceFiles(f, fs).0, PlaceFiles(f, fs).1, fs)
  {
    var q := PlaceFiles(p.0, fs[1..]);
    AddAlongSpells(f, DirElems(fs[0]), Asset(fs[0]));
    SpelledAtExtends(p.0, q.0, p.1);
    SpellsCons(q.0, p.1, q.1, fs);
    assert PlaceFiles(f, fs) == (q.0, [p.1] + q.1);
  }

  lemma SpellsCons(g: Forest, leaf: nat, rest: seq<nat>, fs: seq<UnityAsset>)
    requires fs != [] && HasPath(fs[0]) && SpelledAt(g, leaf, Elems(fs[0])) && SpellsAll(g, rest, fs[1..])
    ensures SpellsAll(g, [leaf] + rest, fs)
  {
    var leaves := [leaf] + rest;
    forall i | 0 < i < |fs| ensures HasPath(fs[i]) && SpelledAt(g, leaves[i], Elems(fs[i])) {
      assert leaves[i] == rest[i - 1] && fs[i] == fs[1..][i - 1];
    }
  }

  /** Every Asset node of `f` is one of `leaves`. */
  predicate AssetsAmong(f: Forest, leaves: seq<nat>) {
    forall j :: 0 <= j < |f.nodes| && f.nodes[j].Asset? ==> j in leaves
  }

  /** Finding or creating Directories adds no Asset node. */
  lemma {:induction false} WalkAddsNoAsset(f: Forest, cur: nat, elems: seq<string>, leaves: seq<nat>)
    requires ValidForest(f) && cur < |f.nodes| && f.nodes[cur].Directory? && AssetsAmong(f, leaves)
    ensures AssetsAmong(Walk(f, cur, elems).0, leaves)
    decreases |elems|
  {
    if elems != [] {
      var s := FindOrCreate(f, cur, elems[0]);
      assert AssetsAmong(s.0, leaves);
      WalkAddsNoAsset(s.0, s.1, elems[1..], leaves);
    }
  }

  lemma AttachAlongAddsNoAsset(f: Forest, elems: seq<string>, d: UnityAsset, leaves: seq<nat>)
    requires ValidForest(f) && AssetsAmong(f, leaves)
    ensures AssetsAmong(AttachAlong(f, elems, d), leaves)
  {
    WalkAddsNoAsset(f, 0, elems, leaves);
  }

  lemma {:induction false} PlaceDirectoriesAddNoAsset(f: Forest, ds: seq<UnityAsset>)
    requires ValidForest(f) && (forall x :: x in ds ==> HasPath(x)) && AssetsAmong(f, [])
    ensures AssetsAmong(PlaceDirectories(f, ds), [])
    decreases |ds|
  {
    if ds != [] {
      AttachAlongAddsNoAsset(f, Elems(ds[0]), ds[0], []);
      assert forall x :: x in ds[1..] ==> x in ds;
      PlaceDirectoriesAddNoAsset(AttachAlong(f, Elems(ds[0]), ds[0]), ds[1..]);
    }
  }

  /** The only Asset node added along a path is the node added at its end. */
  lemma AddAlongAssets(f: Forest, dirs: seq<string>, n: Node, before: seq<nat>)
    requires ValidForest(f) && n.Named() && AssetsAmong(f, before)
    ensures var r := AddAlong(f, dirs, n); AssetsAmong(r.0, before + [r.1])
  {
    var w := Walk(f, 0, dirs);
    WalkAddsNoAsset(f, 0, dirs, before);
    AddChildAssets(w.0, w.1, n, before);
    assert AddAlong(f, dirs, n) == (AddChild(w.0, w.1, n), |w.0.nodes|);
  }

  lemma AddChildAssets(g: Forest, dir: nat, n: Node, before: seq<nat>)
    requires ValidForest(g) && dir < |g.nodes| && g.nodes[dir].Directory? && n.Named() && AssetsAmong(g, before)
    ensures AssetsAmong(AddChild(g, dir, n), before + [|g.nodes|])
  {
    var r := AddChild(g, dir, n);
    forall j | 0 <= j < |r.nodes| && r.nodes[j].Asset? ensures j in before + [|g.nodes|] {
      if j < |g.nodes| {
        assert r.nodes[j] == g.nodes[j];
      }
    }
  }

  /** The only Asset nodes the file loop adds are the placed files' own. */
  lemma {:induction false} PlaceFilesAssets(f: Forest, fs: seq<UnityAsset>, before: seq<nat>)
    requires ValidForest(f) && (forall x :: x in fs ==> Asset(x).Named()) && AssetsAmong(f, before)
    ensures AssetsAmong(PlaceFiles(f, fs).0, before + PlaceFiles(f, fs).1)
    decreases |fs|
  {
    if fs == [] {
      assert before + [] == before;
    } else {
      var p := AddAlong(f, DirElems(fs[0]), Asset(fs[0]));
      AddAlongAssets(f, DirElems(fs[0]), Asset(fs[0]), before);
      assert forall x :: x in fs[1..] ==> x in fs;
      var q := PlaceFiles(p.0, fs[1..]);
      PlaceFilesAssets(p.0, fs[1..], before + [p.1]);
      AssetsAmongRegroup(q.0, before, p.1, q.1);
      assert PlaceFiles(f, fs) == (q.0, [p.1] + q.1);
    }
  }

  lemma AssetsAmongRegroup(g: Forest, before: seq<nat>, leaf: nat, rest: seq<nat>)
    requires AssetsAmong(g, before + [leaf] + rest)
    ensures AssetsAmong(g, before + ([leaf] + rest))
  {
    assert before + [leaf] + rest == before + ([leaf] + rest);
  }

  /** The Directory spelled by `elems` holds the directory asset `d`. */
  ghost predicate AttachedAt(f: Forest, elems: seq<string>, d: UnityAsset) {
    exists id :: SpelledAt(f, id, elems) && f.nodes[id].Directory? && f.nodes[id].attached == Some(d)
  }

  /** `setAsset` at the end of the walk; every old node not spelled by the path keeps its asset. */
  lemma AttachAlongAttaches(f: Forest, elems: seq<string>, d: UnityAsset)
    requires ValidForest(f)
    ensures AttachedAt(AttachAlong(f, elems, d), elems, d)
    ensures var r := AttachAlong(f, elems, d);
      forall j :: 0 <= j < |f.nodes| && !SpelledAt(f, j, elems) ==> r.nodes[j] == f.nodes[j]
  {
    var w := Walk(f, 0, elems);
    WalkSpells(f, 0, elems);
    var r := AttachAsset(w.0, w.1, d);
    ExtendsKeepsPaths(w.0, r, 0, w.1);
    assert SpelledAt(r, w.1, elems) && r.nodes[w.1].Directory? && r.nodes[w.1].attached == Some(d);
    forall j | 0 <= j < |f.nodes| && !SpelledAt(f, j, elems) ensures r.nodes[j] == f.nodes[j] {
      SpelledAtExtends(f, w.0, j);
    }
  }

  /** The directory loop changes only nodes that some directory asset's path spells. */
  lemma {:induction false} PlaceDirectoriesKeeps(f: Forest, ds: seq<UnityAsset>, j: nat)
    requires ValidForest(f) && (forall x :: x in ds ==> HasPath(x)) && j < |f.nodes|
    requires forall m :: 0 <= m < |ds| ==> !SpelledAt(f, j, Elems(ds[m]))
    ensures PlaceDirectories(f, ds).nodes[j] == f.nodes[j]
    decreases |ds|
  {
    if ds != [] {
      var g := AttachAlong(f, Elems(ds[0]), ds[0]);
      AttachAlongAttaches(f, Elems(ds[0]), ds[0]);
      SpelledAtExtends(f, g, j);
      PlaceDirectoriesKeepsStep(f, g, ds, j);
      PlaceDirectoriesKeeps(g, ds[1..], j);
      assert PlaceDirectories(f, ds) == PlaceDirectories(g, ds[1..]);
    }
  }

  lemma PlaceDirectoriesKeepsStep(f: Forest, g: Forest, ds: seq<UnityAsset>, j: nat)
    requires ds != [] && (forall x :: x in ds ==> HasPath(x)) && ValidForest(f) && j < |f.nodes|
    requires forall m :: 0 <= m < |ds| ==> !SpelledAt(f, j, Elems(ds[m]))
    requires forall elems :: SpelledAt(g, j, elems) <==> SpelledAt(f, j, elems)
    ensures forall x :: x in ds[1..] ==> HasPath(x)
    ensures forall m :: 0 <= m < |ds[1..]| ==> !SpelledAt(g, j, Elems(ds[1..][m]))
  {
    assert forall x :: x in ds[1..] ==> x in ds;
    forall m | 0 <= m < |ds[1..]| ensures !SpelledAt(g, j, Elems(ds[1..][m])) {
      assert ds[1..][m] == ds[m + 1];
    }
  }

  lemma AttachSurvives(g: Forest, rest: seq<UnityAsset>, elems: seq<string>, d: UnityAsset)
    requires ValidForest(g) && (forall x :: x in rest ==> HasPath(x)) && AttachedAt(g, elems, d)
    requires forall m :: 0 <= m < |rest| ==> Elems(rest[m]) != elems
    ensures AttachedAt(PlaceDirectories(g, rest), elems, d)
  {
    var id :| SpelledAt(g, id, elems) && g.nodes[id].Directory? && g.nodes[id].attached == Some(d);
    PlaceDirectoriesKeeps(g, rest, id);
    var r := PlaceDirectories(g, rest);
    SpelledAtExtends(g, r, id);
    assert SpelledAt(r, id, elems) && r.nodes[id].Directory? && r.nodes[id].attached == Some(d);
  }

  /** No directory asset after `ds[k]` has its full path. */
  predicate LastOfItsPath(ds: seq<UnityAsset>, k: nat) {
    k < |ds| && (forall x :: x in ds ==> HasPath(x)) &&
    forall m :: k < m < |ds| ==> Elems(ds[m]) != Elems(ds[k])
  }

  /**
   * A directory asset whose path no later directory asset spells alike ends up attached
   * to the Directory its path spells: of several directory assets with one path, the
   * last placed wins.
   */
  lemma {:induction false} PlaceDirectoriesAttach(f: Forest, ds: seq<UnityAsset>, k: nat)
    requires ValidForest(f) && LastOfItsPath(ds, k)
    ensures AttachedAt(PlaceDirectories(f, ds), Elems(ds[k]), ds[k])
    decreases |ds|
  {
    var g := AttachAlong(f, Elems(ds[0]), ds[0]);
    LastOfItsPathTail(ds, k);
    if k == 0 {
      AttachAlongAttaches(f, Elems(ds[0]), ds[0]);
      AttachSurvives(g, ds[1..], Elems(ds[0]), ds[0]);
    } else {
      PlaceDirectoriesAttach(g, ds[1..], k - 1);
    }
  }

  lemma LastOfItsPathTail(ds: seq<UnityAsset>, k: nat)
    requires LastOfItsPath(ds, k)
    ensures forall x :: x in ds[1..] ==> HasPath(x)
    ensures k == 0 ==> forall m :: 0 <= m < |ds[1..]| ==> Elems(ds[1..][m]) != Elems(ds[0])
    ensures k > 0 ==> LastOfItsPath(ds[1..], k - 1) && ds[1..][k - 1] == ds[k]
  {
    assert forall x :: x in ds[1..] ==> x in ds;
    forall m | 0 <= m < |ds[1..]| ensures ds[1..][m] == ds[m + 1] {
    }
  }

  /** Attaching an asset changes no name and no children list. */
  lemma AttachKeepsNamesUnique(g: Forest, id: nat, d: UnityAsset)
    requires ValidForest(g) && id < |g.nodes| && g.nodes[id].Directory? && UniqueDirectoryNames(g)
    ensures UniqueDirectoryNames(AttachAsset(g, id, d))
  {
    var h := AttachAsset(g, id, d);
    forall p, a, b | 0 <= p < |h.children| && a in h.children[p] && b in h.children[p] &&
      a < |h.nodes| && b < |h.nodes| && a != b && h.nodes[a].Directory? && h.nodes[b].Directory?
      ensures h.nodes[a].relativePathFromParent != h.nodes[b].relativePathFromParent
    {
      assert a in g.children[p] && b in g.children[p];
    }
  }

  /** A new Asset is never a second Directory of any name. */
  lemma AddAssetKeepsNamesUnique(g: Forest, dir: nat, n: Node)
    requires ValidForest(g) && dir < |g.nodes| && g.nodes[dir].Directory? && n.Asset? && n.Named()
    requires UniqueDirectoryNames(g)
    ensures UniqueDirectoryNames(AddChild(g, dir, n))
  {
    var h := AddChild(g, dir, n);
    AppendedMembers(g, dir, n);
    forall p, a, b | 0 <= p < |h.children| && a in h.children[p] && b in h.children[p] &&
      a < |h.nodes| && b < |h.nodes| && a != b && h.nodes[a].Directory? && h.nodes[b].Directory?
      ensures h.nodes[a].relativePathFromParent != h.nodes[b].relativePathFromParent
    {
      assert a in g.children[p] && b in g.children[p];
    }
  }

  /** No step of the build makes two Directories of one name under one parent. */
  lemma {:induction false} PlaceDirectoriesKeepNamesUnique(f: Forest, ds: seq<UnityAsset>)
    requires ValidForest(f) && (forall x :: x in ds ==> HasPath(x)) && UniqueDirectoryNames(f)
    ensures UniqueDirectoryNames(PlaceDirectories(f, ds))
    decreases |ds|
  {
    if ds != [] {
      var w := Walk(f, 0, Elems(ds[0]));
      WalkKeepsNamesUnique(f, 0, Elems(ds[0]));
      AttachKeepsNamesUnique(w.0, w.1, ds[0]);
      assert forall x :: x in ds[1..] ==> x in ds;
      PlaceDirectoriesKeepNamesUnique(AttachAlong(f, Elems(ds[0]), ds[0]), ds[1..]);
    }
  }

  lemma {:induction false} PlaceFilesKeepNamesUnique(f: Forest, fs: seq<UnityAsset>)
    requires ValidForest(f) && (forall x :: x in fs ==> Asset(x).Named()) && UniqueDirectoryNames(f)
    ensures UniqueDirectoryNames(PlaceFiles(f, fs).0)
    decreases |fs|
  {
    if fs != [] {
      var dirs := DirElems(fs[0]);
      var w := Walk(f, 0, dirs);
      WalkKeepsNamesUnique(f, 0, dirs);
      AddAssetKeepsNamesUnique(w.0, w.1, Asset(fs[0]));
      assert forall x :: x in fs[1..] ==> x in fs;
      PlaceFilesKeepNamesUnique(AddAlong(f, dirs, Asset(fs[0])).0, fs[1..]);
    }
  }

  /** Sorting rearranges children lists only, so names stay distinct. */
  lemma SortedSubtreeKeepsNamesUnique(f: Forest)
    requires ValidForest(f) && UniqueDirectoryNames(f)
    ensures UniqueDirectoryNames(SortedSubtree(f, 0))
  {
    var g := SortedSubtree(f, 0);
    forall p, a, b | 0 <= p < |g.children| && a in g.children[p] && b in g.children[p] &&
      a < |g.nodes| && b < |g.nodes| && a != b && g.nodes[a].Directory? && g.nodes[b].Directory?
      ensures g.nodes[a].relativePathFromParent != g.nodes[b].relativePathFromParent
    {
      SortedSubtreeSorts(f, 0, p);
      assert a in multiset(g.children[p]) && b in multiset(g.children[p]);
      assert a in f.children[p] && b in f.children[p];
    }
  }

  /** What a node spells and holds survives growing the forest. */
  lemma AttachedAtGrows(f: Forest, g: Forest, elems: seq<string>, d: UnityAsset)
    requires ValidForest(f) && Grows(f, g) && AttachedAt(f, elems, d)
    ensures AttachedAt(g, elems, d)
  {
    var id :| SpelledAt(f, id, elems) && f.nodes[id].Directory? && f.nodes[id].attached == Some(d);
    SpelledAtExtends(f, g, id);
    assert SpelledAt(g, id, elems) && g.nodes[id] == f.nodes[id];
  }

  lemma SpellsAllGrows(f: Forest, g: Forest, leaves: seq<nat>, fs: seq<UnityAsset>)
    requires ValidForest(f) && Grows(f, g) && SpellsAll(f, leaves, fs)
    ensures SpellsAll(g, leaves, fs)
  {
    forall i | 0 <= i < |fs| ensures HasPath(fs[i]) && SpelledAt(g, leaves[i], Elems(fs[i])) {
      SpelledAtExtends(f, g, leaves[i]);
    }
  }

  lemma RootHasNoAsset()
    ensures AssetsAmong(RootForest(), []) && UniqueDirectoryNames(RootForest())
  {
  }

  /** Every asset the loops visit has what `Placeable` demands of it. */
  lemma PlacedMembers(assets: seq<UnityAsset>)
    requires Placeable(assets)
    ensures forall x :: x in PlacedDirectories(assets) ==> x in assets && HasPath(x)
    ensures forall x :: x in PlacedFiles(assets) ==> x in assets && !x.IsProbablyDirectory() && Asset(x).Named()
    ensures forall x :: x in PlacedFiles(assets) <==> x in assets && !x.IsProbablyDirectory()
    ensures forall x :: x in PlacedDirectories(assets) <==> x in assets && x.IsProbablyDirectory()
  {
  }

  /**
   * The built tree has one Asset node for each file asset, in the file loop's order,
   * reached from the root through Directories named by the elements of the asset's full
   * path; there is no other Asset node.
   */
  lemma BuildForestFiles(assets: seq<UnityAsset>)
    requires BuildForest(assets).Ok?
    ensures var r := BuildForest(assets).value;
      SpellsAll(r.0, r.1, PlacedFiles(assets)) && AssetsAmong(r.0, r.1)
  {
    var ds, fs := PlacedDirectories(assets), PlacedFiles(assets);
    PlacedMembers(assets);
    RootHasNoAsset();
    var d := PlaceDirectories(RootForest(), ds);
    PlaceDirectoriesAddNoAsset(RootForest(), ds);
    var p := PlaceFiles(d, fs);
    PlaceFilesSpell(d, fs);
    PlaceFilesAssets(d, fs, []);
    assert [] + p.1 == p.1;
    var g := SortedSubtree(p.0, 0);
    SpellsAllGrows(p.0, g, p.1, fs);
    assert BuildForest(assets).value == (g, p.1);
  }


  /** The last index up to `j` whose asset has the same full path as `ds[i]`. */
  function LastOfPath(ds: seq<UnityAsset>, i: nat, j: nat): (k: nat)
    requires (forall x :: x in ds ==> HasPath(x)) && i <= j < |ds|
    ensures i <= k <= j && Elems(ds[k]) == Elems(ds[i])
    ensures forall m :: k < m <= j ==> Elems(ds[m]) != Elems(ds[i])
    ensures j == |ds| - 1 ==> LastOfItsPath(ds, k)
    decreases j
  {
    if j == i || Elems(ds[j]) == Elems(ds[i]) then j else LastOfPath(ds, i, j - 1)
  }

  /**
   * The Directory a directory asset's full path spells holds that asset, unless a later
   * directory asset in the loop's order has the same full path.
   */
  lemma BuildForestDirectory(assets: seq<UnityAsset>, k: nat)
    requires BuildForest(assets).Ok? && LastOfItsPath(PlacedDirectories(assets), k)
    ensures AttachedAt(BuildForest(assets).value.0, Elems(PlacedDirectories(assets)[k]), PlacedDirectories(assets)[k])
  {
    var ds, fs := PlacedDirectories(assets), PlacedFiles(assets);
    PlacedMembers(assets);
    var d := PlaceDirectories(RootForest(), ds);
    PlaceDirectoriesAttach(RootForest(), ds, k);
    var p := PlaceFiles(d, fs);
    AttachedAtGrows(d, p.0, Elems(ds[k]), ds[k]);
    var g := SortedSubtree(p.0, 0);
    AttachedAtGrows(p.0, g, Elems(ds[k]), ds[k]);
    assert BuildForest(assets).value.0 == g;
  }

  /** The index of `x` in `s`. */
  function IndexOf(s: seq<UnityAsset>, x: UnityAsset): (i: nat)
    requires x in s
    ensures i < |s| && s[i] == x
  {
    if s[0] == x then 0 else 1 + IndexOf(s[1..], x)
  }

  lemma PlacedDirectoryMembers(assets: seq<UnityAsset>, x: UnityAsset)
    requires Placeable(assets) && x in assets && x.IsProbablyDirectory()
    ensures x in PlacedDirectories(assets)
    ensures forall y :: y in PlacedDirectories(assets) ==> y in assets && y.IsProbablyDirectory() && HasPath(y)
  {
  }

  /** Every directory asset's full path spells a Directory holding a directory asset of that path. */
  lemma BuildForestDirectories(assets: seq<UnityAsset>, x: UnityAsset)
    requires BuildForest(assets).Ok? && x in assets && x.IsProbablyDirectory()
    ensures HasPath(x)
    ensures exists y :: y in assets && y.IsProbablyDirectory() && HasPath(y) && Elems(y) == Elems(x) &&
                        AttachedAt(BuildForest(assets).value.0, Elems(x), y)
  {
    var ds := PlacedDirectories(assets);
    PlacedDirectoryMembers(assets, x);
    var k := LastOfPath(ds, IndexOf(ds, x), |ds| - 1);
    BuildForestDirectory(assets, k);
    assert ds[k] in ds;
  }

  /** No Directory of the built tree has two Directory children of the same name. */
  lemma BuildForestUniqueNames(assets: seq<UnityAsset>)
    requires BuildForest(assets).Ok?
    ensures UniqueDirectoryNames(BuildForest(assets).value.0)
  {
    var ds, fs := PlacedDirectories(assets), PlacedFiles(assets);
    PlacedMembers(assets);
    RootHasNoAsset();
    var d := PlaceDirectories(RootForest(), ds);
    PlaceDirectoriesKeepNamesUnique(RootForest(), ds);
    var p := PlaceFiles(d, fs);
    PlaceFilesKeepNamesUnique(d, fs);
    SortedSubtreeKeepsNamesUnique(p.0);
    assert BuildForest(assets).value.0 == SortedSubtree(p.0, 0);
  }

  /**
   * After `recursiveSort()` every Directory's children are in sibling order: Directories
   * before Assets, each kind by name ignoring case.
   */
  lemma BuildForestSorted(assets: seq<UnityAsset>, j: nat)
    requires BuildForest(assets).Ok?
    requires j < |BuildForest(assets).value.0.nodes| && BuildForest(assets).value.0.nodes[j].Directory?
    ensures var g := BuildForest(assets).value.0; SortedBy(g.children[j], ChildOrder(g.nodes))
  {
    var p := Placed(assets);
    UnderRoot(p.0, j);
    SortedSubtreeSorts(p.0, 0, j);
    assert BuildForest(assets).value.0 == SortedSubtree(p.0, 0);
  }

  // ---------------------------------------------------------------------------
  // Search

  /** Every search node is an Asset node whose asset has a file name. */
  predicate SearchNodesNamed(list: seq<AssetNode>) {
    forall i {:trigger list[i]} :: 0 <= i < |list| ==> Asset(list[i].asset).Named()
  }

  /**
   * The test of `search`: the node's search string contains the query, both lowercased.
   * Only nodes whose asset has a file name have a search string; the model's search
   * nodes all do.
   */
  predicate Hit(n: AssetNode, searchText: string) {
    Asset(n.asset).Named() && Contains(ToLower(Asset(n.asset).SearchString()), ToLower(searchText))
  }

  /** The results of the loop of `search`, in the order of the search nodes, before sorting. */
  function Matches(list: seq<AssetNode>, searchText: string): seq<SearchResult>
    decreases |list|
  {
    if list == [] then []
    else
      var n := |list| - 1;
      Matches(list[..n], searchText) + (if Hit(list[n], searchText) then [SearchResult(list[n])] else [])
  }

  /** Search node `i` is a hit and `r` is its result. */
  predicate HitAt(list: seq<AssetNode>, searchText: string, i: int, r: SearchResult) {
    0 <= i < |list| && list[i] == r.assetNode && Hit(list[i], searchText)
  }

  /** A node yields a result exactly when it is a search node and a hit. */
  lemma {:induction false} MatchesExactly(list: seq<AssetNode>, searchText: string)
    ensures forall r :: r in Matches(list, searchText) <==> exists i :: HitAt(list, searchText, i, r)
    decreases |list|
  {
    if list != [] {
      MatchesExactly(list[..|list| - 1], searchText);
      forall r ensures r in Matches(list, searchText) <==> exists i :: HitAt(list, searchText, i, r) {
        MatchesStep(list, list[..|list| - 1], searchText, r);
      }
    }
  }

  lemma MatchesStep(list: seq<AssetNode>, pre: seq<AssetNode>, searchText: string, r: SearchResult)
    requires list != [] && pre == list[..|list| - 1]
    requires r in Matches(pre, searchText) <==> exists i :: HitAt(pre, searchText, i, r)
    ensures r in Matches(list, searchText) <==> exists i :: HitAt(list, searchText, i, r)
  {
    MatchesMember(list, searchText, r);
    HitAtSnoc(list, pre, searchText, r);
  }

  /** A hit among all the nodes is a hit among the earlier ones or the last node. */
  lemma HitAtSnoc(list: seq<AssetNode>, pre: seq<AssetNode>, searchText: string, r: SearchResult)
    requires list != [] && pre == list[..|list| - 1]
    ensures (exists i :: HitAt(list, searchText, i, r)) <==>
      (exists i :: HitAt(pre, searchText, i, r)) || HitAt(list, searchText, |pre|, r)
  {
    if exists i :: HitAt(pre, searchText, i, r) {
      var i :| HitAt(pre, searchText, i, r);
      assert HitAt(list, searchText, i, r);
    }
    if exists i :: HitAt(list, searchText, i, r) {
      var i :| HitAt(list, searchText, i, r);
      if i < |pre| {
        assert HitAt(pre, searchText, i, r);
      }
    }
  }

  lemma MatchesMember(list: seq<AssetNode>, searchText: string, r: SearchResult)
    requires list != []
    ensures var n := |list| - 1;
      r in Matches(list, searchText) <==>
        r in Matches(list[..n], searchText) || HitAt(list, searchText, n, r)
  {
  }

  /** Searching more nodes appends their results after the earlier ones. */
  lemma {:induction false} MatchesAppend(a: seq<AssetNode>, b: seq<AssetNode>, searchText: string)
    ensures Matches(a + b, searchText) == Matches(a, searchText) + Matches(b, searchText)
    decreases |b|
  {
    assert forall i :: 0 <= i < |a + b| ==> (a + b)[i] == if i < |a| then a[i] else b[i - |a|];
    if b != [] {
      var n := |b| - 1;
      assert (a + b)[..|a + b| - 1] == a + b[..n];
      assert forall i :: 0 <= i < n ==> b[..n][i] == b[i];
      MatchesAppend(a, b[..n], searchText);
    } else {
      assert a + b == a;
    }
  }

  /** One result per search node, in order. */
  function AllResults(list: seq<AssetNode>): (r: seq<SearchResult>)
    ensures |r| == |list| && forall i :: 0 <= i < |list| ==> r[i] == SearchResult(list[i])
  {
    seq(|list|, i requires 0 <= i < |list| => SearchResult(list[i]))
  }

  /** The empty query finds every search node, in order. */
  lemma {:induction false} EmptyQueryMatchesAll(list: seq<AssetNode>)
    requires SearchNodesNamed(list)
    ensures Matches(list, "") == AllResults(list)
    decreases |list|
  {
    if list != [] {
      var n := |list| - 1;
      var pre := list[..n];
      assert SearchNodesNamed(pre) by {
        forall i | 0 <= i < n ensures Asset(pre[i].asset).Named() {
          assert pre[i] == list[i] && Asset(list[i].asset).Named();
        }
      }
      EmptyQueryMatchesAll(pre);
      EmptyQueryHits(list[n]);
      assert Asset(list[n].asset).Named();
      AllResultsSnoc(list, pre);
    }
  }

  lemma EmptyQueryHits(n: AssetNode)
    requires Asset(n.asset).Named()
    ensures Hit(n, "")
  {
    ContainsEmpty(ToLower(Asset(n.asset).SearchString()));
  }

  lemma AllResultsSnoc(list: seq<AssetNode>, pre: seq<AssetNode>)
    requires list != [] && pre == list[..|list| - 1]
    ensures AllResults(list) == AllResults(pre) + [SearchResult(list[|list| - 1])]
  {
  }

  /** Queries that agree up to letter case find the same results. */
  lemma {:induction false} MatchesIgnoresCase(list: seq<AssetNode>, q: string, q': string)
    requires ToLower(q) == ToLower(q')
    ensures Matches(list, q) == Matches(list, q')
    decreases |list|
  {
    if list != [] {
      var n := |list| - 1;
      assert forall i :: 0 <= i < n ==> list[..n][i] == list[i];
      MatchesIgnoresCase(list[..n], q, q');
    }
  }

  /** `Collections.sort(searchResults)`: the same results, in result order. */
  lemma SearchSorted(list: seq<AssetNode>, searchText: string)
    ensures var s := SortBy(Matches(list, searchText), CompareResults);
      SortedBy(s, CompareResults) && multiset(s) == multiset(Matches(list, searchText))
  {
    var m := Matches(list, searchText);
    ResultOrderTotal(Elements(m));
    SortBySorted(m, CompareResults);
    SortByPermutes(m, CompareResults);
  }

  // ---------------------------------------------------------------------------
  // The model object

  /** The Asset nodes added for files `fs`, at `leaves` of `tree`. */
  function NodesOf(tree: UnityTree, leaves: seq<nat>, fs: seq<UnityAsset>): (r: seq<AssetNode>)
    requires |leaves| == |fs|
    ensures |r| == |fs| && forall i :: 0 <= i < |fs| ==> r[i] == AssetNode(tree, leaves[i], fs[i])
  {
    if fs == [] then [] else [AssetNode(tree, leaves[0], fs[0])] + NodesOf(tree, leaves[1..], fs[1..])
  }

  /**
   * `findOrCreateDirectoryNode(parent, relativePathFromParent)`: scans the children of
   * `parent` for a Directory of that name, or adds a new one.
   */
  method FindOrCreateDirectoryNode(tree: UnityTree, parent: nat, relativePathFromParent: string) returns (id: nat)
    requires tree.Valid() && parent < |tree.nodes| && tree.nodes[parent].Directory?
    modifies tree
    ensures tree.Valid()
    ensures (tree.Value(), id) == FindOrCreate(old(tree.Value()), parent, relativePathFromParent)
  {
    ghost var f := tree.Value();
    ChildrenListed(f, parent);
    var kids := tree.children[parent];
    var k := 0;
    while k < |kids|
      invariant 0 <= k <= |kids| && tree.Value() == f
      invariant FirstDirectoryNamed(f.nodes, kids[k..], relativePathFromParent) ==
        FirstDirectoryNamed(f.nodes, kids, relativePathFromParent)
    {
      var nextKid := kids[k];
      assert kids[k..][1..] == kids[k + 1..];
      if tree.nodes[nextKid].Asset? {
        k := k + 1;
        continue;
      }
      if tree.nodes[nextKid].relativePathFromParent == relativePathFromParent {
        return nextKid;
      }
      k := k + 1;
    }
    id := tree.Add(parent, Directory(relativePathFromParent, None));
  }

  /** The inner loop of `buildTreeModel`: one `findOrCreateDirectoryNode` per name element, from `start`. */
  method WalkDirectories(tree: UnityTree, start: nat, elems: seq<string>) returns (currentDirectory: nat)
    requires tree.Valid() && start < |tree.nodes| && tree.nodes[start].Directory?
    modifies tree
    ensures tree.Valid()
    ensures (tree.Value(), currentDirectory) == Walk(old(tree.Value()), start, elems)
  {
    currentDirectory := start;
    var i := 0;
    while i < |elems|
      invariant 0 <= i <= |elems| && tree.Valid()
      invariant currentDirectory < |tree.nodes| && tree.nodes[currentDirectory].Directory?
      invariant Walk(tree.Value(), currentDirectory, elems[i..]) == Walk(old(tree.Value()), start, elems)
    {
      assert elems[i..][0] == elems[i] && elems[i..][1..] == elems[i + 1..];
      currentDirectory := FindOrCreateDirectoryNode(tree, currentDirectory, elems[i]);
      i := i + 1;
    }
  }

  /** The directory loop of `buildTreeModel`: walk each directory asset's path, then attach the asset there. */
  method PlaceDirectoryAssets(root: UnityTree, dirEntries: seq<UnityAsset>)
    requires root.Valid() && forall x :: x in dirEntries ==> HasPath(x)
    modifies root
    ensures root.Valid() && root.Value() == PlaceDirectories(old(root.Value()), dirEntries)
  {
    var i := 0;
    while i < |dirEntries|
      invariant 0 <= i <= |dirEntries| && root.Valid()
      invariant PlaceDirectories(root.Value(), dirEntries[i..]) == PlaceDirectories(old(root.Value()), dirEntries)
    {
      assert dirEntries[i..][0] == dirEntries[i] && dirEntries[i..][1..] == dirEntries[i + 1..];
      var directoryAssetEntry := dirEntries[i];
      var currentDirectory := WalkDirectories(root, 0, Elems(directoryAssetEntry));
      root.SetAsset(currentDirectory, directoryAssetEntry);
      i := i + 1;
    }
  }

  /** One round of the file loop of `buildTreeModel`: walk to the file's directory and add a new Asset there. */
  method AddFileAsset(root: UnityTree, asset: UnityAsset) returns (assetNode: nat)
    requires root.Valid() && Asset(asset).Named()
    modifies root
    ensures root.Valid() && (root.Value(), assetNode) == AddAlong(old(root.Value()), DirElems(asset), Asset(asset))
  {
    ghost var v := root.Value();
    var currentDir := WalkDirectories(root, 0, DirElems(asset));
    assetNode := root.Add(currentDir, Asset(asset));
    AddAlongUnfold(v, DirElems(asset), Asset(asset));
  }

  class UnitypackageGuiModel {
    var currentUnitypackage: Option<Pkg.UnityPackage>
    var assetNodesForSearching: seq<AssetNode>

    ghost predicate Valid()
      reads this
    {
      SearchNodesNamed(assetNodesForSearching)
    }

    /** A model with no package read and nothing to search. */
    constructor ()
      ensures Valid() && currentUnitypackage == None && assetNodesForSearching == []
    {
      currentUnitypackage := None;
      assetNodesForSearching := [];
    }

    /**
     * `buildTreeModel(unitypackagePath)`: reads the package, builds its tree, and
     * appends the Asset node of every file asset to the search nodes. A package that
     * cannot be read leaves the model as it was; a tree that cannot be built still
     * replaces the current package.
     */
    method BuildTreeModel(entries: seq<Entry>) returns (r: Result<UnityTree, Error>)
      requires Valid()
      modifies this
      ensures Valid()
      ensures Pkg.Index(entries).Err? ==>
        r == Err(Pkg.Index(entries).error) && currentUnitypackage == old(currentUnitypackage) &&
        assetNodesForSearching == old(assetNodesForSearching)
      ensures Pkg.Index(entries).Ok? ==>
        currentUnitypackage == Some(Pkg.UnityPackage(entries, Pkg.Index(entries).value))
      ensures Pkg.Index(entries).Ok? && BuildForest(Pkg.Index(entries).value).Err? ==>
        r == Err(BuildForest(Pkg.Index(entries).value).error) && assetNodesForSearching == old(assetNodesForSearching)
      ensures Pkg.Index(entries).Ok? && BuildForest(Pkg.Index(entries).value).Ok? ==>
        var (g, leaves) := BuildForest(Pkg.Index(entries).value).value;
        r.Ok? && fresh(r.value) && r.value.Value() == g &&
        assetNodesForSearching ==
          old(assetNodesForSearching) + NodesOf(r.value, leaves, PlacedFiles(Pkg.Index(entries).value))
    {
      var unitypackage := Pkg.Open(entries);
      if unitypackage.Err? {
        return Err(unitypackage.error);
      }
      currentUnitypackage := Some(unitypackage.value);
      var unityAssets := unitypackage.value.unityAssetList;
      var root := new UnityTree();
      var dirEntries := Group(unityAssets, true);
      var fileEntries := Group(unityAssets, false);
      if fileEntries == [] {
        return Err(NoFileAssets);
      }
      if !Placeable(unityAssets) {
        return Err(MissingPathname);
      }
      if !Parsable(unityAssets) {
        return Err(InvalidPath);
      }
      fileEntries := SortAssets(fileEntries);
      dirEntries := SortAssets(dirEntries);
      PlacedMembers(unityAssets);
      PlaceDirectoryAssets(root, dirEntries);
      ghost var leaves := AddFileAssets(root, fileEntries);
      root.RecursiveSort(0);
      return Ok(root);
    }

    /** The file loop of `buildTreeModel`: one new Asset node per file, also appended to the search nodes. */
    method AddFileAssets(root: UnityTree, fileEntries: seq<UnityAsset>) returns (ghost leaves: seq<nat>)
      requires Valid() && root.Valid() && forall x :: x in fileEntries ==> Asset(x).Named()
      modifies this`assetNodesForSearching, root
      ensures Valid() && root.Valid()
      ensures (root.Value(), leaves) == PlaceFiles(old(root.Value()), fileEntries)
      ensures assetNodesForSearching == old(assetNodesForSearching) + NodesOf(root, leaves, fileEntries)
    {
      ghost var placed := FileLoopStart(root.Value(), fileEntries);
      leaves := placed.1;
      var i := 0;
      while i < |fileEntries|
        invariant FileLoopAt(root.Value(), fileEntries, i, placed.0, leaves)
        invariant assetNodesForSearching ==
          old(assetNodesForSearching) + NodesOf(root, leaves[..i], fileEntries[..i])
      {
        AddSearchableFile(root, fileEntries, i, placed.0, leaves);
        AppendNode(old(assetNodesForSearching), root, leaves, fileEntries, i);
        i := i + 1;
      }
      FileLoopDone(root.Value(), fileEntries, i, placed.0, leaves);
      NodesOfNamed(old(assetNodesForSearching), root, leaves, fileEntries);
    }

    /** The body of the file loop for file `i`: its new Asset node, also appended to the search nodes. */
    method AddSearchableFile(root: UnityTree, fileEntries: seq<UnityAsset>, i: nat, ghost last: Forest, ghost leaves: seq<nat>)
      requires FileLoopAt(root.Value(), fileEntries, i, last, leaves) && i < |fileEntries|
      modifies this`assetNodesForSearching, root
      ensures FileLoopAt(root.Value(), fileEntries, i + 1, last, leaves)
      ensures assetNodesForSearching == old(assetNodesForSearching) + [AssetNode(root, leaves[i], fileEntries[i])]
    {
      ghost var v := root.Value();
      var asset := fileEntries[i];
      var assetNode := AddFileAsset(root, asset);
      FileLoopStep(v, fileEntries, i, last, leaves, root.Value(), assetNode);
      assetNodesForSearching := assetNodesForSearching + [AssetNode(root, assetNode, asset)];
    }

    /** `search(searchText)`: every search node that is a hit, as results in result order. */
    method Search(searchText: string) returns (results: seq<SearchResult>)
      requires Valid()
      ensures results == SortBy(Matches(assetNodesForSearching, searchText), CompareResults)
    {
      var searchResults: seq<SearchResult> := [];
      var i := 0;
      while i < |assetNodesForSearching|
        invariant 0 <= i <= |assetNodesForSearching|
        invariant searchResults == Matches(assetNodesForSearching[..i], searchText)
      {
        var pathsInPathname := assetNodesForSearching[i];
        assert assetNodesForSearching[..i + 1][..i] == assetNodesForSearching[..i];
        if Contains(ToLower(Asset(pathsInPathname.asset).SearchString()), ToLower(searchText)) {
          searchResults := searchResults + [SearchResult(pathsInPathname)];
        }
        i := i + 1;
      }
      assert assetNodesForSearching[..i] == assetNodesForSearching;
      results := SortBy(searchResults, CompareResults);
    }

    /**
     * `extractFile(asset, outputFile)`: opens the asset's payload in the current
     * package; with no package read yet, the NullPointerException.
     */
    method ExtractFile(asset: UnityAsset) returns (r: Result<Stream.UnityArchiveInputStream, Error>)
      ensures currentUnitypackage.None? ==> r == Err(NoPackageOpen)
      ensures currentUnitypackage.Some? ==>
        match Pkg.FileStreamAt(currentUnitypackage.value.entries, asset)
        case Ok(pos) => r.Ok? && fresh(r.value) && r.value.Valid() &&
          r.value.entries == currentUnitypackage.value.entries && r.value.position == pos
        case Err(err) => r == Err(err)
    {
      if currentUnitypackage.None? {
        return Err(NoPackageOpen);
      }
      r := Pkg.GetFileStream(currentUnitypackage.value, asset);
    }
  }

  lemma AddAlongUnfold(f: Forest, dirs: seq<string>, n: Node)
    requires ValidForest(f) && n.Named()
    ensures var w := Walk(f, 0, dirs); AddAlong(f, dirs, n) == (AddChild(w.0, w.1, n), |w.0.nodes|)
  {
  }

  /** The file loop before file `i`: the rest of the loop turns `v` into `last`, with the remaining leaves. */
  ghost predicate FileLoopAt(v: Forest, fs: seq<UnityAsset>, i: nat, last: Forest, leaves: seq<nat>) {
    ValidForest(v) && (forall x :: x in fs ==> Asset(x).Named()) && i <= |fs| && |leaves| == |fs| &&
    PlaceFiles(v, fs[i..]) == (last, leaves[i..])
  }

  /** One round of the file loop: the file's new Asset node is its leaf, and the rest of the loop follows. */
  lemma FileLoopStep(v: Forest, fs: seq<UnityAsset>, i: nat, last: Forest, leaves: seq<nat>, after: Forest, id: nat)
    requires FileLoopAt(v, fs, i, last, leaves) && i < |fs|
    requires (after, id) == AddAlong(v, DirElems(fs[i]), Asset(fs[i]))
    ensures FileLoopAt(after, fs, i + 1, last, leaves) && id == leaves[i]
  {
    var rest := fs[i..];
    assert forall x :: x in rest ==> x in fs;
    assert rest[0] == fs[i] && rest[1..] == fs[i + 1..];
    PlaceFilesUnfold(v, rest);
    var q := PlaceFiles(after, fs[i + 1..]);
    assert leaves[i..] == [id] + q.1;
    assert q.1 == leaves[i..][1..] == leaves[i + 1..];
  }

  /** Before the file loop: the whole loop lies ahead. */
  lemma FileLoopStart(v: Forest, fs: seq<UnityAsset>) returns (placed: (Forest, seq<nat>))
    requires ValidForest(v) && forall x :: x in fs ==> Asset(x).Named()
    ensures placed == PlaceFiles(v, fs) && FileLoopAt(v, fs, 0, placed.0, placed.1)
  {
    placed := PlaceFiles(v, fs);
    assert fs[0..] == fs;
  }

  /** At the end of the file loop the tree is the one the whole loop builds. */
  lemma FileLoopDone(v: Forest, fs: seq<UnityAsset>, i: nat, last: Forest, leaves: seq<nat>)
    requires FileLoopAt(v, fs, i, last, leaves) && i >= |fs|
    ensures ValidForest(v) && v == last && fs[..i] == fs && leaves[..i] == leaves
  {
  }

  lemma PlaceFilesUnfold(f: Forest, fs: seq<UnityAsset>)
    requires ValidForest(f) && fs != [] && forall x :: x in fs ==> Asset(x).Named()
    ensures forall x :: x in fs[1..] ==> Asset(x).Named()
    ensures var p := AddAlong(f, DirElems(fs[0]), Asset(fs[0]));
      PlaceFiles(f, fs) == (PlaceFiles(p.0, fs[1..]).0, [p.1] + PlaceFiles(p.0, fs[1..]).1)
  {
    assert forall x :: x in fs[1..] ==> x in fs;
  }

  /** Search nodes of named file assets are named. */
  lemma NodesOfNamed(before: seq<AssetNode>, tree: UnityTree, leaves: seq<nat>, fs: seq<UnityAsset>)
    requires SearchNodesNamed(before) && |leaves| == |fs| && forall x :: x in fs ==> Asset(x).Named()
    ensures SearchNodesNamed(before + NodesOf(tree, leaves, fs))
  {
    var all := before + NodesOf(tree, leaves, fs);
    forall i | 0 <= i < |all| ensures Asset(all[i].asset).Named() {
      if i >= |before| {
        assert all[i].asset == fs[i - |before|];
      }
    }
  }

  /** Appending the node of file `i` extends the search nodes by one more file's node. */
  lemma AppendNode(before: seq<AssetNode>, tree: UnityTree, leaves: seq<nat>, fs: seq<UnityAsset>, i: nat)
    requires |leaves| == |fs| && i < |fs|
    ensures before + NodesOf(tree, leaves[..i], fs[..i]) + [AssetNode(tree, leaves[i], fs[i])] ==
      before + NodesOf(tree, leaves[..i + 1], fs[..i + 1])
  {
    var added := NodesOf(tree, leaves[..i], fs[..i]);
    assert NodesOf(tree, leaves[..i + 1], fs[..i + 1]) == added + [AssetNode(tree, leaves[i], fs[i])];
  }
}
