/**
 * The older indexer and extractor. Indexing is the same forward pass as in
 * `UnityPackage`, with builders created lazily per parent directory in a `TreeMap`,
 * but entries are classified with `java.io.File`: there is no `.` root handling, a
 * one-element directory name of any kind (`.` included) is a GUID directory, and a
 * parentless file is skipped only when its whole raw name is `.icon.png`.
 */
module UnitypackageReader {
  import opened Wrappers
  import opened JavaString
  import opened PathNames
  import opened TarArchive
  import opened UnityAssetBuilder
  import opened UnityAsset
  import opened UnityPackage

  /** Classifies an entry by `getParent()`, `getPath()` and `getName()` of its `File`. */
  function ClassifyLegacy(e: Entry): (r: Result<Route, Error>)
    ensures r.Ok? ==> !r.value.SetDotRoot?
    ensures r.Ok? && r.value.DirectoryRoute? ==> e.isDirectory && Segments(e.name) == [r.value.key]
    ensures r.Ok? && r.value.MemberRoute? ==>
      !e.isDirectory && Segments(e.name) == Segments(r.value.key) + [r.value.fileName]
    ensures (r.Ok? && r.value.Ignore?) <==> !e.isDirectory && e.name == RootIcon
    ensures e.isDirectory && |Segments(e.name)| > 1 ==> r == Err(NestedDirectory(e.name))
    ensures !e.isDirectory && |Segments(e.name)| == 1 && e.name != RootIcon ==> r == Err(NestedDirectory(e.name))
  {
    var segs := Segments(e.name);
    SegmentsValid(e.name);
    SegmentsOfName(RootIcon);
    if segs == [] then Err(EmptyName(e.name))
    else if e.isDirectory then
      if |segs| > 1 then Err(NestedDirectory(e.name)) else Ok(DirectoryRoute(segs[0]))
    else if |segs| == 1 then
      if e.name == RootIcon then Ok(Ignore) else Err(NestedDirectory(e.name))
    else
      var parent := segs[..|segs| - 1];
      SegmentsJoin(parent);
      assert segs == parent + [segs[|segs| - 1]];
      Ok(MemberRoute(Join(parent), segs[|segs| - 1]))
  }

  /** The loop of `readAssetsList`, stopping at the first entry that throws. */
  function RunLegacy(es: seq<Entry>): (r: Result<IndexState, Error>)
    ensures r.Ok? ==> WF(r.value) && !r.value.hasDotRoot
    decreases |es|
  {
    if es == [] then Ok(Init)
    else
      match RunLegacy(es[..|es| - 1])
      case Err(err) => Err(err)
      case Ok(st) => StepRoute(st, ClassifyLegacy(es[|es| - 1]), es[|es| - 1])
  }

  /** The asset list `readAssetsList` returns, or the exception it stops at. */
  function IndexLegacy(es: seq<Entry>): (r: Result<seq<UnityAsset>, Error>)
    ensures r.Ok? ==> forall i, j :: 0 <= i < j < |r.value| ==>
      CompareTo(r.value[i].DirectoryGuid(), r.value[j].DirectoryGuid()) < 0
  {
    match RunLegacy(es)
    case Err(err) => Err(err)
    case Ok(st) => Ok(AssetsOf(st))
  }

  /** An archive without a dot root whose parentless files, if any, are named exactly `.icon.png`. */
  predicate Conventional(e: Entry) {
    !IsDotRootEntry(e) && (Segments(e.name) == [RootIcon] ==> e.name == RootIcon)
  }

  lemma ClassifyAgrees(e: Entry)
    requires Conventional(e)
    ensures ClassifyLegacy(e).Ok? <==> Classify(false, e).Ok?
    ensures ClassifyLegacy(e).Ok? ==> ClassifyLegacy(e) == Classify(false, e)
  {
    SegmentsOfName(RootIcon);
  }

  /**
   * On an archive without a root directory `.`, and whose parentless files are named
   * exactly `.icon.png`, the two indexers accept the same archives and build the same
   * builders; only the wording of some refusals differs.
   */
  lemma RunAgreesLast(es: seq<Entry>)
    requires es != [] && Conventional(es[|es| - 1])
    requires Run(es[..|es| - 1]).Ok? && RunLegacy(es[..|es| - 1]) == Run(es[..|es| - 1])
    ensures RunLegacy(es).Ok? <==> Run(es).Ok?
    ensures RunLegacy(es).Ok? ==> RunLegacy(es) == Run(es)
  {
    var n := |es| - 1;
    var st := Run(es[..n]).value;
    ClassifyAgrees(es[n]);
    assert Run(es) == StepRoute(st, Classify(false, es[n]), es[n]);
  }

  /**
   * On an archive without a root directory `.`, and whose parentless files are named
   * exactly `.icon.png`, the two indexers accept the same archives and build the same
   * builders; only the wording of some refusals differs.
   */
  lemma {:induction false} RunAgrees(es: seq<Entry>)
    requires forall i :: 0 <= i < |es| ==> Conventional(es[i])
    ensures RunLegacy(es).Ok? <==> Run(es).Ok?
    ensures RunLegacy(es).Ok? ==> RunLegacy(es) == Run(es)
    decreases |es|
  {
    if es != [] {
      var n := |es| - 1;
      assert forall i :: 0 <= i < n ==> es[..n][i] == es[i];
      RunAgrees(es[..n]);
      if Run(es[..n]).Ok? {
        RunAgreesLast(es);
      }
    }
  }

  /** Any valid one-element directory name, `.` included, forms a directory key. */
  lemma DotDirectoryIsAKey(e: Entry)
    requires e.isDirectory && e.name == "."
    ensures IndexLegacy([e]) == Ok([UnityAsset(Fresh("."))])
    ensures Index([e]) == Ok([])
  {
    SegmentsOfName(".");
    assert [e][..0] == [];
    var st := Put(Init, ".", Fresh("."));
    assert RunLegacy([e]) == Ok(st);
    assert st.keys == ["."];
    assert AssetsOf(st) == [UnityAsset(Fresh("."))];
    assert Run([e]) == Ok(Init.(hasDotRoot := true));
  }

  // ---------------------------------------------------------------------------
  // Extraction

  /** The index of the first entry named `p`; a null path matches nothing. */
  function FindEntry(entries: seq<Entry>, p: Option<string>): (r: Option<nat>)
    ensures r.Some? ==> r.value < |entries| && Some(entries[r.value].name) == p
    ensures r.Some? ==> forall k :: 0 <= k < r.value ==> Some(entries[k].name) != p
    ensures r.None? ==> forall k :: 0 <= k < |entries| ==> Some(entries[k].name) != p
  {
    if entries == [] then None
    else if Some(entries[0].name) == p then Some(0)
    else
      var r := FindEntry(entries[1..], p);
      if r.Some? then Some(r.value + 1) else None
  }

  /**
   * Where `getFileStream(asset, file)` leaves the archive: just past the first entry
   * named with the asset's raw payload path, or the "Could not find asset" error
   * naming its full path.
   */
  function LegacyFileStreamAt(entries: seq<Entry>, a: UnityAsset): Result<nat, Error> {
    match FindEntry(entries, a.TarPathOfAssetFile())
    case Some(k) => Ok(k + 1)
    case None => Err(AssetNotFound(ValueOf(a.FullPath())))
  }

  /** `getFileStream(assetToExtract, unitypackageFile)`: the linear seek from the start of the archive. */
  method GetFileStream(entries: seq<Entry>, assetToExtract: UnityAsset) returns (r: Result<nat, Error>)
    ensures r == LegacyFileStreamAt(entries, assetToExtract)
  {
    var tarPathOfAssetFile := assetToExtract.TarPathOfAssetFile();
    var position := 0;
    while position < |entries|
      invariant 0 <= position <= |entries|
      invariant forall k :: 0 <= k < position ==> Some(entries[k].name) != tarPathOfAssetFile
    {
      var entry := entries[position];
      position := position + 1;
      if Some(entry.name) == tarPathOfAssetFile {
        return Ok(position);
      }
    }
    return Err(AssetNotFound(ValueOf(assetToExtract.FullPath())));
  }

  /**
   * Both extractors stop at the same entry, and fail on the same assets (directory-like
   * ones, and those whose payload is missing), only with different messages.
   */
  lemma ExtractorsAgree(entries: seq<Entry>, a: UnityAsset)
    ensures LegacyFileStreamAt(entries, a).Ok? <==> FileStreamAt(entries, a).Ok?
    ensures LegacyFileStreamAt(entries, a).Ok? ==> LegacyFileStreamAt(entries, a) == FileStreamAt(entries, a)
  {
  }

  // ---------------------------------------------------------------------------
  // Indexing on builder objects

  /** `readAssetsList(unitypackageFile)`. */
  method ReadAssetsList(entries: seq<Entry>) returns (r: Result<seq<UnityAsset>, Error>)
    ensures r == IndexLegacy(entries)
  {
    var keys: seq<string> := [];
    var rootGuidDirectories: map<string, UnityAssetBuilder> := map[];
    ghost var st := Init;
    var i := 0;
    while i < |entries|
      invariant 0 <= i <= |entries|
      invariant RunLegacy(entries[..i]) == Ok(st) && Tracks(rootGuidDirectories, st)
      invariant st.keys == keys
      invariant forall k :: k in rootGuidDirectories ==> fresh(rootGuidDirectories[k])
    {
      assert entries[..i + 1][..i] == entries[..i];
      var route := ClassifyLegacy(entries[i]);
      var indexed;
      indexed, st := IndexEntry(rootGuidDirectories, keys, false, st, route, entries[i]);
      if indexed.Err? {
        LegacyErrPersists(entries, i + 1);
        return Err(indexed.error);
      }
      rootGuidDirectories, keys := indexed.value.0, indexed.value.1;
      i := i + 1;
    }
    assert entries[..i] == entries;
    var assets := CollectAssets(rootGuidDirectories, keys, st);
    return Ok(assets);
  }

  lemma {:induction false} LegacyErrPersists(es: seq<Entry>, n: nat)
    requires n <= |es| && RunLegacy(es[..n]).Err?
    ensures RunLegacy(es) == RunLegacy(es[..n])
    decreases |es| - n
  {
    if n < |es| {
      assert es[..n + 1][..n] == es[..n];
      assert RunLegacy(es[..n + 1]) == RunLegacy(es[..n]);
      LegacyErrPersists(es, n + 1);
    } else {
      assert es[..n] == es;
    }
  }
}
