/**
 * An asset as it appears in the tree shown when a package is imported: a read-only
 * view of the fields its builder collected. Every getter reads one builder field.
 */
module UnityAsset {
  import opened Wrappers
  import opened TarArchive
  import LineReader
  import PathNames
  import B = UnityAssetBuilder

  datatype UnityAsset = UnityAsset(source: B.BuilderState) {

    /** `getFullPath()`: the first line of the `pathname` member, null when there was none. */
    function FullPath(): Option<string> {
      source.pathnameFirstLine
    }

    /**
     * `getFileName()`: the last element of the full path; `None` where Java throws on a
     * null path or returns null for a path with no name element.
     */
    function FileName(): Option<string> {
      if source.pathnameFirstLine.Some? then PathNames.FileName(source.pathnameFirstLine.value) else None
    }

    /** `getSize()`: the size of the `asset` member, -1 for an asset without one. */
    function Size(): int {
      source.assetSize
    }

    /** `getGuid()`: the GUID named in `asset.meta`, null when there was none. */
    function Guid(): Option<string> {
      source.metaGuid
    }

    /** `getDirectoryGuid()`: the name of the directory the members were found in. */
    function DirectoryGuid(): string {
      source.guidDirectory
    }

    function Preview(): Option<Image> {
      source.preview
    }

    /** `isProbablyDirectory()`: no `asset` member was seen. */
    predicate IsProbablyDirectory() {
      source.rawAssetPath.None?
    }

    /** `getTarPathOf_asset_File()`: the raw tar name of the `asset` member. */
    function TarPathOfAssetFile(): Option<string> {
      source.rawAssetPath
    }

    function DateModified(): Option<int> {
      source.assetModified
    }
  }

  /** `makeUnityAsset()`: the view of a builder's fields. */
  function MakeUnityAsset(b: B.UnityAssetBuilder): (a: UnityAsset)
    reads b
    ensures a.DirectoryGuid() == b.guidBaseDirectory
    ensures a.IsProbablyDirectory() <==> b.rawPathToAssetFile.None?
    ensures a.FullPath() == b.pathnameFirstLine && a.Guid() == b.assetMetaGuid && a.Size() == b.assetFileSize
  {
    UnityAsset(b.State())
  }

  /**
   * An asset is directory-like exactly when its directory had no `asset` member, and a
   * directory-like asset reports size -1.
   */
  lemma {:induction false} DirectoryLikeIffNoPayload(dir: string, ms: seq<B.Member>)
    requires B.AddAll(B.Fresh(dir), ms).Ok?
    ensures var a := UnityAsset(B.AddAll(B.Fresh(dir), ms).value);
      (a.IsProbablyDirectory() <==> B.NoneNamed(ms, "asset")) &&
      (a.IsProbablyDirectory() ==> a.Size() == -1)
  {
    B.PayloadOnlyFromAsset(B.Fresh(dir), ms);
    B.AddAllKeepsPayloadConsistent(B.Fresh(dir), ms);
  }

  /** The file name of an asset is the last element of its path. */
  lemma FileNameIsLastElement(a: UnityAsset, segs: seq<string>)
    requires a.FullPath() == Some(PathNames.Join(segs)) && PathNames.AllValid(segs) && segs != []
    ensures a.FileName() == Some(segs[|segs| - 1])
  {
    PathNames.FileNameJoin(segs);
  }

  /**
   * The GUID in `asset.meta` and the directory name are independent: a directory `dir`
   * whose `asset.meta` is the line `guid: g` gives an asset whose GUID is `g`, whatever
   * `dir` is.
   */
  lemma GuidIndependentOfDirectory(dir: string, g: string, e: Entry)
    requires LineReader.NoTerminator(g) && e.content == B.GuidLinePrefix + g + "\n"
    ensures var r := B.AddMember(B.Fresh(dir), dir, "asset.meta", e);
      r.Ok? && UnityAsset(r.value).Guid() == Some(g) && UnityAsset(r.value).DirectoryGuid() == dir
  {
    GuidLineNamesGuid(g);
    B.MetaGuidMismatchTolerated(B.Fresh(dir), e, g);
  }

  /** An `asset.meta` of the single line `guid: g` names the GUID `g`. */
  lemma GuidLineNamesGuid(g: string)
    requires LineReader.NoTerminator(g)
    ensures B.FindGuid(LineReader.Lines(B.GuidLinePrefix + g + "\n")) == Some(g)
  {
    var line := B.GuidLinePrefix + g;
    assert LineReader.NoTerminator(line) by {
      assert forall i :: 0 <= i < |line| ==> line[i] == if i < 6 then B.GuidLinePrefix[i] else g[i - 6];
    }
    LineReader.LinesCons(line, "\n", "");
    LineReader.LinesOfSingleLine("");
    assert line + "\n" + "" == line + "\n";
    assert line[..6] == B.GuidLinePrefix && line[6..] == g;
  }
}
