/**
 * The per-GUID record builder. A builder collects the members found in one directory
 * of the archive: `asset` (the payload), `asset.meta` (which names the GUID),
 * `pathname` (the asset's project path) and `preview.png`.
 *
 * The builder's fields as a value (`BuilderState`) and the effect of one member on
 * them (`AddMember`) specify the class `UnityAssetBuilder`, whose methods update the
 * fields in place.
 */
module UnityAssetBuilder {
  import opened Wrappers
  import opened JavaString
  import opened LineReader
  import opened TarArchive

  /** The builder's fields; `None` stands for a field that is still null. */
  datatype BuilderState = BuilderState(
    guidDirectory: string,
    metaGuid: Option<string>,
    pathnameFirstLine: Option<string>,
    rawAssetPath: Option<string>,
    assetSize: int,
    assetModified: Option<int>,
    preview: Option<Image>)

  /** A builder just created for a directory: every field null and the size -1. */
  function Fresh(guidDirectory: string): BuilderState {
    BuilderState(guidDirectory, None, None, None, -1, None, None)
  }

  const GuidLinePrefix := "guid: "

  predicate IsFirstGuidLine(lines: seq<string>, i: int) {
    0 <= i < |lines| && StartsWith(lines[i], GuidLinePrefix) &&
    forall j :: 0 <= j < i ==> !StartsWith(lines[j], GuidLinePrefix)
  }

  /**
   * The GUID named in an `asset.meta` file: the text after `guid: ` on the first line
   * that starts with it, or `None` when no line does.
   */
  function FindGuid(lines: seq<string>): (r: Option<string>)
    ensures r.None? <==> forall i :: 0 <= i < |lines| ==> !StartsWith(lines[i], GuidLinePrefix)
    ensures r.Some? ==> exists i :: IsFirstGuidLine(lines, i) && r.value == lines[i][|GuidLinePrefix|..]
  {
    if lines == [] then None
    else if StartsWith(lines[0], GuidLinePrefix) then
      assert IsFirstGuidLine(lines, 0);
      Some(lines[0][|GuidLinePrefix|..])
    else
      var r := FindGuid(lines[1..]);
      assert forall i :: 1 <= i < |lines| ==> lines[i] == lines[1..][i - 1];
      if r.Some? then
        var i :| IsFirstGuidLine(lines[1..], i) && r.value == lines[1..][i][|GuidLinePrefix|..];
        assert IsFirstGuidLine(lines, i + 1);
        r
      else
        r
  }

  /**
   * The one line of a `pathname` file. A file of two lines whose second line is `00` is
   * accepted too; an empty file and any other line count are errors.
   */
  function ReadFirstLine(tarPath: string, lines: seq<string>): (r: Result<string, Error>)
    ensures r.Ok? <==> |lines| == 1 || (|lines| == 2 && lines[1] == "00")
    ensures r.Ok? ==> r.value == lines[0]
    ensures |lines| == 0 ==> r == Err(EmptyFile(tarPath))
    ensures |lines| > 0 && r.Err? ==> r == Err(UnexpectedLineCount(tarPath, |lines|))
  {
    if |lines| == 0 then Err(EmptyFile(tarPath))
    else if |lines| == 2 && lines[1] == "00" then Ok(lines[0])
    else if |lines| != 1 then Err(UnexpectedLineCount(tarPath, |lines|))
    else Ok(lines[0])
  }

  /** What one member contributes; each kind writes its own group of fields. */
  datatype MemberUpdate =
    | PayloadFound(tarPath: string, size: int, mtime: int)
    | MetaGuidFound(guid: string)
    | PathnameFound(path: string)
    | PreviewFound(preview: Option<Image>)

  /** Reads one member of the directory, dispatching on its file name. */
  function ReadMember(fileName: string, e: Entry): Result<MemberUpdate, Error> {
    match fileName
    case "asset" => Ok(PayloadFound(e.name, e.size, e.mtime))
    case "asset.meta" =>
      var lines := Lines(e.content);
      (match FindGuid(lines)
       case None => Err(GuidNotFound(e.name, |lines|))
       case Some(g) => Ok(MetaGuidFound(g)))
    case "pathname" =>
      (match ReadFirstLine(e.name, Lines(e.content))
       case Err(err) => Err(err)
       case Ok(l) => Ok(PathnameFound(l)))
    case "preview.png" =>
      (match e.image
       case Decoded(img) => Ok(PreviewFound(Some(img)))
       case NoReader => Ok(PreviewFound(None))
       case Unreadable => Err(PreviewUnreadable(e.name)))
    case _ => Err(UnrecognizedMember(e.name))
  }

  function Apply(s: BuilderState, u: MemberUpdate): BuilderState {
    match u
    case PayloadFound(p, size, mtime) => s.(rawAssetPath := Some(p), assetSize := size, assetModified := Some(mtime))
    case MetaGuidFound(g) => s.(metaGuid := Some(g))
    case PathnameFound(l) => s.(pathnameFirstLine := Some(l))
    case PreviewFound(img) => s.(preview := img)
  }

  /**
   * `addFileFoundInDirectory`: a member of another directory is refused before any
   * field is written; otherwise each of the four member kinds sets its own fields and
   * nothing else, or fails with its own error, and any other name is refused.
   */
  function AddMember(s: BuilderState, directory: string, fileName: string, e: Entry): (r: Result<BuilderState, Error>)
    ensures directory != s.guidDirectory ==> r == Err(DirectoryMismatch(directory, s.guidDirectory))
    ensures r.Ok? ==> r.value.guidDirectory == s.guidDirectory
    ensures directory == s.guidDirectory && fileName == "asset" ==>
      r == Ok(s.(rawAssetPath := Some(e.name), assetSize := e.size, assetModified := Some(e.mtime)))
    ensures directory == s.guidDirectory && fileName == "asset.meta" ==>
      (r.Ok? <==> FindGuid(Lines(e.content)).Some?) &&
      (r.Ok? ==> r == Ok(s.(metaGuid := FindGuid(Lines(e.content))))) &&
      (r.Err? ==> r == Err(GuidNotFound(e.name, |Lines(e.content)|)))
    ensures directory == s.guidDirectory && fileName == "pathname" ==>
      (r.Ok? <==> ReadFirstLine(e.name, Lines(e.content)).Ok?) &&
      (r.Ok? ==> r == Ok(s.(pathnameFirstLine := Some(ReadFirstLine(e.name, Lines(e.content)).value)))) &&
      (r.Err? ==> r.error == ReadFirstLine(e.name, Lines(e.content)).error)
    ensures directory == s.guidDirectory && fileName == "preview.png" ==>
      (r.Ok? <==> !e.image.Unreadable?) &&
      (r.Ok? ==> r == Ok(s.(preview := if e.image.Decoded? then Some(e.image.image) else None))) &&
      (r.Err? ==> r == Err(PreviewUnreadable(e.name)))
    ensures directory == s.guidDirectory && !IsMemberName(fileName) ==> r == Err(UnrecognizedMember(e.name))
  {
    if directory != s.guidDirectory then Err(DirectoryMismatch(directory, s.guidDirectory))
    else
      match ReadMember(fileName, e)
      case Err(err) => Err(err)
      case Ok(u) => Ok(Apply(s, u))
  }

  // ---------------------------------------------------------------------------
  // Properties of one member

  /** The four member names are the only ones accepted. */
  predicate IsMemberName(fileName: string) {
    fileName == "asset" || fileName == "asset.meta" || fileName == "pathname" || fileName == "preview.png"
  }

  lemma UnknownMemberRefused(s: BuilderState, fileName: string, e: Entry)
    requires !IsMemberName(fileName)
    ensures AddMember(s, s.guidDirectory, fileName, e) == Err(UnrecognizedMember(e.name))
  {
  }

  /** `asset` records the raw tar path, the size and the date, and nothing else. */
  lemma PayloadSetsPathSizeAndDate(s: BuilderState, e: Entry)
    ensures AddMember(s, s.guidDirectory, "asset", e)
      == Ok(s.(rawAssetPath := Some(e.name), assetSize := e.size, assetModified := Some(e.mtime)))
  {
  }

  /** `pathname` records its one line as the full path, and nothing else. */
  lemma PathnameSetsOnlyPath(s: BuilderState, e: Entry, l: string)
    requires ReadFirstLine(e.name, Lines(e.content)) == Ok(l)
    ensures AddMember(s, s.guidDirectory, "pathname", e) == Ok(s.(pathnameFirstLine := Some(l)))
  {
  }

  /**
   * `preview.png` records the decoded picture, or null when no image reader claims the
   * data, and nothing else; corrupt image data is an error.
   */
  lemma PreviewSetsOnlyPreview(s: BuilderState, e: Entry)
    ensures e.image.Decoded? ==> AddMember(s, s.guidDirectory, "preview.png", e) == Ok(s.(preview := Some(e.image.image)))
    ensures e.image.NoReader? ==> AddMember(s, s.guidDirectory, "preview.png", e) == Ok(s.(preview := None))
    ensures e.image.Unreadable? ==> AddMember(s, s.guidDirectory, "preview.png", e) == Err(PreviewUnreadable(e.name))
  {
  }

  /** An `asset.meta` without a `guid: ` line is refused, naming its line count. */
  lemma MetaWithoutGuidRefused(s: BuilderState, e: Entry)
    requires FindGuid(Lines(e.content)).None?
    ensures AddMember(s, s.guidDirectory, "asset.meta", e) == Err(GuidNotFound(e.name, |Lines(e.content)|))
  {
  }

  /**
   * An `asset.meta` GUID that differs from the directory name is stored all the same:
   * the mismatch is only reported on the console.
   */
  lemma MetaGuidMismatchTolerated(s: BuilderState, e: Entry, g: string)
    requires FindGuid(Lines(e.content)) == Some(g)
    ensures AddMember(s, s.guidDirectory, "asset.meta", e) == Ok(s.(metaGuid := Some(g)))
  {
  }

  /** Later `guid: ` lines are ignored once one has been found. */
  lemma {:induction false} FindGuidIgnoresLaterLines(lines: seq<string>, more: seq<string>)
    requires FindGuid(lines).Some?
    ensures FindGuid(lines + more) == FindGuid(lines)
  {
    if !StartsWith(lines[0], GuidLinePrefix) {
      assert (lines + more)[1..] == lines[1..] + more;
      FindGuidIgnoresLaterLines(lines[1..], more);
    }
  }

  /**
   * A `pathname` file written as one line, with any line break or none, or followed by
   * a second line `00`, yields exactly that line.
   */
  lemma PathnameFileRoundTrip(tarPath: string, path: string, term: string, extra: string)
    requires NoTerminator(path) && path != "" && IsLineBreak(term)
    requires extra == "" || extra == "00" || extra == "00" + term
    ensures ReadFirstLine(tarPath, Lines(path + term + extra)) == Ok(path)
    ensures ReadFirstLine(tarPath, Lines(path)) == Ok(path)
  {
    LinesOfSingleLine(path);
    if extra == "00" + term {
      LinesRoundTrip([path, "00"], term, "");
      assert [path, "00"][1..] == ["00"];
      assert Joined(["00"], term) == "00" + term;
      assert Joined([path, "00"], term) + "" == path + term + extra;
    } else {
      LinesRoundTrip([path], term, extra);
      assert Joined([path], term) + extra == path + term + extra;
    }
  }

  // ---------------------------------------------------------------------------
  // Several members

  /** The field group a member writes. */
  function KindOf(u: MemberUpdate): nat {
    match u
    case PayloadFound(_, _, _) => 0
    case MetaGuidFound(_) => 1
    case PathnameFound(_) => 2
    case PreviewFound(_) => 3
  }

  /** Members of different kinds write disjoint fields, so their order does not matter. */
  lemma ApplyCommutes(s: BuilderState, u: MemberUpdate, v: MemberUpdate)
    requires KindOf(u) != KindOf(v)
    ensures Apply(Apply(s, u), v) == Apply(Apply(s, v), u)
  {
  }

  /** A repeated member overwrites the earlier one: there is no duplicate check. */
  lemma ApplyOverwrites(s: BuilderState, u: MemberUpdate, v: MemberUpdate)
    requires KindOf(u) == KindOf(v)
    ensures Apply(Apply(s, u), v) == Apply(s, v)
  {
  }

  /** The members of one directory, as (file name, tar entry) pairs in archive order. */
  type Member = (string, Entry)

  /** Adds the members one after the other, stopping at the first that throws. */
  function AddAll(s: BuilderState, ms: seq<Member>): Result<BuilderState, Error>
    decreases |ms|
  {
    if ms == [] then Ok(s)
    else
      match AddMember(s, s.guidDirectory, ms[0].0, ms[0].1)
      case Err(err) => Err(err)
      case Ok(s') => AddAll(s', ms[1..])
  }

  predicate IsReadable(m: Member) {
    ReadMember(m.0, m.1).Ok?
  }

  /** Adding members succeeds exactly when every one of them can be read. */
  lemma {:induction false} AddAllOkIff(s: BuilderState, ms: seq<Member>)
    ensures AddAll(s, ms).Ok? <==> forall i :: 0 <= i < |ms| ==> IsReadable(ms[i])
    ensures AddAll(s, ms).Ok? ==> AddAll(s, ms).value.guidDirectory == s.guidDirectory
    decreases |ms|
  {
    if ms != [] {
      match AddMember(s, s.guidDirectory, ms[0].0, ms[0].1)
      case Err(err) =>
      case Ok(s') =>
        AddAllOkIff(s', ms[1..]);
        assert forall i :: 1 <= i < |ms| ==> ms[i] == ms[1..][i - 1];
    }
  }

  lemma AddMembersSwap(s: BuilderState, m: Member, n: Member)
    requires m.0 != n.0 && IsReadable(m) && IsReadable(n)
    ensures AddAll(s, [m, n]) == AddAll(s, [n, m])
  {
    var u, v := ReadMember(m.0, m.1).value, ReadMember(n.0, n.1).value;
    assert KindOf(u) != KindOf(v);
    ApplyCommutes(s, u, v);
    assert [m, n][1..] == [n] && [n, m][1..] == [m];
  }

  lemma {:induction false} AddAllAppend(s: BuilderState, ms: seq<Member>, ns: seq<Member>)
    ensures AddAll(s, ms + ns) == (match AddAll(s, ms) case Ok(t) => AddAll(t, ns) case Err(err) => Err(err))
    decreases |ms|
  {
    if ms != [] {
      assert (ms + ns)[0] == ms[0] && (ms + ns)[1..] == ms[1..] + ns;
      match AddMember(s, s.guidDirectory, ms[0].0, ms[0].1)
      case Err(err) =>
      case Ok(s') => AddAllAppend(s', ms[1..], ns);
    } else {
      assert ms + ns == ns;
    }
  }

  /**
   * Two neighbouring members with different names can be read in either order with the
   * same final fields: the result does not depend on the order of distinct members.
   */
  lemma AddAllSwapNeighbours(s: BuilderState, pre: seq<Member>, m: Member, n: Member, post: seq<Member>)
    requires m.0 != n.0 && IsReadable(m) && IsReadable(n)
    ensures AddAll(s, pre + [m, n] + post) == AddAll(s, pre + [n, m] + post)
  {
    AddAllAppend(s, pre + [m, n], post);
    AddAllAppend(s, pre + [n, m], post);
    AddAllAppend(s, pre, [m, n]);
    AddAllAppend(s, pre, [n, m]);
    match AddAll(s, pre)
    case Err(err) =>
    case Ok(t) =>
      AddAllOkIff(t, [m, n]);
      AddMembersSwap(t, m, n);
  }

  predicate NoneNamed(ms: seq<Member>, fileName: string) {
    forall i :: 0 <= i < |ms| ==> ms[i].0 != fileName
  }

  /**
   * Until an `asset` member is added the size stays -1 and the raw asset path null;
   * once one is added the raw path is that member's tar name.
   */
  lemma {:induction false} PayloadOnlyFromAsset(s: BuilderState, ms: seq<Member>)
    requires AddAll(s, ms).Ok?
    ensures NoneNamed(ms, "asset") ==>
      AddAll(s, ms).value.assetSize == s.assetSize && AddAll(s, ms).value.rawAssetPath == s.rawAssetPath
    ensures !NoneNamed(ms, "asset") ==>
      exists i :: 0 <= i < |ms| && ms[i].0 == "asset" && AddAll(s, ms).value.rawAssetPath == Some(ms[i].1.name)
    decreases |ms|
  {
    if ms != [] {
      var s' := AddMember(s, s.guidDirectory, ms[0].0, ms[0].1).value;
      PayloadOnlyFromAsset(s', ms[1..]);
      assert forall i :: 1 <= i < |ms| ==> ms[i] == ms[1..][i - 1];
      if !NoneNamed(ms, "asset") && NoneNamed(ms[1..], "asset") {
        assert ms[0].0 == "asset";
      }
    }
  }

  /** A directory that never receives an `asset` member keeps size -1 and no payload path. */
  lemma DirectoryLikeUntilPayload(dir: string, ms: seq<Member>)
    requires AddAll(Fresh(dir), ms).Ok? && NoneNamed(ms, "asset")
    ensures AddAll(Fresh(dir), ms).value.assetSize == -1
    ensures AddAll(Fresh(dir), ms).value.rawAssetPath.None?
  {
    PayloadOnlyFromAsset(Fresh(dir), ms);
  }

  /** The payload fields are set together: no raw asset path means size -1 and no date. */
  predicate PayloadConsistent(s: BuilderState) {
    s.rawAssetPath.None? ==> s.assetSize == -1 && s.assetModified.None?
  }

  lemma {:induction false} AddAllKeepsPayloadConsistent(s: BuilderState, ms: seq<Member>)
    requires PayloadConsistent(s) && AddAll(s, ms).Ok?
    ensures PayloadConsistent(AddAll(s, ms).value)
    decreases |ms|
  {
    if ms != [] {
      AddAllKeepsPayloadConsistent(AddMember(s, s.guidDirectory, ms[0].0, ms[0].1).value, ms[1..]);
    }
  }

  // ---------------------------------------------------------------------------
  // The builder object

  class UnityAssetBuilder {
    /** The directory name, which is also the GUID of the asset. */
    const guidBaseDirectory: string
    var assetMetaGuid: Option<string>
    var pathnameFirstLine: Option<string>
    var rawPathToAssetFile: Option<string>
    var assetFileSize: int
    var assetDateModified: Option<int>
    var preview: Option<Image>

    function State(): BuilderState
      reads this
    {
      BuilderState(guidBaseDirectory, assetMetaGuid, pathnameFirstLine, rawPathToAssetFile,
                   assetFileSize, assetDateModified, preview)
    }

    /** `new UnityAssetBuilder(guidBaseDirectory)`. */
    constructor (guidBaseDirectory: string)
      ensures State() == Fresh(guidBaseDirectory)
    {
      this.guidBaseDirectory := guidBaseDirectory;
      assetMetaGuid := None;
      pathnameFirstLine := None;
      rawPathToAssetFile := None;
      assetFileSize := -1;
      assetDateModified := None;
      preview := None;
    }

    /** Sanity check that only files that belong in this directory are added. */
    method AssertGuidMatchesDirectoryName(guid: string) returns (r: Outcome<Error>)
      ensures r.Pass? <==> guid == guidBaseDirectory
      ensures r.Fail? ==> r.error == DirectoryMismatch(guid, guidBaseDirectory)
    {
      if guid != guidBaseDirectory {
        return Fail(DirectoryMismatch(guid, guidBaseDirectory));
      }
      return Pass;
    }

    /**
     * Records one member of the directory. On failure no field has changed, on
     * success the fields are those `AddMember` gives.
     */
    method AddFileFoundInDirectory(directory: string, fileName: string, e: Entry) returns (r: Outcome<Error>)
      modifies this
      ensures match AddMember(old(State()), directory, fileName, e)
              case Ok(s) => r == Pass && State() == s
              case Err(err) => r == Fail(err) && State() == old(State())
    {
      r := AssertGuidMatchesDirectoryName(directory);
      if r.Fail? {
        return;
      }
      match fileName
      case "asset" =>
        assetFileSize := e.size;
        rawPathToAssetFile := Some(e.name);
        assetDateModified := Some(e.mtime);
      case "asset.meta" =>
        var guid := FindGuid(Lines(e.content));
        if guid.None? {
          return Fail(GuidNotFound(e.name, |Lines(e.content)|));
        }
        assetMetaGuid := guid;
        // A GUID that differs from the directory name is only reported.
      case "pathname" =>
        var line := ReadFirstLine(e.name, Lines(e.content));
        if line.Err? {
          return Fail(line.error);
        }
        pathnameFirstLine := Some(line.value);
      case "preview.png" =>
        match e.image {
          case Decoded(img) => preview := Some(img);
          case NoReader => preview := None;
          case Unreadable => return Fail(PreviewUnreadable(e.name));
        }
      case _ =>
        return Fail(UnrecognizedMember(e.name));
    }
  }

  /**
   * `new UnityAssetBuilder(guidDirectory, fileName, tarEntry, tarInput)`: a builder for
   * the directory, created on sight of one of its members.
   */
  method NewBuilderWithMember(guidDirectory: string, fileName: string, e: Entry)
    returns (r: Result<UnityAssetBuilder, Error>)
    ensures match AddMember(Fresh(guidDirectory), guidDirectory, fileName, e)
            case Ok(s) => r.Ok? && fresh(r.value) && r.value.State() == s
            case Err(err) => r == Err(err)
  {
    var b := new UnityAssetBuilder(guidDirectory);
    var outcome := b.AddFileFoundInDirectory(guidDirectory, fileName, e);
    if outcome.Fail? {
      return Err(outcome.error);
    }
    return Ok(b);
  }
}
