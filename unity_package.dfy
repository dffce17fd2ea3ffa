/**
 * Indexing a package: one forward pass over the archive entries that files every
 * member under the directory it belongs to, creating each directory's builder on
 * first sight, and yields one asset per directory in ascending name order.
 *
 * An archive may put everything under a root directory `.`; once that entry is seen,
 * the first element of every later name is dropped before the entry is classified.
 *
 * `Run` is the pass as a fold over the entries; the method `Open` performs it on
 * builder objects and a key list standing for the `TreeMap`, and is proved to agree
 * with it.
 */
module UnityPackage {
  import opened Wrappers
  import opened JavaString
  import opened PathNames
  import opened Sorting
  import opened TarArchive
  import opened UnityAssetBuilder
  import opened UnityAsset
  import Stream = UnityArchiveInputStream

  const RootIcon := ".icon.png"

  /** Where one entry goes. */
  datatype Route =
    | SetDotRoot                                  // the root directory `.`
    | Ignore                                      // the package icon at the root
    | DirectoryRoute(key: string)                 // a GUID directory
    | MemberRoute(key: string, fileName: string)  // a file of the directory `key`

  /** The root directory `.` of a dot-rooted archive. */
  predicate IsDotRootEntry(e: Entry) {
    e.isDirectory && Segments(e.name) == ["."]
  }

  /** The name elements left once the dot root, if there is one, is dropped. */
  function Stripped(hasDotRoot: bool, segs: seq<string>): seq<string> {
    if hasDotRoot && segs != [] then segs[1..] else segs
  }

  /** Classifies an entry by the elements of its name, as the body of the indexing loop does. */
  function Classify(hasDotRoot: bool, e: Entry): (r: Result<Route, Error>)
    ensures r == Ok(SetDotRoot) <==> IsDotRootEntry(e)
    ensures r.Ok? && r.value.DirectoryRoute? ==> e.isDirectory && Stripped(hasDotRoot, Segments(e.name)) == [r.value.key]
    ensures r.Ok? && r.value.MemberRoute? ==>
      !e.isDirectory && Stripped(hasDotRoot, Segments(e.name)) == Segments(r.value.key) + [r.value.fileName]
    ensures r.Ok? && r.value.Ignore? ==> !e.isDirectory && Stripped(hasDotRoot, Segments(e.name)) == [RootIcon]
  {
    var segs := Segments(e.name);
    SegmentsValid(e.name);
    if segs == [] then Err(EmptyName(e.name))
    else if |segs| == 1 && e.isDirectory && segs[0] == "." then Ok(SetDotRoot)
    else if |segs| == 1 && !e.isDirectory && segs[0] != RootIcon then Err(RootPath(e.name))
    else if hasDotRoot && |segs| < 2 then Err(BadSubpath(e.name))
    else
      var path := if hasDotRoot then segs[1..] else segs;
      assert AllValid(path);
      if e.isDirectory then
        if |path| > 1 then Err(NestedDirectory(e.name)) else Ok(DirectoryRoute(path[0]))
      else if |path| == 1 then
        if path[0] == RootIcon then Ok(Ignore) else Err(NestedDirectory(e.name))
      else
        var parent := path[..|path| - 1];
        SegmentsJoin(parent);
        assert path == parent + [path[|path| - 1]];
        Ok(MemberRoute(Join(parent), path[|path| - 1]))
  }

  /** The indexing state: the strip flag and the `TreeMap` of builders, its keys in order. */
  datatype IndexState = IndexState(hasDotRoot: bool, keys: seq<string>, builders: map<string, BuilderState>)

  const Init := IndexState(false, [], map[])

  /** The keys are sorted and are the builders' keys, and each builder belongs to its key. */
  ghost predicate WF(st: IndexState) {
    StrictlySorted(st.keys) &&
    (forall k :: k in st.builders <==> k in st.keys) &&
    (forall k :: k in st.builders ==> st.builders[k].guidDirectory == k)
  }

  /** `rootGuidDirectories.put(key, b)`. */
  function Put(st: IndexState, key: string, b: BuilderState): (r: IndexState)
    requires WF(st) && b.guidDirectory == key
    ensures WF(r) && r.builders == st.builders[key := b] && r.hasDotRoot == st.hasDotRoot
  {
    if key in st.builders then st.(builders := st.builders[key := b])
    else st.(keys := InsertKey(st.keys, key), builders := st.builders[key := b])
  }

  /** What the indexing loop does with an entry whose classification is `route`. */
  function StepRoute(st: IndexState, route: Result<Route, Error>, e: Entry): (r: Result<IndexState, Error>)
    requires WF(st)
    ensures r.Ok? ==> WF(r.value)
  {
    match route
    case Err(err) => Err(err)
    case Ok(SetDotRoot) => Ok(st.(hasDotRoot := true))
    case Ok(Ignore) => Ok(st)
    case Ok(DirectoryRoute(key)) =>
      if key in st.builders then
        var b := st.builders[key];
        if b.guidDirectory == key then Ok(st) else Err(DirectoryMismatch(key, b.guidDirectory))
      else Ok(Put(st, key, Fresh(key)))
    case Ok(MemberRoute(key, fileName)) =>
      var b := if key in st.builders then st.builders[key] else Fresh(key);
      match AddMember(b, key, fileName, e)
      case Err(err) => Err(err)
      case Ok(b') => Ok(Put(st, key, b'))
  }

  /** One iteration of the indexing loop. */
  function Step(st: IndexState, e: Entry): (r: Result<IndexState, Error>)
    requires WF(st)
    ensures r.Ok? ==> WF(r.value)
  {
    StepRoute(st, Classify(st.hasDotRoot, e), e)
  }

  /** The indexing loop over the entries, stopping at the first that throws. */
  function Run(es: seq<Entry>): (r: Result<IndexState, Error>)
    ensures r.Ok? ==> WF(r.value)
    decreases |es|
  {
    if es == [] then Ok(Init)
    else
      match Run(es[..|es| - 1])
      case Err(err) => Err(err)
      case Ok(st) => Step(st, es[|es| - 1])
  }

  /** One asset per key, in key order. */
  function AssetsOf(st: IndexState): (r: seq<UnityAsset>)
    requires WF(st)
    ensures |r| == |st.keys|
    ensures forall i, j :: 0 <= i < j < |r| ==> CompareTo(r[i].DirectoryGuid(), r[j].DirectoryGuid()) < 0
    ensures forall k :: k in st.builders <==> exists i :: 0 <= i < |r| && r[i].DirectoryGuid() == k
    ensures forall i :: 0 <= i < |r| ==> r[i].source == st.builders[r[i].DirectoryGuid()]
  {
    var r := seq(|st.keys|, i requires 0 <= i < |st.keys| => UnityAsset(st.builders[st.keys[i]]));
    assert forall i :: 0 <= i < |r| ==> r[i].DirectoryGuid() == st.keys[i];
    assert forall k :: k in st.builders ==> exists i :: 0 <= i < |r| && r[i].DirectoryGuid() == k by {
      forall k | k in st.builders ensures exists i :: 0 <= i < |r| && r[i].DirectoryGuid() == k {
        var i :| 0 <= i < |st.keys| && st.keys[i] == k;
        assert r[i].DirectoryGuid() == k;
      }
    }
    r
  }

  /** The asset list of the package, or the exception that aborts indexing. */
  function Index(es: seq<Entry>): Result<seq<UnityAsset>, Error> {
    match Run(es)
    case Err(err) => Err(err)
    case Ok(st) => Ok(AssetsOf(st))
  }

  // ---------------------------------------------------------------------------
  // What each entry does

  /** Whether the root directory `.` occurs among the entries. */
  ghost predicate HasDotRoot(es: seq<Entry>) {
    exists j :: 0 <= j < |es| && IsDotRootEntry(es[j])
  }

  /** The route of entry `i`: the strip flag is set by any earlier dot root. */
  ghost function RouteAt(es: seq<Entry>, i: nat): Result<Route, Error>
    requires i < |es|
  {
    Classify(HasDotRoot(es[..i]), es[i])
  }

  function RouteKey(r: Route): Option<string> {
    match r
    case DirectoryRoute(k) => Some(k)
    case MemberRoute(k, _) => Some(k)
    case _ => None
  }

  /** Some entry is filed under `k`, as a directory or as one of its members. */
  ghost predicate KeyRouted(es: seq<Entry>, k: string) {
    exists i :: 0 <= i < |es| && RouteAt(es, i).Ok? && RouteKey(RouteAt(es, i).value) == Some(k)
  }

  /** The member an entry with route `r` adds to the directory `k`, if any. */
  function NewMembers(r: Result<Route, Error>, e: Entry, k: string): seq<Member> {
    match r
    case Ok(MemberRoute(key, fileName)) => if key == k then [(fileName, e)] else []
    case _ => []
  }

  /** The members filed under `k`, in archive order. */
  ghost function MembersOf(es: seq<Entry>, k: string): seq<Member>
    decreases |es|
  {
    if es == [] then []
    else
      var n := |es| - 1;
      MembersOf(es[..n], k) + NewMembers(RouteAt(es, n), es[n], k)
  }

  /** An entry with route `r` classifies, and if it is a member it can be read. */
  predicate Accepted(r: Result<Route, Error>, e: Entry) {
    r.Ok? && (r.value.MemberRoute? ==> IsReadable((r.value.fileName, e)))
  }

  /** Entry `i` is accepted. */
  ghost predicate EntryAccepted(es: seq<Entry>, i: nat)
    requires i < |es|
  {
    Accepted(RouteAt(es, i), es[i])
  }

  lemma RouteAtPrefix(es: seq<Entry>, n: nat, i: nat)
    requires i < n <= |es|
    ensures RouteAt(es[..n], i) == RouteAt(es, i)
  {
    assert es[..n][..i] == es[..i];
  }

  lemma HasDotRootSnoc(es: seq<Entry>)
    requires es != []
    ensures HasDotRoot(es) <==> HasDotRoot(es[..|es| - 1]) || IsDotRootEntry(es[|es| - 1])
  {
    var n := |es| - 1;
    if HasDotRoot(es) {
      var j :| 0 <= j < |es| && IsDotRootEntry(es[j]);
      if j < n {
        assert es[..n][j] == es[j];
      }
    }
    if HasDotRoot(es[..n]) {
      var j :| 0 <= j < n && IsDotRootEntry(es[..n][j]);
      assert es[j] == es[..n][j];
    }
  }

  lemma KeyRoutedSnoc(es: seq<Entry>, k: string)
    requires es != []
    ensures var n := |es| - 1;
      KeyRouted(es, k) <==>
        KeyRouted(es[..n], k) || (RouteAt(es, n).Ok? && RouteKey(RouteAt(es, n).value) == Some(k))
  {
    var n := |es| - 1;
    if KeyRouted(es, k) {
      var i :| 0 <= i < |es| && RouteAt(es, i).Ok? && RouteKey(RouteAt(es, i).value) == Some(k);
      if i < n {
        RouteAtPrefix(es, n, i);
        assert KeyRouted(es[..n], k);
      }
    }
    if KeyRouted(es[..n], k) {
      var i :| 0 <= i < n && RouteAt(es[..n], i).Ok? && RouteKey(RouteAt(es[..n], i).value) == Some(k);
      RouteAtPrefix(es, n, i);
      assert KeyRouted(es, k);
    }
    if RouteAt(es, n).Ok? && RouteKey(RouteAt(es, n).value) == Some(k) {
      assert KeyRouted(es, k);
    }
  }

  lemma {:induction false} MembersOfUnrouted(es: seq<Entry>, k: string)
    requires !KeyRouted(es, k)
    ensures MembersOf(es, k) == []
    decreases |es|
  {
    if es != [] {
      KeyRoutedSnoc(es, k);
      MembersOfUnrouted(es[..|es| - 1], k);
    }
  }

  /** What one step does to the directory `k`: it gains at most the entry's member. */
  lemma StepBuilder(st: IndexState, e: Entry, k: string, ms: seq<Member>)
    requires WF(st) && Step(st, e).Ok?
    requires k in st.builders ==> AddAll(Fresh(k), ms) == Ok(st.builders[k])
    requires k !in st.builders ==> ms == []
    ensures var r := Classify(st.hasDotRoot, e);
      k in Step(st, e).value.builders <==> k in st.builders || (r.Ok? && RouteKey(r.value) == Some(k))
    ensures k in Step(st, e).value.builders ==>
      AddAll(Fresh(k), ms + NewMembers(Classify(st.hasDotRoot, e), e, k)) == Ok(Step(st, e).value.builders[k])
  {
    var r := Classify(st.hasDotRoot, e);
    if r.Ok? && r.value.MemberRoute? && r.value.key == k {
      StepMemberOfKey(st, e, k, ms);
    } else {
      assert ms + NewMembers(r, e, k) == ms;
    }
  }

  /** A member filed under `k` is added to the builder `k` already had, or to a fresh one. */
  lemma StepMemberOfKey(st: IndexState, e: Entry, k: string, ms: seq<Member>)
    requires WF(st) && Step(st, e).Ok?
    requires k in st.builders ==> AddAll(Fresh(k), ms) == Ok(st.builders[k])
    requires k !in st.builders ==> ms == []
    requires var r := Classify(st.hasDotRoot, e); r.Ok? && r.value.MemberRoute? && r.value.key == k
    ensures k in Step(st, e).value.builders
    ensures AddAll(Fresh(k), ms + NewMembers(Classify(st.hasDotRoot, e), e, k)) == Ok(Step(st, e).value.builders[k])
  {
    var r := Classify(st.hasDotRoot, e);
    var st' := Step(st, e).value;
    var fileName := r.value.fileName;
    var b := if k in st.builders then st.builders[k] else Fresh(k);
    AddAllAppend(Fresh(k), ms, [(fileName, e)]);
    assert AddAll(Fresh(k), ms) == Ok(b);
    var b' := AddMember(b, k, fileName, e).value;
    assert st'.builders[k] == b';
    assert AddAll(b, [(fileName, e)]) == Ok(b');
    assert NewMembers(r, e, k) == [(fileName, e)];
  }

  /** The strip flag, the keys and the builders after `es`. */
  ghost predicate Characterized(es: seq<Entry>, st: IndexState) {
    st.hasDotRoot == HasDotRoot(es) &&
    (forall k :: k in st.builders <==> KeyRouted(es, k)) &&
    (forall k :: k in st.builders ==> AddAll(Fresh(k), MembersOf(es, k)) == Ok(st.builders[k]))
  }

  /**
   * The outcome of indexing, entry by entry: the strip flag says whether a dot root was
   * seen, there is a builder for exactly the keys some entry is filed under, and each
   * builder holds what adding that key's members, in archive order, to a fresh builder
   * gives, wherever in the archive the directory entry itself came.
   */
  lemma {:induction false} RunCharacterized(es: seq<Entry>)
    requires Run(es).Ok?
    ensures Characterized(es, Run(es).value)
    decreases |es|
  {
    if es != [] {
      var n := |es| - 1;
      var pre := es[..n];
      RunCharacterized(pre);
      var st := Run(pre).value;
      assert Run(es) == Step(st, es[n]);
      HasDotRootSnoc(es);
      assert RouteAt(es, n) == Classify(st.hasDotRoot, es[n]);
      forall k ensures k in Run(es).value.builders <==> KeyRouted(es, k)
        ensures k in Run(es).value.builders ==> AddAll(Fresh(k), MembersOf(es, k)) == Ok(Run(es).value.builders[k])
      {
        KeyRoutedSnoc(es, k);
        if k !in st.builders {
          MembersOfUnrouted(pre, k);
        }
        StepBuilder(st, es[n], k, MembersOf(pre, k));
      }
    }
  }

  lemma StepOkIff(st: IndexState, e: Entry)
    requires WF(st)
    ensures Step(st, e).Ok? <==> Accepted(Classify(st.hasDotRoot, e), e)
  {
  }

  /** Every entry of `es`, routed and read against the entries before it, is accepted. */
  ghost predicate AllAccepted(es: seq<Entry>) {
    forall i :: 0 <= i < |es| ==> EntryAccepted(es, i)
  }

  lemma EntryAcceptedPrefix(es: seq<Entry>, n: nat)
    requires n <= |es|
    ensures forall i :: 0 <= i < n ==> EntryAccepted(es[..n], i) == EntryAccepted(es, i)
  {
    forall i | 0 <= i < n ensures EntryAccepted(es[..n], i) == EntryAccepted(es, i) {
      RouteAtPrefix(es, n, i);
    }
  }

  /** All entries are accepted when all but the last are and the last is. */
  lemma AllAcceptedSnoc(es: seq<Entry>)
    requires es != []
    ensures AllAccepted(es) <==> AllAccepted(es[..|es| - 1]) && EntryAccepted(es, |es| - 1)
  {
    EntryAcceptedPrefix(es, |es| - 1);
  }

  /** After a successful prefix, the last entry decides. */
  lemma RunOkIffLast(es: seq<Entry>)
    requires es != [] && Run(es[..|es| - 1]).Ok?
    ensures Run(es).Ok? <==> EntryAccepted(es, |es| - 1)
  {
    var n := |es| - 1;
    RunCharacterized(es[..n]);
    var st := Run(es[..n]).value;
    assert Run(es) == Step(st, es[n]);
    assert RouteAt(es, n) == Classify(st.hasDotRoot, es[n]);
    StepOkIff(st, es[n]);
  }

  /** Indexing succeeds exactly when every entry classifies and every member can be read. */
  lemma {:induction false} RunOkIff(es: seq<Entry>)
    ensures Run(es).Ok? <==> AllAccepted(es)
    decreases |es|
  {
    if es != [] {
      var n := |es| - 1;
      RunOkIff(es[..n]);
      AllAcceptedSnoc(es);
      if Run(es[..n]).Ok? {
        RunOkIffLast(es);
      } else {
        RunErrPersists(es, n);
      }
    }
  }

  /**
   * The assets come one per key, in strictly ascending key order, and each is what its
   * directory's members give.
   */
  lemma IndexAssets(es: seq<Entry>)
    requires Index(es).Ok?
    ensures var assets := Index(es).value;
      (forall i, j :: 0 <= i < j < |assets| ==> CompareTo(assets[i].DirectoryGuid(), assets[j].DirectoryGuid()) < 0) &&
      (forall k :: KeyRouted(es, k) <==> exists i :: 0 <= i < |assets| && assets[i].DirectoryGuid() == k) &&
      (forall i :: 0 <= i < |assets| ==>
        AddAll(Fresh(assets[i].DirectoryGuid()), MembersOf(es, assets[i].DirectoryGuid())) == Ok(assets[i].source))
  {
    RunCharacterized(es);
    var st := Run(es).value;
    assert Index(es).value == AssetsOf(st);
  }

  /** A later directory entry for a known key only checks the name and changes nothing. */
  lemma RepeatedDirectoryChangesNothing(st: IndexState, e: Entry)
    requires WF(st)
    requires Classify(st.hasDotRoot, e).Ok? && Classify(st.hasDotRoot, e).value.DirectoryRoute?
    requires Classify(st.hasDotRoot, e).value.key in st.builders
    ensures Step(st, e) == Ok(st)
  {
  }

  /** The root directory `.` produces no asset; it only sets the strip flag. */
  lemma DotRootOnlySetsFlag(st: IndexState, e: Entry)
    requires WF(st) && IsDotRootEntry(e)
    ensures Step(st, e) == Ok(st.(hasDotRoot := true))
  {
  }

  /** A file with one name element is refused unless it is the package icon. */
  lemma RootFileRefused(e: Entry)
    requires !e.isDirectory && |Segments(e.name)| == 1 && Segments(e.name)[0] != RootIcon
    ensures Classify(false, e) == Err(RootPath(e.name))
    ensures Classify(true, e) == Err(RootPath(e.name))
  {
  }

  /** The package icon at the root is skipped; under a dot root it is `./.icon.png`. */
  lemma RootIconIgnored(e: Entry)
    requires !e.isDirectory
    ensures Segments(e.name) == [RootIcon] ==> Classify(false, e) == Ok(Ignore)
    ensures Segments(e.name) == [".", RootIcon] ==> Classify(true, e) == Ok(Ignore)
  {
  }

  /** A directory entry with a parent is refused. */
  lemma NestedDirectoryRefused(hasDotRoot: bool, e: Entry)
    requires e.isDirectory && |Stripped(hasDotRoot, Segments(e.name))| > 1
    ensures Classify(hasDotRoot, e) == Err(NestedDirectory(e.name))
  {
  }

  /**
   * A file with at least two name elements once the dot root is stripped, such as
   * `g/sub/asset`, is accepted and filed under its whole parent (`g/sub`) with its last
   * element as member name.
   */
  lemma DeepFileKeyedByParent(hasDotRoot: bool, e: Entry)
    requires !e.isDirectory && |Stripped(hasDotRoot, Segments(e.name))| >= 2
    ensures var path := Stripped(hasDotRoot, Segments(e.name));
      Classify(hasDotRoot, e) == Ok(MemberRoute(Join(path[..|path| - 1]), path[|path| - 1]))
  {
  }

  // ---------------------------------------------------------------------------
  // A dot-rooted archive indexes like the same archive without the dot root

  /** The entry as it appears under a root directory `.`. */
  function Prefixed(e: Entry): Entry {
    e.(name := "./" + e.name)
  }

  /** The same entries moved under a root directory `.`, which comes first. */
  function DotRooted(dot: Entry, es: seq<Entry>): seq<Entry> {
    [dot] + seq(|es|, i requires 0 <= i < |es| => Prefixed(es[i]))
  }

  /** The raw payload path as it reads under a root directory `.`. */
  function Reroot(s: BuilderState): BuilderState {
    s.(rawAssetPath := if s.rawAssetPath.Some? then Some("./" + s.rawAssetPath.value) else None)
  }

  function RerootMap(m: map<string, BuilderState>): map<string, BuilderState> {
    map k | k in m :: Reroot(m[k])
  }

  function RerootState(st: IndexState): (r: IndexState)
    ensures WF(st) ==> WF(r)
    ensures r.hasDotRoot && r.keys == st.keys && r.builders.Keys == st.builders.Keys
    ensures forall k :: k in st.builders ==> r.builders[k] == Reroot(st.builders[k])
  {
    IndexState(true, st.keys, RerootMap(st.builders))
  }

  /** No entry is itself a dot root, and every name has at least one element. */
  predicate PlainEntries(es: seq<Entry>) {
    forall i :: 0 <= i < |es| ==> !IsDotRootEntry(es[i]) && Segments(es[i].name) != []
  }

  lemma SegmentsPrefixed(e: Entry)
    ensures Segments(Prefixed(e).name) == ["."] + Segments(e.name)
  {
    SegmentsConcat(".", e.name);
    SegmentsOfName(".");
    assert "./" + e.name == "." + "/" + e.name;
  }

  lemma ClassifyPrefixed(e: Entry)
    requires !IsDotRootEntry(e) && Segments(e.name) != []
    ensures Classify(true, Prefixed(e)).Ok? <==> Classify(false, e).Ok?
    ensures Classify(false, e).Ok? ==> Classify(true, Prefixed(e)) == Classify(false, e)
  {
    SegmentsPrefixed(e);
    assert Stripped(true, Segments(Prefixed(e).name)) == Segments(e.name);
  }

  lemma AddMemberPrefixed(s: BuilderState, key: string, fileName: string, e: Entry)
    ensures AddMember(Reroot(s), key, fileName, Prefixed(e)).Ok? <==> AddMember(s, key, fileName, e).Ok?
    ensures AddMember(s, key, fileName, e).Ok? ==>
      AddMember(Reroot(s), key, fileName, Prefixed(e)).value == Reroot(AddMember(s, key, fileName, e).value)
  {
  }

  lemma RerootUpdate(m: map<string, BuilderState>, key: string, b: BuilderState)
    ensures RerootMap(m[key := b]) == RerootMap(m)[key := Reroot(b)]
  {
    var l := RerootMap(m[key := b]);
    var r := RerootMap(m)[key := Reroot(b)];
    assert l.Keys == r.Keys;
    forall k | k in l ensures l[k] == r[k] {
    }
  }

  lemma RerootPut(st: IndexState, key: string, b: BuilderState)
    requires WF(st) && b.guidDirectory == key
    ensures RerootState(Put(st, key, b)) == Put(RerootState(st), key, Reroot(b))
  {
    RerootUpdate(st.builders, key, b);
  }

  lemma StepPrefixedMember(st: IndexState, e: Entry, key: string, fileName: string)
    requires WF(st) && !st.hasDotRoot
    requires Classify(false, e) == Ok(MemberRoute(key, fileName))
    requires Classify(true, Prefixed(e)) == Classify(false, e)
    ensures Step(RerootState(st), Prefixed(e)).Ok? <==> Step(st, e).Ok?
    ensures Step(st, e).Ok? ==> Step(RerootState(st), Prefixed(e)).value == RerootState(Step(st, e).value)
  {
    var rst := RerootState(st);
    var b := if key in st.builders then st.builders[key] else Fresh(key);
    var rb := if key in rst.builders then rst.builders[key] else Fresh(key);
    assert rb == Reroot(b);
    AddMemberPrefixed(b, key, fileName, e);
    if AddMember(b, key, fileName, e).Ok? {
      var b' := AddMember(b, key, fileName, e).value;
      assert Step(st, e) == Ok(Put(st, key, b'));
      assert Step(rst, Prefixed(e)) == Ok(Put(rst, key, Reroot(b')));
      RerootPut(st, key, b');
    }
  }

  lemma StepPrefixedDirectory(st: IndexState, e: Entry, key: string)
    requires WF(st) && !st.hasDotRoot
    requires Classify(false, e) == Ok(DirectoryRoute(key))
    requires Classify(true, Prefixed(e)) == Classify(false, e)
    ensures Step(RerootState(st), Prefixed(e)).Ok? <==> Step(st, e).Ok?
    ensures Step(st, e).Ok? ==> Step(RerootState(st), Prefixed(e)).value == RerootState(Step(st, e).value)
  {
    if key !in st.builders {
      assert Step(st, e) == Ok(Put(st, key, Fresh(key)));
      RerootPut(st, key, Fresh(key));
    }
  }

  lemma StepPrefixed(st: IndexState, e: Entry)
    requires WF(st) && !st.hasDotRoot && !IsDotRootEntry(e) && Segments(e.name) != []
    ensures WF(RerootState(st))
    ensures Step(RerootState(st), Prefixed(e)).Ok? <==> Step(st, e).Ok?
    ensures Step(st, e).Ok? ==> Step(RerootState(st), Prefixed(e)).value == RerootState(Step(st, e).value)
  {
    ClassifyPrefixed(e);
    var r := Classify(false, e);
    if r.Ok? {
      match r.value
      case SetDotRoot =>
      case Ignore =>
          case DirectoryRoute(key) => StepPrefixedDirectory(st, e, key);
      case MemberRoute(key, fileName) => StepPrefixedMember(st, e, key, fileName);
    }
  }

  lemma DotRootedPrefix(dot: Entry, es: seq<Entry>)
    requires es != []
    ensures var d := DotRooted(dot, es);
      d[..|d| - 1] == DotRooted(dot, es[..|es| - 1]) && d[|d| - 1] == Prefixed(es[|es| - 1])
  {
  }

  /**
   * Placing the whole archive under a root directory `.` changes nothing but the raw
   * payload paths, which gain the prefix `./`: the same entries are accepted, with the
   * same keys and the same builders.
   */
  lemma {:induction false} DotRootStripped(dot: Entry, es: seq<Entry>)
    requires IsDotRootEntry(dot) && PlainEntries(es)
    ensures Run(DotRooted(dot, es)).Ok? <==> Run(es).Ok?
    ensures Run(es).Ok? ==> Run(DotRooted(dot, es)).value == RerootState(Run(es).value)
    decreases |es|
  {
    var d := DotRooted(dot, es);
    if es == [] {
      assert d == [dot];
      assert d[..0] == [];
      assert RerootState(Init) == IndexState(true, [], map[]);
    } else {
      var n := |es| - 1;
      DotRootedPrefix(dot, es);
      assert PlainEntries(es[..n]);
      DotRootStripped(dot, es[..n]);
      if Run(es[..n]).Ok? {
        RunCharacterized(es[..n]);
        assert !HasDotRoot(es[..n]);
        StepPrefixed(Run(es[..n]).value, es[n]);
      }
    }
  }

  // ---------------------------------------------------------------------------
  // The package object

  /**
   * An opened package: the archive, which every extraction reads again from the start,
   * and the asset list built while opening it.
   */
  datatype UnityPackage = UnityPackage(entries: seq<Entry>, unityAssetList: seq<UnityAsset>)

  /** Once an entry throws, the rest of the archive does not matter. */
  lemma {:induction false} RunErrPersists(es: seq<Entry>, n: nat)
    requires n <= |es| && Run(es[..n]).Err?
    ensures Run(es) == Run(es[..n])
    decreases |es| - n
  {
    if n < |es| {
      assert es[..n + 1][..n] == es[..n];
      assert Run(es[..n + 1]) == Run(es[..n]);
      RunErrPersists(es, n + 1);
    } else {
      assert es[..n] == es;
    }
  }

  /** The builder objects hold the builders of `st`, one object per key. */
  ghost predicate Tracks(bs: map<string, UnityAssetBuilder>, st: IndexState)
    reads set k | k in bs :: bs[k]
  {
    WF(st) && bs.Keys == st.builders.Keys && (forall k :: k in bs ==> bs[k].State() == st.builders[k])
  }

  /** A directory entry: the existing builder checks the name, or a new builder is put in the map. */
  method FileDirectory(bs: map<string, UnityAssetBuilder>, keys: seq<string>, ghost st: IndexState, guidDirectory: string)
    returns (r: Result<(map<string, UnityAssetBuilder>, seq<string>), Error>, ghost st': IndexState)
    requires Tracks(bs, st) && keys == st.keys
    ensures guidDirectory in st.builders ==>
      var b := st.builders[guidDirectory];
      (r.Ok? <==> b.guidDirectory == guidDirectory) && st' == st &&
      (r.Ok? ==> r.value == (bs, keys)) && (r.Err? ==> r.error == DirectoryMismatch(guidDirectory, b.guidDirectory))
    ensures guidDirectory !in st.builders ==> st' == Put(st, guidDirectory, Fresh(guidDirectory)) && r.Ok?
    ensures r.Ok? ==> Tracks(r.value.0, st') && r.value.1 == st'.keys
    ensures r.Ok? ==> (forall k :: k in r.value.0 ==> (k in bs && r.value.0[k] == bs[k]) || fresh(r.value.0[k]))
  {
    if guidDirectory in bs {
      var builder := bs[guidDirectory];
      var outcome := builder.AssertGuidMatchesDirectoryName(guidDirectory);
      match outcome {
        case Fail(err) => return Err(err), st;
        case Pass => return Ok((bs, keys)), st;
      }
    }
    var builder := new UnityAssetBuilder(guidDirectory);
    st' := Put(st, guidDirectory, Fresh(guidDirectory));
    r := Ok((bs[guidDirectory := builder], InsertKey(keys, guidDirectory)));
  }

  /** A member entry: it goes to its directory's builder, which is created if there is none. */
  method FileMember(bs: map<string, UnityAssetBuilder>, keys: seq<string>, ghost st: IndexState,
                    guidDirectory: string, fileName: string, e: Entry)
    returns (r: Result<(map<string, UnityAssetBuilder>, seq<string>), Error>, ghost st': IndexState)
    requires Tracks(bs, st) && keys == st.keys
    modifies if guidDirectory in bs then {bs[guidDirectory]} else {}
    ensures var b := if guidDirectory in st.builders then st.builders[guidDirectory] else Fresh(guidDirectory);
      match AddMember(b, guidDirectory, fileName, e)
      case Err(err) => r == Err(err)
      case Ok(b') => r.Ok? && st' == Put(st, guidDirectory, b')
    ensures r.Ok? ==> Tracks(r.value.0, st') && r.value.1 == st'.keys
    ensures r.Ok? ==> (forall k :: k in r.value.0 ==> (k in bs && r.value.0[k] == bs[k]) || fresh(r.value.0[k]))
  {
    if guidDirectory in bs {
      r, st' := FileMemberInBuilder(bs, keys, st, guidDirectory, fileName, e);
      return;
    }
    var created := NewBuilderWithMember(guidDirectory, fileName, e);
    if created.Err? {
      return Err(created.error), st;
    }
    var builder := created.value;
    st' := Put(st, guidDirectory, builder.State());
    r := Ok((bs[guidDirectory := builder], InsertKey(keys, guidDirectory)));
  }

  /** A member of a directory that already has a builder: that builder takes it. */
  method FileMemberInBuilder(bs: map<string, UnityAssetBuilder>, keys: seq<string>, ghost st: IndexState,
                             guidDirectory: string, fileName: string, e: Entry)
    returns (r: Result<(map<string, UnityAssetBuilder>, seq<string>), Error>, ghost st': IndexState)
    requires Tracks(bs, st) && keys == st.keys && guidDirectory in bs
    modifies bs[guidDirectory]
    ensures match AddMember(st.builders[guidDirectory], guidDirectory, fileName, e)
      case Err(err) => r == Err(err)
      case Ok(b') => r.Ok? && st' == Put(st, guidDirectory, b')
    ensures r.Ok? ==> Tracks(r.value.0, st') && r.value == (bs, keys) && keys == st'.keys
  {
    var builder := bs[guidDirectory];
    var outcome := builder.AddFileFoundInDirectory(guidDirectory, fileName, e);
    if outcome.Fail? {
      return Err(outcome.error), st;
    }
    forall k | k in bs && k != guidDirectory ensures bs[k].State() == st.builders[k] {
      assert bs[k].guidBaseDirectory == k;
    }
    st' := Put(st, guidDirectory, builder.State());
    return Ok((bs, keys)), st';
  }

  /** One iteration of the indexing loop on the builder objects, as `StepRoute` describes it. */
  method IndexEntry(bs: map<string, UnityAssetBuilder>, keys: seq<string>, hasDotRootDirectory: bool,
                    ghost st: IndexState, route: Result<Route, Error>, tarEntry: Entry)
    returns (r: Result<(map<string, UnityAssetBuilder>, seq<string>, bool), Error>, ghost st': IndexState)
    requires Tracks(bs, st) && keys == st.keys && hasDotRootDirectory == st.hasDotRoot
    modifies set k | k in bs :: bs[k]
    ensures match StepRoute(st, route, tarEntry)
            case Err(err) => r == Err(err)
            case Ok(s) => r.Ok? && st' == s
    ensures r.Ok? ==> Tracks(r.value.0, st') && r.value.1 == st'.keys && r.value.2 == st'.hasDotRoot
    ensures r.Ok? ==> (forall k :: k in r.value.0 ==> (k in bs && r.value.0[k] == bs[k]) || fresh(r.value.0[k]))
  {
    if route.Err? {
      return Err(route.error), st;
    }
    match route.value {
      case SetDotRoot =>
        return Ok((bs, keys, true)), st.(hasDotRoot := true);
      case Ignore =>
        return Ok((bs, keys, hasDotRootDirectory)), st;
      case DirectoryRoute(guidDirectory) =>
        var filed;
        filed, st' := FileDirectory(bs, keys, st, guidDirectory);
        match filed {
          case Err(err) => return Err(err), st';
          case Ok((bs', keys')) => return Ok((bs', keys', hasDotRootDirectory)), st';
        }
      case MemberRoute(guidDirectory, fileName) =>
        var filed;
        filed, st' := FileMember(bs, keys, st, guidDirectory, fileName, tarEntry);
        if filed.Err? {
          return Err(filed.error), st';
        }
        return Ok((filed.value.0, filed.value.1, hasDotRootDirectory)), st';
    }
  }

  /** The indexing loop of `new UnityPackage(file)` on builder objects, as `Run` describes it. */
  method IndexArchive(entries: seq<Entry>)
    returns (r: Result<(map<string, UnityAssetBuilder>, seq<string>), Error>, ghost st: IndexState)
    ensures match Run(entries)
            case Err(err) => r == Err(err)
            case Ok(s) => r.Ok? && st == s
    ensures r.Ok? ==> Tracks(r.value.0, st) && r.value.1 == st.keys
  {
    var keys: seq<string> := [];
    var rootGuidDirectories: map<string, UnityAssetBuilder> := map[];
    var hasDotRootDirectory := false;
    st := Init;
    var i := 0;
    while i < |entries|
      invariant 0 <= i <= |entries|
      invariant Run(entries[..i]) == Ok(st) && Tracks(rootGuidDirectories, st)
      invariant st.hasDotRoot == hasDotRootDirectory && st.keys == keys
      invariant forall k :: k in rootGuidDirectories ==> fresh(rootGuidDirectories[k])
    {
      assert entries[..i + 1][..i] == entries[..i];
      assert Run(entries[..i + 1]) == Step(st, entries[i]);
      var indexed;
      var route := Classify(hasDotRootDirectory, entries[i]);
      indexed, st := IndexEntry(rootGuidDirectories, keys, hasDotRootDirectory, st, route, entries[i]);
      if indexed.Err? {
        RunErrPersists(entries, i + 1);
        return Err(indexed.error), st;
      }
      rootGuidDirectories, keys, hasDotRootDirectory := indexed.value.0, indexed.value.1, indexed.value.2;
      i := i + 1;
    }
    assert entries[..i] == entries;
    return Ok((rootGuidDirectories, keys)), st;
  }

  /** `rootGuidDirectories.values().stream().map(makeUnityAsset)`: one asset per builder, in key order. */
  method CollectAssets(bs: map<string, UnityAssetBuilder>, keys: seq<string>, ghost st: IndexState)
    returns (assets: seq<UnityAsset>)
    requires Tracks(bs, st) && keys == st.keys
    ensures assets == AssetsOf(st)
  {
    assets := [];
    var j := 0;
    while j < |keys|
      invariant 0 <= j <= |keys|
      invariant assets == AssetsOf(st)[..j]
    {
      assets := assets + [MakeUnityAsset(bs[keys[j]])];
      j := j + 1;
    }
    assert assets == AssetsOf(st);
  }

  /**
   * `new UnityPackage(file)`: the indexing loop, then one asset per builder in key
   * order; the result is the asset list `Index` describes, or the exception it stops at.
   */
  method Open(entries: seq<Entry>) returns (r: Result<UnityPackage, Error>)
    ensures match Index(entries)
            case Ok(assets) => r == Ok(UnityPackage(entries, assets))
            case Err(err) => r == Err(err)
  {
    var indexed, st := IndexArchive(entries);
    if indexed.Err? {
      return Err(indexed.error);
    }
    var assets := CollectAssets(indexed.value.0, indexed.value.1, st);
    return Ok(UnityPackage(entries, assets));
  }

  // ---------------------------------------------------------------------------
  // Extraction

  /** `getUnityArchiveInputStream()`: a cursor over the whole archive for every asset of the package. */
  method GetUnityArchiveInputStream(pkg: UnityPackage) returns (s: Stream.UnityArchiveInputStream)
    ensures fresh(s) && s.Valid()
    ensures s.entries == pkg.entries && s.position == 0
    ensures s.tarPathsToUnityAsset == Stream.Registration(pkg.unityAssetList)
  {
    s := new Stream.UnityArchiveInputStream(pkg.entries, pkg.unityAssetList);
  }

  /**
   * Where `getFileStream(asset)` leaves the archive: just past the first entry named
   * with the asset's raw payload path. An asset without a payload, or one whose payload
   * is not in the archive, fails the sanity check.
   */
  function FileStreamAt(entries: seq<Entry>, a: UnityAsset): (r: Result<nat, Error>)
    ensures r.Ok? <==>
      (!a.IsProbablyDirectory() && exists k :: 0 <= k < |entries| && Some(entries[k].name) == a.TarPathOfAssetFile())
    ensures r.Ok? ==> 0 < r.value <= |entries| && Some(entries[r.value - 1].name) == a.TarPathOfAssetFile()
    ensures r.Ok? ==> forall k :: 0 <= k < r.value - 1 ==> Some(entries[k].name) != a.TarPathOfAssetFile()
    ensures r.Err? ==> r.error == ShouldNeverHappen
  {
    assert [a][..|[a]| - 1] == [] && [a][|[a]| - 1] == a;
    var reg := Stream.Registration([a]);
    assert Stream.Registration([]) == map[];
    assert reg == if a.IsProbablyDirectory() then map[] else map[a.TarPathOfAssetFile().value := a];
    var (pos, found) := Stream.Seek(entries, 0, reg);
    if found == Some(a) then Ok(pos) else Err(ShouldNeverHappen)
  }

  /**
   * `getFileStream(asset)`: a fresh cursor that has read up to and including the
   * asset's payload entry, so that reading from it yields the payload.
   */
  method GetFileStream(pkg: UnityPackage, assetToExtract: UnityAsset) returns (r: Result<Stream.UnityArchiveInputStream, Error>)
    ensures match FileStreamAt(pkg.entries, assetToExtract)
            case Ok(pos) => r.Ok? && fresh(r.value) && r.value.Valid() &&
              r.value.entries == pkg.entries && r.value.position == pos
            case Err(err) => r == Err(err)
  {
    var unityInputStream := new Stream.UnityArchiveInputStream(pkg.entries, [assetToExtract]);
    assert [assetToExtract][..0] == [];
    var assetFound := unityInputStream.GetNextEntry();
    if assetFound != Some(assetToExtract) {
      return Err(ShouldNeverHappen);
    }
    return Ok(unityInputStream);
  }

  lemma {:induction false} MembersAreEntries(es: seq<Entry>, k: string)
    ensures forall m :: m in MembersOf(es, k) ==> m.1 in es
    decreases |es|
  {
    if es != [] {
      var n := |es| - 1;
      MembersAreEntries(es[..n], k);
      assert forall e :: e in es[..n] ==> e in es;
    }
  }

  /**
   * Every asset of an opened package with a payload can be extracted, and the entry
   * extraction stops at carries its payload path; directory-like assets cannot.
   */
  lemma FileAssetsExtractable(es: seq<Entry>, i: nat)
    requires Index(es).Ok? && i < |Index(es).value|
    ensures var a := Index(es).value[i];
      FileStreamAt(es, a).Ok? <==> !a.IsProbablyDirectory()
  {
    var a := Index(es).value[i];
    if !a.IsProbablyDirectory() {
      IndexAssets(es);
      var k := a.DirectoryGuid();
      var ms := MembersOf(es, k);
      PayloadOnlyFromAsset(Fresh(k), ms);
      var j :| 0 <= j < |ms| && ms[j].0 == "asset" && a.source.rawAssetPath == Some(ms[j].1.name);
      MembersAreEntries(es, k);
      assert ms[j] in ms;
      var x :| 0 <= x < |es| && es[x] == ms[j].1;
      assert Some(es[x].name) == a.TarPathOfAssetFile();
    }
  }
}
