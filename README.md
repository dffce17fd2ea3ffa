# UnityPackage viewer core, modelled in Dafny

UnityPackageViewer browses `.unitypackage` files. A `.unitypackage` is a gzipped tar
archive. Each asset lives in a top-level directory named by its GUID. That directory
holds up to four members:

- `asset`: the payload;
- `asset.meta`: the metadata, with a `guid: ` line;
- `pathname`: the asset's path inside the Unity project;
- `preview.png`: a thumbnail.

The model covers the viewer's core:

- **Indexing** (`UnityPackage`, and the older `UnitypackageReader`). A forward pass over
  the tar entries:
  - classifies each entry by the name elements of its path;
  - handles a root directory `.` and the root `.icon.png`;
  - files each member under its directory's builder in a key-sorted map;
  - refuses unexpected layouts with the exception the code throws.
- **The asset builder** (`UnityAssetBuilder`). One object per GUID directory. Each kind
  of member sets its own fields. The model covers:
  - the GUID search in `asset.meta`;
  - the one-line rule for `pathname`, which also allows a second line `00`;
  - the directory-name sanity check.
- **The asset view** (`UnityAsset`): full path, file name, size, GUIDs, the raw payload
  path, and the directory-like test.
- **Extraction** (`UnityArchiveInputStream`, and the `getFileStream` of both indexers).
  A cursor over the archive stops at the payload entries of registered assets.
- **The tree model** (`UnitypackageGuiModel`, `UnityTreeNode`). `buildTreeModel` does
  the following:
  - splits the assets into directory-like and file assets, and sorts both by full path;
  - walks each path with `findOrCreateDirectoryNode`;
  - attaches directory assets to the Directory their path spells;
  - adds one Asset node per file asset, and also appends it to the search list;
  - sorts every children list with `recursiveSort`.

  Tree nodes live in an arena, the `UnityTree` class. Each node is named by its index,
  and parent and children lists are kept beside the nodes.
- **Search** (`search`, `SearchResult`). A node is a hit when its lowercased search
  string contains the lowercased query. Hits are sorted by their lowercased display
  strings.
- **The file filter** (`UnitypackageFileName`).

Java library behaviour the core relies on is written out in modules of its own:

- `JavaString`: `toLowerCase`, `compareTo`, `contains`, `startsWith`/`endsWith`;
- `LineReader`: `BufferedReader.readLine`;
- `PathNames`: `Paths.get`, name elements and `getParent`;
- `Sorting`: a stable insertion sort standing in for `List.sort`, and the `TreeMap` key
  order;
- `TarArchive`: the entries a `TarArchiveInputStream` yields, and the thrown exceptions
  as an `Error` datatype.

The shipped `UnityAssetBuilder.java` has two-argument forms of its second constructor
and of `addFileFoundInDirectory` (lines 109-117 and 133-171). These take the directory
from the entry's own `File.getParent()`. `UnitypackageReader.java` calls these forms.
`UnityPackage.java` (lines 119 and 126) calls four-argument forms
`(guidDirectory, fileName, tarEntry, tarInput)` instead, which the shipped file does not
declare. The model follows the callers. The builder step takes the directory and file
name the classifying indexer computed. For the older indexer these are the entry's
parent and name, so both forms agree there.

## Model

| member | source | states |
|---|---|---|
| JavaString.ToLower | src/main/java/unitypackage/viewer/gui/model/UnityTreeNode.java:45-46 | `String.toLowerCase()` as ASCII lower-casing of each character; its laws are `ToLowerIdempotent`, `ToLowerConcat` and `ToLowerForgetsUpper` |
| JavaString.Contains | src/main/java/unitypackage/viewer/gui/model/UnitypackageGuiModel.java:66 | `String.contains`: some suffix starts with the query; `ContainsIff` states it as an occurrence at some offset |
| JavaString.CompareTo | src/main/java/unitypackage/viewer/gui/model/UnitypackageGuiModel.java:83 | `String.compareTo` on code points: the difference of the first differing characters, else of the lengths; its order laws are the `CompareTo…` lemmas; Java's code-unit order differs only for supplementary characters, as "## Left out" says |
| JavaString.ContainsIff | src/main/java/unitypackage/viewer/gui/model/UnitypackageGuiModel.java:66 | `contains` holds exactly when the query occurs at some position of the text |
| JavaString.ContainsEmpty | src/main/java/unitypackage/viewer/gui/model/UnitypackageGuiModel.java:66 | the empty query occurs in every string |
| JavaString.ToLowerIdempotent | src/main/java/unitypackage/viewer/gui/model/UnityTreeNode.java:45-46 | lower-casing twice is lower-casing once |
| JavaString.ToLowerConcat | src/main/java/unitypackage/viewer/gui/model/UnitypackageGuiModel.java:66 | lower-casing distributes over concatenation |
| JavaString.ToLowerForgetsUpper | src/main/java/unitypackage/viewer/gui/UnitypackageFileName.java:31 | lower-casing forgets the case of every letter |
| JavaString.CompareToZeroIffEqual | src/main/java/unitypackage/viewer/gui/model/UnityTreeNode.java:47 | `compareTo` is zero exactly on equal strings |
| JavaString.CompareToAntisymmetric | src/main/java/unitypackage/viewer/gui/model/UnityTreeNode.java:47 | swapping the operands negates `compareTo` |
| JavaString.CompareToTransitive | src/main/java/unitypackage/viewer/gui/model/UnityTreeNode.java:47 | `compareTo` order is transitive |
| JavaString.CompareToStrictTransitive | src/main/java/unitypackage/model/UnityPackage.java:51 | strict `compareTo` order is transitive, as the `TreeMap` key order needs |
| JavaString.CompareToDecidedBeforeEnd | src/main/java/unitypackage/viewer/gui/model/SearchResult.java:38 | when neither string is a prefix of the other, what follows them does not change the comparison |
| LineReader.Lines | src/main/java/unitypackage/model/UnityAssetBuilder.java:206-213 | `BufferedReader.lines()`: the text split at `\n`, `\r` and `\r\n`, without an empty last line; `LinesHaveNoTerminator`, `LinesCons` and `LinesRoundTrip` state what it returns |
| LineReader.LinesHaveNoTerminator | src/main/java/unitypackage/model/UnityAssetBuilder.java:206-213 | no line read back contains a line terminator |
| LineReader.LinesOfSingleLine | src/main/java/unitypackage/model/UnityAssetBuilder.java:206-213 | the empty text has no lines, and text without a terminator is one line |
| LineReader.LinesCons | src/main/java/unitypackage/model/UnityAssetBuilder.java:206-213 | a line and its `\n`, `\r` or `\r\n` terminator are read as that line, followed by the rest |
| LineReader.LinesRoundTrip | src/main/java/unitypackage/model/UnityAssetBuilder.java:206-213 | lines written with any of the three line breaks are read back as the same lines, plus the unterminated remainder if there is one |
| PathNames.Segments | src/main/java/unitypackage/model/UnityPackage.java:63-66 | the name elements of `Paths.get`: the text between slashes, empty elements dropped; `SegmentsValid`, `SegmentsConcat` and `TrailingSlash` state its properties |
| PathNames.Join | src/main/java/unitypackage/model/UnityPackage.java:93 | `toString()` of a relative path: the elements with `/` between them; `SegmentsJoin` states that parsing it gives the elements back |
| PathNames.FileName | src/main/java/unitypackage/model/UnityAsset.java:46-52 | `getFileName()`: the last name element, or none for a path without one; `FileNameJoin` states it for a printed path |
| PathNames.NameElements | src/main/java/unitypackage/model/UnityPackage.java:63-65 | the name elements of a path; the empty path has the one element `""` |
| PathNames.SegmentsValid | src/main/java/unitypackage/model/UnityPackage.java:63 | every name element is non-empty and free of `/` |
| PathNames.SegmentsConcat | src/main/java/unitypackage/model/UnityPackage.java:84-97 | a separator between two paths separates their elements |
| PathNames.SegmentsJoin | src/main/java/unitypackage/model/UnityPackage.java:93-97 | printing valid name elements and parsing them back gives the same elements |
| PathNames.TrailingSlash | src/main/java/unitypackage/model/UnityPackage.java:60-63 | the trailing `/` of a tar directory entry changes no element |
| PathNames.FileNameJoin | src/main/java/unitypackage/model/UnityPackage.java:96 | the file name of a printed path is its last element |
| Sorting.SortBy | src/main/java/unitypackage/viewer/gui/model/UnitypackageGuiModel.java:101-105 | `List.sort` with a comparator, as insertion sorting; `SortByPermutes`, `SortBySorted` and `SortByStable` state that it is a stable sort |
| Sorting.SortByPermutes | src/main/java/unitypackage/viewer/gui/model/UnitypackageGuiModel.java:101 | sorting is a permutation |
| Sorting.SortBySorted | src/main/java/unitypackage/viewer/gui/model/UnitypackageGuiModel.java:101 | sorting by a total preorder yields a list sorted by it |
| Sorting.SortedIdempotent | src/main/java/unitypackage/viewer/gui/model/UnityTreeNode.java:138 | a sorted list is left as it is |
| Sorting.SortTwice | src/main/java/unitypackage/viewer/gui/model/UnityTreeNode.java:138 | sorting twice is sorting once |
| Sorting.SortByMembers | src/main/java/unitypackage/viewer/gui/model/UnitypackageGuiModel.java:71 | sorting keeps exactly the members it was given |
| Sorting.SortByStable | src/main/java/unitypackage/viewer/gui/model/UnitypackageGuiModel.java:101-105 | the sort is stable: elements that rank alike keep their input order |
| Sorting.InsertKey | src/main/java/unitypackage/model/UnityPackage.java:121 | the `TreeMap` key list after `put` of a new key stays strictly sorted, gains exactly that key, and grows by one |
| UnityAssetBuilder.Fresh | src/main/java/unitypackage/model/UnityAssetBuilder.java:105-107 | a builder just created for a directory: only the directory name set, every other field null and the size -1; `DirectoryLikeUntilPayload` keeps this no-payload state until an `asset` member |
| UnityAssetBuilder.Apply | src/main/java/unitypackage/model/UnityAssetBuilder.java:144-167 | the field writes of each member kind; `ApplyCommutes` and `ApplyOverwrites` state that kinds write disjoint fields and a repeat overwrites |
| UnityAssetBuilder.FindGuid | src/main/java/unitypackage/model/UnityAssetBuilder.java:177-189 | `None` exactly when no line starts with `guid: `; otherwise the text after the prefix on the first line that does |
| UnityAssetBuilder.FindGuidIgnoresLaterLines | src/main/java/unitypackage/model/UnityAssetBuilder.java:181-186 | once a `guid: ` line is found, later lines do not matter |
| UnityAssetBuilder.ReadFirstLine | src/main/java/unitypackage/model/UnityAssetBuilder.java:191-204 | succeeds exactly on one line, or two lines whose second is `00`, and then yields the first line; an empty file and any other line count give their own errors |
| UnityAssetBuilder.PathnameFileRoundTrip | src/main/java/unitypackage/model/UnityAssetBuilder.java:191-213 | a `pathname` written as one line, with any line break or none, and optionally followed by `00`, reads back as exactly that line |
| UnityAssetBuilder.AddMember | src/main/java/unitypackage/model/UnityAssetBuilder.java:133-171 | a member of another directory is refused before any field is written. `asset` sets exactly the raw path, size and date. `asset.meta` sets exactly the GUID, or fails when no `guid: ` line exists. `pathname` sets exactly the full path, or fails as `readFirstLine` does. `preview.png` sets exactly the preview (null when no reader claims it), or fails on corrupt data. Any other name is refused |
| UnityAssetBuilder.UnknownMemberRefused | src/main/java/unitypackage/model/UnityAssetBuilder.java:168-169 | a member that is not `asset`, `asset.meta`, `pathname` or `preview.png` is refused with "File name not recognized" |
| UnityAssetBuilder.PayloadSetsPathSizeAndDate | src/main/java/unitypackage/model/UnityAssetBuilder.java:145-149 | `asset` records exactly the raw tar path, the size and the date |
| UnityAssetBuilder.PathnameSetsOnlyPath | src/main/java/unitypackage/model/UnityAssetBuilder.java:162-164 | `pathname` records its one line as the full path and changes no other field |
| UnityAssetBuilder.PreviewSetsOnlyPreview | src/main/java/unitypackage/model/UnityAssetBuilder.java:165-167 | `preview.png` records the decoded picture, or null when no reader claims the data, and changes no other field; corrupt data is an error |
| UnityAssetBuilder.MetaWithoutGuidRefused | src/main/java/unitypackage/model/UnityAssetBuilder.java:150-151 | an `asset.meta` without a `guid: ` line is refused with the count of its lines |
| UnityAssetBuilder.MetaGuidMismatchTolerated | src/main/java/unitypackage/model/UnityAssetBuilder.java:150-161 | an `asset.meta` GUID that differs from the directory name is stored all the same, because strict mode is off |
| UnityAssetBuilder.ApplyCommutes | src/main/java/unitypackage/model/UnityAssetBuilder.java:143-170 | members of different kinds write disjoint fields, so their order does not matter |
| UnityAssetBuilder.ApplyOverwrites | src/main/java/unitypackage/model/UnityAssetBuilder.java:143-170 | a repeated member of one kind overwrites the earlier one |
| UnityAssetBuilder.AddAllOkIff | src/main/java/unitypackage/model/UnityAssetBuilder.java:133-171 | adding members succeeds exactly when every member can be read, and keeps the directory |
| UnityAssetBuilder.AddAllAppend | src/main/java/unitypackage/model/UnityAssetBuilder.java:133-171 | adding two runs of members is adding the first, then the second, stopping at the first error |
| UnityAssetBuilder.AddAllSwapNeighbours | src/main/java/unitypackage/model/UnityAssetBuilder.java:133-171 | two neighbouring readable members with different names can be read in either order with the same result |
| UnityAssetBuilder.PayloadOnlyFromAsset | src/main/java/unitypackage/model/UnityAssetBuilder.java:145-149 | size and raw payload path change only through an `asset` member, and then the raw path is that member's tar name |
| UnityAssetBuilder.DirectoryLikeUntilPayload | src/main/java/unitypackage/model/UnityAssetBuilder.java:45-117 | a directory that receives no `asset` member keeps size -1 and no payload path |
| UnityAssetBuilder.AddAllKeepsPayloadConsistent | src/main/java/unitypackage/model/UnityAssetBuilder.java:145-149 | adding members keeps "size -1 exactly when there is no payload path" |
| UnityAssetBuilder.UnityAssetBuilder.constructor | src/main/java/unitypackage/model/UnityAssetBuilder.java:105-107 | a new builder holds only its directory name; every other field is unset |
| UnityAssetBuilder.UnityAssetBuilder.AssertGuidMatchesDirectoryName | src/main/java/unitypackage/model/UnityAssetBuilder.java:126-131 | passes exactly when the name is the builder's directory, and otherwise fails naming both |
| UnityAssetBuilder.UnityAssetBuilder.AddFileFoundInDirectory | src/main/java/unitypackage/model/UnityAssetBuilder.java:133-171 | on failure no field has changed; on success the fields are what `AddMember` gives |
| UnityAssetBuilder.NewBuilderWithMember | src/main/java/unitypackage/model/UnityPackage.java:119 | a fresh builder for the directory that already holds the first member, or that member's error |
| UnityAsset.MakeUnityAsset | src/main/java/unitypackage/model/UnityAssetBuilder.java:119-121 | the asset reports the builder's directory, path, GUID and size, and is directory-like exactly when there is no payload path |
| UnityAsset.DirectoryLikeIffNoPayload | src/main/java/unitypackage/model/UnityAsset.java:80-82 | an asset is directory-like exactly when its directory had no `asset` member, and then its size is -1 |
| UnityAsset.FileNameIsLastElement | src/main/java/unitypackage/model/UnityAsset.java:46-52 | the file name of an asset is the last element of its full path |
| UnityAsset.GuidIndependentOfDirectory | src/main/java/unitypackage/model/UnityAsset.java:61-67 | the GUID comes from `asset.meta`, not from the directory name |
| UnityArchiveInputStream.Registration | src/main/java/unitypackage/model/UnityArchiveInputStream.java:46-50 | the constructor's map from payload tar path to asset; `RegistrationCharacterized` states its keys and values |
| UnityArchiveInputStream.Drain | src/main/java/unitypackage/model/UnityArchiveInputStream.java:57-71 | what successive `getNextEntry` calls return until null; `DrainIsRegistered` states it is the registered entries' assets in archive order |
| UnityArchiveInputStream.RegistrationCharacterized | src/main/java/unitypackage/model/UnityArchiveInputStream.java:46-50 | exactly the payload paths of non-directory assets are registered, each to the last asset with that path |
| UnityArchiveInputStream.Seek | src/main/java/unitypackage/model/UnityArchiveInputStream.java:57-71 | one call stops just past the first registered entry at or after the position and yields its asset, or reaches the end and yields nothing |
| UnityArchiveInputStream.DrainIsRegistered | src/main/java/unitypackage/model/UnityArchiveInputStream.java:57-71 | successive calls yield the registered assets in archive order, one per registered entry |
| UnityArchiveInputStream.UnityArchiveInputStream.constructor | src/main/java/unitypackage/model/UnityArchiveInputStream.java:42-51 | the cursor starts at the first entry with the registration map of the given assets |
| UnityArchiveInputStream.UnityArchiveInputStream.GetNextEntry | src/main/java/unitypackage/model/UnityArchiveInputStream.java:57-71 | advances as `Seek` says; a returned asset is not directory-like and names the entry just read; the assets still pending shrink by the one returned |
| UnityPackage.Classify | src/main/java/unitypackage/model/UnityPackage.java:60-109 | the root `.` directory sets the strip flag; directories have one element after stripping, members are keyed by their parent, and only the root icon is skipped |
| UnityPackage.Put | src/main/java/unitypackage/model/UnityPackage.java:121 | putting a builder updates the map at that key and keeps the key list sorted |
| UnityPackage.AssetsOf | src/main/java/unitypackage/model/UnityPackage.java:131-137 | one asset per key, in strictly ascending key order, each from its key's builder |
| UnityPackage.Run | src/main/java/unitypackage/model/UnityPackage.java:58-128 | the entry loop, one `Step` per entry, stopping at the first exception; a successful run leaves a well-formed builder map with a strictly sorted key list, and `RunCharacterized`, `RunOkIff` and `RunErrPersists` describe its result |
| UnityPackage.Index | src/main/java/unitypackage/model/UnityPackage.java:45-138 | the constructor's asset list, `AssetsOf` of the final state, or the loop's exception; `IndexAssets` states its order and contents |
| UnityPackage.RunCharacterized | src/main/java/unitypackage/model/UnityPackage.java:58-128 | after indexing, the strip flag says whether a dot root was seen; there is a builder for exactly the keys some entry is filed under, holding that key's members added in archive order |
| UnityPackage.StepOkIff | src/main/java/unitypackage/model/UnityPackage.java:58-128 | one step succeeds exactly when the entry classifies and its member can be read |
| UnityPackage.RunOkIff | src/main/java/unitypackage/model/UnityPackage.java:58-128 | indexing succeeds exactly when every entry classifies and every member can be read |
| UnityPackage.RunErrPersists | src/main/java/unitypackage/model/UnityPackage.java:58-128 | once an entry throws, the rest of the archive does not matter |
| UnityPackage.IndexAssets | src/main/java/unitypackage/model/UnityPackage.java:45-138 | the assets come one per filed key, in strictly ascending order, and each is what its members give |
| UnityPackage.RepeatedDirectoryChangesNothing | src/main/java/unitypackage/model/UnityPackage.java:122-124 | a second directory entry for a known key changes nothing |
| UnityPackage.DotRootOnlySetsFlag | src/main/java/unitypackage/model/UnityPackage.java:67-71 | the root directory `.` yields no asset and only sets the strip flag |
| UnityPackage.RootFileRefused | src/main/java/unitypackage/model/UnityPackage.java:72-75 | a file with one name element that is not the icon is refused |
| UnityPackage.RootIconIgnored | src/main/java/unitypackage/model/UnityPackage.java:100-105 | the root icon is skipped, also as `./.icon.png` under a dot root |
| UnityPackage.NestedDirectoryRefused | src/main/java/unitypackage/model/UnityPackage.java:89-92 | a directory entry with a parent is refused |
| UnityPackage.DeepFileKeyedByParent | src/main/java/unitypackage/model/UnityPackage.java:79-98 | every file with at least two name elements after the dot root is stripped is accepted, filed under its whole parent path with its last element as member name |
| UnityPackage.DotRootStripped | src/main/java/unitypackage/model/UnityPackage.java:79-82 | putting the whole archive under a root `.` accepts the same archives with the same keys and builders, except that raw payload paths gain `./` |
| UnityPackage.FileDirectory | src/main/java/unitypackage/model/UnityPackage.java:111-124 | a directory entry checks the existing builder, or puts a fresh one into the map |
| UnityPackage.FileMember | src/main/java/unitypackage/model/UnityPackage.java:111-127 | a member entry goes to its directory's builder, which is created if there is none |
| UnityPackage.IndexEntry | src/main/java/unitypackage/model/UnityPackage.java:58-128 | one loop iteration on the builder objects does what the step function says |
| UnityPackage.IndexArchive | src/main/java/unitypackage/model/UnityPackage.java:51-129 | the loop on the builder objects ends in the state indexing describes, or with its error |
| UnityPackage.CollectAssets | src/main/java/unitypackage/model/UnityPackage.java:131-137 | the asset list of the builders is the one `AssetsOf` describes |
| UnityPackage.Open | src/main/java/unitypackage/model/UnityPackage.java:45-146 | opening yields the package with the asset list indexing describes, or the exception indexing stops at |
| UnityPackage.GetUnityArchiveInputStream | src/main/java/unitypackage/model/UnityPackage.java:152-154 | a fresh cursor at the start of the archive, registered for every asset of the package |
| UnityPackage.FileStreamAt | src/main/java/unitypackage/model/UnityPackage.java:156-169 | succeeds exactly for an asset with a payload present in the archive, stopping just past its first payload entry; otherwise "This should never happen" |
| UnityPackage.GetFileStream | src/main/java/unitypackage/model/UnityPackage.java:156-169 | a fresh cursor placed where `FileStreamAt` says, or its error |
| UnityPackage.FileAssetsExtractable | src/main/java/unitypackage/model/UnityPackage.java:156-169 | every asset of an opened package can be extracted exactly when it is not directory-like |
| UnitypackageReader.ClassifyLegacy | src/main/java/unitypackage/model/UnitypackageReader.java:77-105 | classification by `File`: no dot-root handling; only the exact raw name `.icon.png` is skipped; nested directories and other parentless files are refused |
| UnitypackageReader.RunLegacy | src/main/java/unitypackage/model/UnitypackageReader.java:69-135 | the loop of `readAssetsList`, classifying by `File`; a successful run is well formed and never sets the dot-root flag, and `RunAgrees` relates it to `UnityPackage.Run` |
| UnitypackageReader.IndexLegacy | src/main/java/unitypackage/model/UnitypackageReader.java:69-135 | the assets come in strictly ascending key order |
| UnitypackageReader.RunAgrees | src/main/java/unitypackage/model/UnitypackageReader.java:69-135 | on archives without a dot root, whose parentless files are named exactly `.icon.png`, both indexers accept the same archives and build the same builders |
| UnitypackageReader.DotDirectoryIsAKey | src/main/java/unitypackage/model/UnitypackageReader.java:87-95 | a lone `.` directory becomes an asset for the older indexer, and nothing for the newer one |
| UnitypackageReader.FindEntry | src/main/java/unitypackage/model/UnitypackageReader.java:55-63 | the index of the first entry with the name, or none when no entry has it |
| UnitypackageReader.LegacyFileStreamAt | src/main/java/unitypackage/model/UnitypackageReader.java:50-67 | the position just past the first entry named with the asset's raw payload path, or `AssetNotFound` with its full path; `ExtractorsAgree` relates it to `UnityPackage.FileStreamAt` |
| UnitypackageReader.GetFileStream | src/main/java/unitypackage/model/UnitypackageReader.java:50-67 | the linear seek stops just past the first entry named with the raw payload path, or fails with "Could not find asset" |
| UnitypackageReader.ExtractorsAgree | src/main/java/unitypackage/model/UnitypackageReader.java:50-67 | both extractors succeed on the same assets and stop at the same entry |
| UnitypackageReader.ReadAssetsList | src/main/java/unitypackage/model/UnitypackageReader.java:69-135 | the loop on builder objects yields the asset list `IndexLegacy` describes, or its error |
| UnityTreeNode.Node.Guid | src/main/java/unitypackage/viewer/gui/model/UnityTreeNode.java:98-107 | a Directory's attached asset's GUID, or none; an Asset's own GUID (lines 206-209); stated by `DirectoryGuidAndSize` and `AssetGuidAndSize` |
| UnityTreeNode.Node.HasGuid | src/main/java/unitypackage/viewer/gui/model/UnityTreeNode.java:93-96 | a Directory has a GUID exactly when `getGuid` is not null; an Asset always (lines 201-204) |
| UnityTreeNode.Node.HasSize | src/main/java/unitypackage/viewer/gui/model/UnityTreeNode.java:109-112 | false for a Directory, true for an Asset (lines 211-214) |
| UnityTreeNode.Node.SearchString | src/main/java/unitypackage/viewer/gui/model/UnityTreeNode.java:124-133 | a Directory's name, then a tab and the GUID when there is one; an Asset's file name, a tab and the GUID or `null` (lines 236-239); stated by `DirectorySearchString` and `AssetSearchString` |
| UnityTreeNode.WithAsset | src/main/java/unitypackage/viewer/gui/model/UnityTreeNode.java:84-86 | `setAsset` changes only the attached asset, and the Directory then reports that asset's GUID |
| UnityTreeNode.DirectoryGuidAndSize | src/main/java/unitypackage/viewer/gui/model/UnityTreeNode.java:93-112 | a Directory has a GUID exactly when an asset with a GUID is attached, and never a size |
| UnityTreeNode.AssetGuidAndSize | src/main/java/unitypackage/viewer/gui/model/UnityTreeNode.java:201-214 | an Asset always reports a GUID, its asset's, and a size |
| UnityTreeNode.DirectorySearchString | src/main/java/unitypackage/viewer/gui/model/UnityTreeNode.java:125-133 | a Directory's search string begins with its name, and has a tab exactly when it has a GUID |
| UnityTreeNode.AssetSearchString | src/main/java/unitypackage/viewer/gui/model/UnityTreeNode.java:237-239 | an Asset's search string is its file name, a tab, and its GUID or `null` |
| UnityTreeNode.CompareNodes | src/main/java/unitypackage/viewer/gui/model/UnityTreeNode.java:38-55 | Directories before Assets; within one kind, zero exactly when the lowercased search strings agree |
| UnityTreeNode.CompareNodesIgnoresCase | src/main/java/unitypackage/viewer/gui/model/UnityTreeNode.java:45-47 | nodes whose search strings differ only in case compare equal, and alike against any third node |
| UnityTreeNode.CompareNodesAntisymmetric | src/main/java/unitypackage/viewer/gui/model/UnityTreeNode.java:38-55 | swapping the operands flips the sign |
| UnityTreeNode.CompareNodesTransitive | src/main/java/unitypackage/viewer/gui/model/UnityTreeNode.java:38-55 | the node order is transitive |
| UnityTreeNode.ChildOrderTotal | src/main/java/unitypackage/viewer/gui/model/UnityTreeNode.java:138 | the sibling order is a total preorder, as `List.sort` requires |
| UnityTreeNode.DirectoriesFirst | src/main/java/unitypackage/viewer/gui/model/UnityTreeNode.java:48-52 | in a sorted children list no Asset precedes a Directory |
| UnityTreeNode.RootForest | src/main/java/unitypackage/viewer/gui/model/UnitypackageGuiModel.java:96 | the tree starts as a single root Directory with no asset and no children |
| UnityTreeNode.AddChild | src/main/java/unitypackage/viewer/gui/model/UnitypackageGuiModel.java:134 | `add` appends the node as the last child of the parent, keeps the tree valid, and leaves every other children list alone |
| UnityTreeNode.AttachAsset | src/main/java/unitypackage/viewer/gui/model/UnityTreeNode.java:84-86 | `setAsset` changes only that node, and not the tree's shape |
| UnityTreeNode.UnderRoot | src/main/java/unitypackage/viewer/gui/model/UnitypackageGuiModel.java:96-136 | every node lies below the root |
| UnityTreeNode.AncestorIsDirectory | src/main/java/unitypackage/viewer/gui/model/UnityTreeNode.java:186-190 | only Directories have nodes below them |
| UnityTreeNode.ExtendsKeepsPaths | src/main/java/unitypackage/viewer/gui/model/UnitypackageGuiModel.java:160-161 | adding nodes moves and renames no old node |
| UnityTreeNode.SortedSubtree | src/main/java/unitypackage/viewer/gui/model/UnityTreeNode.java:135-148 | the tree stays valid and keeps every node and parent, only children lists change; `SortedSubtreeSorts` states that below `top` each Directory then holds the same children in sibling order |
| UnityTreeNode.SortedSubtreeSorts | src/main/java/unitypackage/viewer/gui/model/UnityTreeNode.java:135-148 | after `recursiveSort`, every Directory below the node has its children in sibling order and the same children as before; other lists are untouched |
| UnityTreeNode.SortedTreeDirectoriesFirst | src/main/java/unitypackage/viewer/gui/model/UnityTreeNode.java:135-148 | after sorting from the root, no Asset precedes a Directory in any children list |
| UnityTreeNode.ReorderedValid | src/main/java/unitypackage/viewer/gui/model/UnityTreeNode.java:138 | reordering children lists keeps the tree valid |
| UnityTreeNode.CoveredByChildren | src/main/java/unitypackage/viewer/gui/model/UnityTreeNode.java:140-146 | the Directory children of a node cover exactly the Directories strictly below it |
| UnityTreeNode.SortTwiceChildren | src/main/java/unitypackage/viewer/gui/model/UnityTreeNode.java:138 | sorting a sorted children list again changes nothing |
| UnityTreeNode.UnityTree.constructor | src/main/java/unitypackage/viewer/gui/model/UnityTreeNode.java:79-82 | the new tree is the lone root Directory |
| UnityTreeNode.UnityTree.Add | src/main/java/unitypackage/viewer/gui/model/UnitypackageGuiModel.java:134 | the tree becomes `AddChild` of the old tree, and the new node is the next index |
| UnityTreeNode.UnityTree.SetAsset | src/main/java/unitypackage/viewer/gui/model/UnityTreeNode.java:84-86 | the tree becomes `AttachAsset` of the old tree |
| UnityTreeNode.UnityTree.NodePath | src/main/java/unitypackage/viewer/gui/model/SearchResult.java:31-33 | the path from the root down to the node, each step a child of the one before |
| UnityTreeNode.UnityTree.RecursiveSort | src/main/java/unitypackage/viewer/gui/model/UnityTreeNode.java:135-148 | the tree becomes `SortedSubtree` of the old tree at that node |
| UnityTreeNode.UnityTree.SortDirectoryChildren | src/main/java/unitypackage/viewer/gui/model/UnityTreeNode.java:140-146 | the loop over the sorted children sorts below every Directory child |
| SearchResult.Details | src/main/java/unitypackage/viewer/gui/model/SearchResult.java:46 | the text after the asset path: ` (<size> bytes) {<guid>}`, with `null` for a missing GUID |
| SearchResult.Display | src/main/java/unitypackage/viewer/gui/model/SearchResult.java:44-48 | `toString()`: the asset path followed by `Details`; `DisplayLowered` states its lowercased form |
| SearchResult.CompareResults | src/main/java/unitypackage/viewer/gui/model/SearchResult.java:36-39 | `compareTo`: `String.compareTo` of the lowercased displays; `CompareResultsZeroIff`, `CompareResultsAntisymmetric` and `ResultOrderTotal` state its order laws |
| SearchResult.CompareResultsZeroIff | src/main/java/unitypackage/viewer/gui/model/SearchResult.java:36-39 | two results are equivalent exactly when their display strings agree up to case |
| SearchResult.CompareResultsAntisymmetric | src/main/java/unitypackage/viewer/gui/model/SearchResult.java:36-39 | swapping the operands negates the comparison |
| SearchResult.ResultOrderTotal | src/main/java/unitypackage/viewer/gui/model/SearchResult.java:36-39 | the result order is a total preorder, as `Collections.sort` requires |
| SearchResult.DisplayLowered | src/main/java/unitypackage/viewer/gui/model/SearchResult.java:44-48 | the lowercased display string is the lowercased path followed by the lowercased size and GUID |
| SearchResult.CompareResultsIgnoresCase | src/main/java/unitypackage/viewer/gui/model/SearchResult.java:36-48 | results whose path and GUID differ only in case, with equal sizes, compare equal and alike against every other result |
| SearchResult.PathDecides | src/main/java/unitypackage/viewer/gui/model/SearchResult.java:36-48 | when neither lowercased path is a prefix of the other, the paths alone decide the order |
| SearchResult.GetTreeNodePath | src/main/java/unitypackage/viewer/gui/model/SearchResult.java:31-33 | the nodes from the root down to the result's Asset node |
| UnitypackageFileName.IsUnitypackageName | src/main/java/unitypackage/viewer/gui/UnitypackageFileName.java:30-32 | the lowercased name ends with `.unitypackage`; `IsUnitypackageNameIff` states it on the last 13 characters |
| UnitypackageFileName.IsUnitypackage | src/main/java/unitypackage/viewer/gui/UnitypackageFileName.java:26-28 | a regular file with such a name |
| UnitypackageFileName.Accept | src/main/java/unitypackage/viewer/gui/UnitypackageFileName.java:36-39 | the file filter: every non-file, and package files; `AcceptIff` states both directions |
| UnitypackageFileName.IsUnitypackageNameIff | src/main/java/unitypackage/viewer/gui/UnitypackageFileName.java:30-32 | accepted exactly when the last 13 characters spell `.unitypackage` in any case |
| UnitypackageFileName.CaseInsensitive | src/main/java/unitypackage/viewer/gui/UnitypackageFileName.java:30-32 | changing the case of the name does not change the verdict |
| UnitypackageFileName.ShortNamesRefused | src/main/java/unitypackage/viewer/gui/UnitypackageFileName.java:30-32 | names shorter than the extension are refused; the bare extension is accepted in any case |
| UnitypackageFileName.AcceptIff | src/main/java/unitypackage/viewer/gui/UnitypackageFileName.java:26-39 | the filter shows every directory, and among regular files exactly the package files |
| UnitypackageGuiModel.Group | src/main/java/unitypackage/viewer/gui/model/UnitypackageGuiModel.java:98-100 | a group holds exactly the assets of that kind |
| UnitypackageGuiModel.GroupPartitions | src/main/java/unitypackage/viewer/gui/model/UnitypackageGuiModel.java:98-100 | together the two groups hold every asset as often as it occurs |
| UnitypackageGuiModel.UnityAssetCompare | src/main/java/unitypackage/viewer/gui/model/UnitypackageGuiModel.java:79-85 | zero exactly when the two full paths are equal |
| UnitypackageGuiModel.AssetOrderTotal | src/main/java/unitypackage/viewer/gui/model/UnitypackageGuiModel.java:79-85 | on assets with a full path the comparator is a total preorder |
| UnitypackageGuiModel.SortAssets | src/main/java/unitypackage/viewer/gui/model/UnitypackageGuiModel.java:101-105 | sorting the assets rearranges them |
| UnitypackageGuiModel.SortAssetsByPath | src/main/java/unitypackage/viewer/gui/model/UnitypackageGuiModel.java:101-105 | the sorted assets come in `compareTo` order of their full paths |
| UnitypackageGuiModel.FirstDirectoryNamed | src/main/java/unitypackage/viewer/gui/model/UnitypackageGuiModel.java:146-158 | the first Directory child with the name, skipping Assets; none exactly when no child is a Directory of that name |
| UnitypackageGuiModel.FindOrCreate | src/main/java/unitypackage/viewer/gui/model/UnitypackageGuiModel.java:143-164 | an existing Directory child of that name with the tree unchanged, or else a new empty Directory of that name added as the last child |
| UnitypackageGuiModel.FindOrCreateKeepsNamesUnique | src/main/java/unitypackage/viewer/gui/model/UnitypackageGuiModel.java:143-164 | finding before creating never makes a second Directory of one name under one parent |
| UnitypackageGuiModel.Walk | src/main/java/unitypackage/viewer/gui/model/UnitypackageGuiModel.java:109-115 | the walk ends at a Directory and adds only Directories |
| UnitypackageGuiModel.WalkSpells | src/main/java/unitypackage/viewer/gui/model/UnitypackageGuiModel.java:109-115 | the walk ends at a Directory below the start whose names from the start spell the path |
| UnitypackageGuiModel.WalkKeepsNamesUnique | src/main/java/unitypackage/viewer/gui/model/UnitypackageGuiModel.java:109-115 | walking keeps the Directory names under every parent distinct |
| UnitypackageGuiModel.AddAlong | src/main/java/unitypackage/viewer/gui/model/UnitypackageGuiModel.java:125-134 | walking a file's directories and adding the file yields a grown tree whose new last node is the file's Asset |
| UnitypackageGuiModel.AddAlongSpells | src/main/java/unitypackage/viewer/gui/model/UnitypackageGuiModel.java:125-134 | the added Asset is spelled by the file's directories and its own name |
| UnitypackageGuiModel.AttachAlongAttaches | src/main/java/unitypackage/viewer/gui/model/UnitypackageGuiModel.java:108-117 | the Directory the path spells holds the asset, and every old node the path does not spell keeps its asset |
| UnitypackageGuiModel.PlaceDirectories | src/main/java/unitypackage/viewer/gui/model/UnitypackageGuiModel.java:103-119 | the directory loop: the tree stays valid and only grows, no old node moving; `PlaceDirectoriesKeeps` and `PlaceDirectoriesAttach` state where each asset ends up |
| UnitypackageGuiModel.PlaceFiles | src/main/java/unitypackage/viewer/gui/model/UnitypackageGuiModel.java:123-136 | the file loop: the tree only grows, and each file gets a new Asset node of its own, in loop order |
| UnitypackageGuiModel.Placed | src/main/java/unitypackage/viewer/gui/model/UnitypackageGuiModel.java:96-136 | the tree before `recursiveSort()`: valid, with the new Asset node of each file asset in the order the file loop visits them |
| UnitypackageGuiModel.PlaceFilesSpell | src/main/java/unitypackage/viewer/gui/model/UnitypackageGuiModel.java:123-136 | each placed file's Asset node is spelled by that file's whole full path |
| UnitypackageGuiModel.PlaceFilesAssets | src/main/java/unitypackage/viewer/gui/model/UnitypackageGuiModel.java:123-136 | the only Asset nodes the file loop adds are the placed files' own |
| UnitypackageGuiModel.PlaceDirectoriesKeeps | src/main/java/unitypackage/viewer/gui/model/UnitypackageGuiModel.java:103-119 | the directory loop changes only nodes that some directory asset's path spells |
| UnitypackageGuiModel.PlaceDirectoriesAttach | src/main/java/unitypackage/viewer/gui/model/UnitypackageGuiModel.java:103-119 | a directory asset whose path no later directory asset repeats ends up attached where its path leads: of several with one path, the last wins |
| UnitypackageGuiModel.BuildForest | src/main/java/unitypackage/viewer/gui/model/UnitypackageGuiModel.java:90-141 | fails with the null list exactly when there is no file asset, fails on a missing path exactly when some asset has no full path or some file asset no file name, fails with `InvalidPath` exactly when otherwise some full path holds a NUL, and otherwise gives a valid tree with the Asset node of every file |
| UnitypackageGuiModel.NulPathnameRefused | src/main/java/unitypackage/viewer/gui/model/UnitypackageGuiModel.java:110 | a full path holding a NUL makes the package fail with `InvalidPath`, as `Paths.get` throws |
| UnitypackageGuiModel.RootPathnameFileRefused | src/main/java/unitypackage/viewer/gui/model/UnitypackageGuiModel.java:126-135 | a file asset whose full path is `/` makes the package fail with the missing-path error |
| UnitypackageGuiModel.BuildForestFiles | src/main/java/unitypackage/viewer/gui/model/UnitypackageGuiModel.java:123-138 | the built tree has one Asset node per file asset, reached through Directories named by its path's elements, and no other Asset node |
| UnitypackageGuiModel.BuildForestDirectory | src/main/java/unitypackage/viewer/gui/model/UnitypackageGuiModel.java:103-119 | the Directory a directory asset's path spells holds it, unless a later directory asset has the same path |
| UnitypackageGuiModel.BuildForestDirectories | src/main/java/unitypackage/viewer/gui/model/UnitypackageGuiModel.java:103-119 | every directory asset's path spells a Directory holding a directory asset of that path |
| UnitypackageGuiModel.BuildForestUniqueNames | src/main/java/unitypackage/viewer/gui/model/UnitypackageGuiModel.java:90-141 | no Directory of the built tree has two Directory children of one name |
| UnitypackageGuiModel.BuildForestSorted | src/main/java/unitypackage/viewer/gui/model/UnitypackageGuiModel.java:138 | every Directory's children come in sibling order |
| UnitypackageGuiModel.Hit | src/main/java/unitypackage/viewer/gui/model/UnitypackageGuiModel.java:66 | the test of `search`: the lowercased search string contains the lowercased query |
| UnitypackageGuiModel.Matches | src/main/java/unitypackage/viewer/gui/model/UnitypackageGuiModel.java:60-69 | the hits of the search loop in search-node order, before sorting; `MatchesExactly` and `MatchesAppend` state what it holds |
| UnitypackageGuiModel.MatchesExactly | src/main/java/unitypackage/viewer/gui/model/UnitypackageGuiModel.java:65-69 | a node yields a result exactly when it is a search node and a hit |
| UnitypackageGuiModel.MatchesAppend | src/main/java/unitypackage/viewer/gui/model/UnitypackageGuiModel.java:65-69 | searching more nodes appends their results after the earlier ones |
| UnitypackageGuiModel.EmptyQueryMatchesAll | src/main/java/unitypackage/viewer/gui/model/UnitypackageGuiModel.java:65-69 | the empty query finds every search node, in order |
| UnitypackageGuiModel.MatchesIgnoresCase | src/main/java/unitypackage/viewer/gui/model/UnitypackageGuiModel.java:66 | queries that agree up to case find the same results |
| UnitypackageGuiModel.SearchSorted | src/main/java/unitypackage/viewer/gui/model/UnitypackageGuiModel.java:71 | the sorted results are in result order and are a permutation of the hits |
| UnitypackageGuiModel.UnitypackageGuiModel.constructor | src/main/java/unitypackage/viewer/gui/model/UnitypackageGuiModel.java:42-58 | no package read and no search nodes |
| UnitypackageGuiModel.FindOrCreateDirectoryNode | src/main/java/unitypackage/viewer/gui/model/UnitypackageGuiModel.java:143-164 | the scan on the tree object does what `FindOrCreate` says |
| UnitypackageGuiModel.WalkDirectories | src/main/java/unitypackage/viewer/gui/model/UnitypackageGuiModel.java:109-115 | the inner loop on the tree object does what `Walk` says |
| UnitypackageGuiModel.PlaceDirectoryAssets | src/main/java/unitypackage/viewer/gui/model/UnitypackageGuiModel.java:103-119 | the directory loop on the tree object does what `PlaceDirectories` says |
| UnitypackageGuiModel.AddFileAsset | src/main/java/unitypackage/viewer/gui/model/UnitypackageGuiModel.java:125-134 | one round of the file loop on the tree object does what `AddAlong` says |
| UnitypackageGuiModel.UnitypackageGuiModel.AddFileAssets | src/main/java/unitypackage/viewer/gui/model/UnitypackageGuiModel.java:123-136 | the file loop does what `PlaceFiles` says, and appends the new Asset node of every file to the search nodes |
| UnitypackageGuiModel.UnitypackageGuiModel.BuildTreeModel | src/main/java/unitypackage/viewer/gui/model/UnitypackageGuiModel.java:90-141 | an unreadable package changes nothing; a read package becomes current; a buildable tree is returned as `BuildForest` describes and its file nodes are appended to the search nodes |
| UnitypackageGuiModel.UnitypackageGuiModel.Search | src/main/java/unitypackage/viewer/gui/model/UnitypackageGuiModel.java:60-74 | the hits among the search nodes, sorted in result order |
| UnitypackageGuiModel.UnitypackageGuiModel.ExtractFile | src/main/java/unitypackage/viewer/gui/model/UnitypackageGuiModel.java:48-52 | with no package read, the null-pointer error; otherwise the payload cursor `getFileStream` gives, or its error |

## Left out

- Gzip and tar decoding, `ImageIO.read` and file I/O. These are parameters: an archive is the sequence of its entries, each with its decoded text and image outcome. The byte copy in `extractFile` is not modelled.
- Character handling. `toLowerCase` and `toUpperCase` are ASCII only. `String.format` with `%,d` writes sizes as plain decimal digits, without the locale's grouping.
- `JavaString.CompareTo`: compares Unicode code points, while Java's `String.compareTo` compares UTF-16 code units. The two agree on strings within the Basic Multilingual Plane, and on any two characters both below U+E000. A character above U+FFFF is stored as a surrogate pair starting with a unit in U+D800–U+DBFF, which Java places before U+E000–U+FFFF and the model after it (`"\uFF21".compareTo("\uD83D\uDE00")` is positive in Java, and `CompareTo` of the same two characters is negative). So for names holding supplementary characters, four orders can differ from the program:
  - the `TreeMap` key order (`Sorting.InsertKey`, `UnityPackage.Put`, `UnityPackage.AssetsOf`, `UnityPackage.IndexAssets`, `UnitypackageReader.IndexLegacy`);
  - the path sort (`UnitypackageGuiModel.UnityAssetCompare`, `UnitypackageGuiModel.SortAssetsByPath`);
  - the sibling order (`UnityTreeNode.CompareNodes`);
  - the result order (`SearchResult.CompareResults`).
- `UnitypackageGuiModel.UnitypackageGuiModel.BuildTreeModel`: the `DefaultTreeModel` and every Swing rendering (`toString` HTML, date formatting, the preview image) are left out. The method returns the built tree object.
- `getCurrentUnitypackage` returns a `File`. The model keeps the opened package instead.
- Node identity is an index into the tree arena instead of a Java object reference. `SearchResult.GetTreeNodePath` returns node indexes.
- The strict GUID-mismatch mode (`STRICT`, off in the source) and the console messages are not modelled. A mismatch is tolerated, as with strict mode off.
- `UnitypackageGuiModel.BuildForest`: Java throws `NullPointerException` on an asset without a `pathname`, at the sort, the comparator or the walk, possibly after some nodes have been added. The model refuses such a package up front with `MissingPathname`, before any node is added. A file asset whose full path has no name element (`/`) is refused the same way, which Java does not do. Java's walk does not run for it, and `new Asset` does not ask for its file name, so the Asset is added at the root. `recursiveSort` compares it only with another Asset at the root, so a package whose only root Asset it is builds normally, and the exception comes later, in `search` or when the node is shown. The model refuses the whole package instead, because its tree nodes always have a name. A full path holding a NUL makes `Paths.get` throw `InvalidPathException` in one of the two loops. The model refuses that package up front with `InvalidPath`. When a package has both a missing path and a NUL, the model reports the missing path, whichever Java meets first.
- `UnitypackageGuiModel.UnitypackageGuiModel.BuildTreeModel`: when `BuildForest` fails, the model leaves the search nodes unchanged. Java may already have appended some nodes before it throws.
- `UnitypackageGuiModel.Hit`: a node's search string is always defined. The Java null cases lead to the refusal above.
- Repeated `buildTreeModel` calls accumulate search nodes across packages, as in the source. The model says so in its contract and does not reset them.
- `PathNames.NameElements`: a leading `/` of an absolute path is dropped, and no root component is kept. An entry whose name has no element at all (the empty name, or only slashes) is refused with `EmptyName`. Java may refuse such a name with a different message, or not at all. This changes how absolute entry names are classified. Java sees the parent `/` for the entry `/g/` and refuses it as a nested directory, while `UnityPackage.Classify` and `UnitypackageReader.ClassifyLegacy` accept it as the directory `g`. Java files `/g/asset` under the key `/g`, while the model files it under `g`. A NUL character is an ordinary character in a name element, where `Paths.get` refuses it. For an entry name (UnityPackage.java:63) the model does not refuse it; a name read from a tar header's name field ends at its first NUL. A `pathname` member holding one is refused by `UnitypackageGuiModel.BuildForest` (see above).
- `addFileFoundInDirectory` (UnityAssetBuilder.java:143-170) has no duplicate check. A second member of the same kind in one directory overwrites the first, and the model does the same.
- Thread safety, and the `TreeMap` of `UnityArchiveInputStream` as a data structure. The registration is a `map` value keyed by payload path.
