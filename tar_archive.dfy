/**
 * The archive as the indexer sees it: the entries a `TarArchiveInputStream` yields, in
 * order, with the text of each member already decoded, and the errors the indexer and
 * its callers raise.
 */
module TarArchive {

  /** A decoded preview picture; its pixels play no part in the indexing logic. */
  datatype Image = Image(pixels: seq<int>)

  /** What `ImageIO.read` makes of a `preview.png` member. */
  datatype ImageDecode =
    | Decoded(image: Image)
    | NoReader      // no image reader claims the data: `ImageIO.read` returns null
    | Unreadable    // the data is corrupt: `ImageIO.read` throws IOException

  /**
   * One tar entry: `getName()`, `isDirectory()`, `getRealSize()`,
   * `getLastModifiedDate()` in milliseconds, the member's text, and how its
   * bytes decode as an image.
   */
  datatype Entry = Entry(
    name: string,
    isDirectory: bool,
    size: int,
    mtime: int,
    content: string,
    image: ImageDecode)

  /** The exceptions thrown while indexing or extracting, one constructor per throw site. */
  datatype Error =
    | DirectoryMismatch(given: string, expected: string)   // IllegalArgumentException of assertGuidMatchesDirectoryName
    | UnrecognizedMember(tarPath: string)                  // "File name not recognized"
    | GuidNotFound(tarPath: string, lineCount: nat)        // "Couldn't find GUID among the n lines"
    | EmptyFile(tarPath: string)                           // "File is empty"
    | UnexpectedLineCount(tarPath: string, lineCount: nat) // "File expected to have 1 line"
    | PreviewUnreadable(tarPath: string)                   // IOException from ImageIO.read
    | RootPath(tarPath: string)                            // "Found root path that is not a directory or .icon.png"
    | NestedDirectory(tarPath: string)                     // "Found nested directory"
    | BadSubpath(tarPath: string)                          // IllegalArgumentException of Path.subpath
    | EmptyName(tarPath: string)                           // a name with no element at all
    | ShouldNeverHappen                                    // "This should never happen"
    | AssetNotFound(fullPath: string)                      // "Could not find asset"
    | MissingPathname                                      // NullPointerException on an asset without a pathname
    | InvalidPath                                          // InvalidPathException of Paths.get: a NUL in a pathname
    | NoFileAssets                                         // NullPointerException at fileEntries.sort
    | NoPackageOpen                                        // NullPointerException: no package has been read yet
}
