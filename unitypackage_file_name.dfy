/** The test the file chooser and the drop target apply to a file name. */
module UnitypackageFileName {
  import opened JavaString

  const Extension: string := ".unitypackage"

  /** `isUnitypackage(fileName)`: the lowercased name ends with `.unitypackage`. */
  predicate IsUnitypackageName(fileName: string) {
    EndsWith(ToLower(fileName), Extension)
  }

  /** `isUnitypackage(file)`: a regular file with such a name. */
  predicate IsUnitypackage(isFile: bool, fileName: string) {
    isFile && IsUnitypackageName(fileName)
  }

  /** `UnitypackageFileFilter.accept(f)`: everything that is not a regular file, and package files. */
  predicate Accept(isFile: bool, fileName: string) {
    !isFile || IsUnitypackage(isFile, fileName)
  }

  /** Exactly the names whose last 13 characters spell `.unitypackage` in any mix of cases. */
  lemma IsUnitypackageNameIff(fileName: string)
    ensures IsUnitypackageName(fileName) <==>
      |fileName| >= |Extension| && ToLower(fileName[|fileName| - |Extension|..]) == Extension
  {
    if |fileName| >= |Extension| {
      ToLowerSlice(fileName, |fileName| - |Extension|, |fileName|);
    }
  }

  /** Changing the case of a name does not change the verdict. */
  lemma CaseInsensitive(fileName: string)
    ensures IsUnitypackageName(ToUpper(fileName)) == IsUnitypackageName(fileName)
    ensures IsUnitypackageName(ToLower(fileName)) == IsUnitypackageName(fileName)
  {
    ToLowerForgetsUpper(fileName);
    ToLowerIdempotent(fileName);
  }

  /** A name shorter than the extension is refused; the bare extension, in any case, is accepted. */
  lemma ShortNamesRefused(fileName: string)
    ensures |fileName| < 13 ==> !IsUnitypackageName(fileName)
    ensures IsUnitypackageName(Extension) && IsUnitypackageName(ToUpper(Extension))
  {
    assert ToLower(Extension) == Extension;
    CaseInsensitive(Extension);
  }

  /** The filter shows every directory, and among regular files exactly the package files. */
  lemma AcceptIff(isFile: bool, fileName: string)
    ensures !isFile ==> Accept(isFile, fileName)
    ensures isFile ==> (Accept(isFile, fileName) <==> IsUnitypackageName(fileName))
    ensures IsUnitypackage(isFile, fileName) ==> Accept(isFile, fileName)
  {
  }
}
