/**
 * Paths as `java.nio.file.Path` and `java.io.File` see them on a Unix system: the
 * name elements are the `/`-separated pieces of the string, with empty pieces
 * dropped, and a path prints as its elements joined by `/`.
 */
module PathNames {
  import opened Wrappers

  /** A name element: not empty and free of separators. */
  predicate ValidSegment(s: string) {
    s != "" && NoSlash(s)
  }

  predicate AllValid(segs: seq<string>) {
    forall i :: 0 <= i < |segs| ==> ValidSegment(segs[i])
  }

  /** Splits `p` at every `/`, with `cur` the part of the current element read so far. */
  function SegmentsFrom(p: string, cur: string): seq<string>
    decreases |p|
  {
    if p == [] then (if cur == "" then [] else [cur])
    else if p[0] == '/' then (if cur == "" then [] else [cur]) + SegmentsFrom(p[1..], "")
    else SegmentsFrom(p[1..], cur + [p[0]])
  }

  /** The name elements of `p` (`getNameCount()` of them, `getName(i)` each). */
  function Segments(p: string): seq<string> {
    SegmentsFrom(p, "")
  }

  /** `toString()` of a relative path with the given elements. */
  function Join(segs: seq<string>): string {
    if segs == [] then ""
    else if |segs| == 1 then segs[0]
    else segs[0] + "/" + Join(segs[1..])
  }

  /**
   * The name elements of `Paths.get(p)`: as `Segments`, except that the empty path
   * has one element, the empty name.
   */
  function NameElements(p: string): (r: seq<string>)
    ensures p != "" ==> r == Segments(p)
    ensures p == "" ==> r == [""]
  {
    if p == "" then [""] else Segments(p)
  }

  /** `getFileName()`: the last name element, or `None` (Java's null) for a path with none. */
  function FileName(p: string): Option<string> {
    var elements := NameElements(p);
    if elements == [] then None else Some(elements[|elements| - 1])
  }

  predicate NoSlash(s: string) {
    forall i :: 0 <= i < |s| ==> s[i] != '/'
  }

  lemma {:induction false} SegmentsFromValid(p: string, cur: string)
    requires NoSlash(cur)
    ensures AllValid(SegmentsFrom(p, cur))
    decreases |p|
  {
    if p != [] {
      if p[0] == '/' {
        SegmentsFromValid(p[1..], "");
      } else {
        SegmentsFromValid(p[1..], cur + [p[0]]);
      }
    }
  }

  /** Every element is a valid name. */
  lemma SegmentsValid(p: string)
    ensures AllValid(Segments(p))
  {
    SegmentsFromValid(p, "");
  }

  lemma {:induction false} SegmentsFromName(s: string, cur: string)
    requires NoSlash(s) && cur + s != ""
    ensures SegmentsFrom(s, cur) == [cur + s]
    decreases |s|
  {
    if s != [] {
      assert cur + s == (cur + [s[0]]) + s[1..];
      SegmentsFromName(s[1..], cur + [s[0]]);
    } else {
      assert cur + s == cur;
    }
  }

  lemma SegmentsOfName(s: string)
    requires ValidSegment(s)
    ensures Segments(s) == [s]
  {
    SegmentsFromName(s, "");
    assert "" + s == s;
  }

  lemma {:induction false} SegmentsFromConcat(a: string, b: string, cur: string)
    ensures SegmentsFrom(a + "/" + b, cur) == SegmentsFrom(a, cur) + Segments(b)
    decreases |a|
  {
    var s := a + "/" + b;
    if a == [] {
      assert s[0] == '/' && s[1..] == b;
    } else {
      assert s[0] == a[0];
      assert s[1..] == a[1..] + "/" + b;
      if a[0] == '/' {
        SegmentsFromConcat(a[1..], b, "");
      } else {
        SegmentsFromConcat(a[1..], b, cur + [a[0]]);
      }
    }
  }

  /** A separator between two strings separates their elements. */
  lemma SegmentsConcat(a: string, b: string)
    ensures Segments(a + "/" + b) == Segments(a) + Segments(b)
  {
    SegmentsFromConcat(a, b, "");
  }

  /** Printing a path and reading it back gives the same elements. */
  lemma {:induction false} SegmentsJoin(segs: seq<string>)
    requires AllValid(segs)
    ensures Segments(Join(segs)) == segs
  {
    if |segs| == 1 {
      SegmentsOfName(segs[0]);
    } else if |segs| > 1 {
      SegmentsConcat(segs[0], Join(segs[1..]));
      SegmentsOfName(segs[0]);
      SegmentsJoin(segs[1..]);
      assert segs == [segs[0]] + segs[1..];
    }
  }

  /** A trailing separator, as on tar directory entries, changes no element. */
  lemma TrailingSlash(p: string)
    ensures Segments(p + "/") == Segments(p)
  {
    SegmentsConcat(p, "");
    assert p + "/" + "" == p + "/";
  }

  /** The file name of a printed path is its last element. */
  lemma FileNameJoin(segs: seq<string>)
    requires AllValid(segs) && segs != []
    ensures FileName(Join(segs)) == Some(segs[|segs| - 1])
  {
    SegmentsJoin(segs);
    assert Join(segs) != "";
  }
}
