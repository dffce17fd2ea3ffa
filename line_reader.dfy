/**
 * `BufferedReader.lines()` over already decoded text: a line ends at `\n`, at `\r`,
 * or at the pair `\r\n`, and the end of the text closes the last line without
 * adding an empty one.
 */
module LineReader {

  predicate IsTerminator(c: char) {
    c == '\n' || c == '\r'
  }

  predicate NoTerminator(s: string) {
    forall i :: 0 <= i < |s| ==> !IsTerminator(s[i])
  }

  /** The three line breaks `BufferedReader` recognises. */
  predicate IsLineBreak(term: string) {
    term == "\n" || term == "\r" || term == "\r\n"
  }

  /** Position of the first terminator of `s`, or `|s|` when there is none. */
  function LineEnd(s: string): (n: nat)
    ensures n <= |s|
    ensures NoTerminator(s[..n])
    ensures n < |s| ==> IsTerminator(s[n])
    decreases |s|
  {
    if s == [] || IsTerminator(s[0]) then 0
    else
      var m := LineEnd(s[1..]);
      assert s[..1 + m] == [s[0]] + s[1..][..m];
      1 + m
  }

  /** The lines of `s`, as `new BufferedReader(...).lines().collect(toList())` yields them. */
  function Lines(s: string): seq<string>
    decreases |s|
  {
    if s == [] then []
    else
      var n := LineEnd(s);
      if n == |s| then [s]
      else if s[n] == '\r' && n + 1 < |s| && s[n + 1] == '\n' then [s[..n]] + Lines(s[n + 2..])
      else [s[..n]] + Lines(s[n + 1..])
  }

  /** Lines written one after the other, each followed by `term`. */
  function Joined(ls: seq<string>, term: string): string {
    if ls == [] then "" else ls[0] + term + Joined(ls[1..], term)
  }

  /** No line returned contains a terminator. */
  lemma {:induction false} LinesHaveNoTerminator(s: string)
    ensures forall i :: 0 <= i < |Lines(s)| ==> NoTerminator(Lines(s)[i])
    decreases |s|
  {
    if s != [] {
      var n := LineEnd(s);
      if n < |s| {
        if s[n] == '\r' && n + 1 < |s| && s[n + 1] == '\n' {
          LinesHaveNoTerminator(s[n + 2..]);
        } else {
          LinesHaveNoTerminator(s[n + 1..]);
        }
      }
    }
  }

  /** Only the empty text has no lines; text without a terminator is one line. */
  lemma LinesOfSingleLine(s: string)
    requires NoTerminator(s)
    ensures Lines(s) == if s == "" then [] else [s]
  {
    if s != "" {
      assert LineEnd(s) == |s|;
    }
  }

  /** Reading stops the first line exactly at its terminator. */
  lemma LineEndAtBreak(l: string, rest: string)
    requires NoTerminator(l) && rest != [] && IsTerminator(rest[0])
    ensures LineEnd(l + rest) == |l|
  {
    var s := l + rest;
    assert s[|l|] == rest[0];
    assert forall i :: 0 <= i < |l| ==> s[i] == l[i];
    assert s[..|l| + 1][|l|] == rest[0];
  }

  lemma LinesCons(l: string, term: string, rest: string)
    requires NoTerminator(l) && IsLineBreak(term)
    requires term == "\r" ==> rest == [] || rest[0] != '\n'
    ensures Lines(l + term + rest) == [l] + Lines(rest)
  {
    var s := l + (term + rest);
    assert s == l + term + rest;
    LineEndAtBreak(l, term + rest);
    var n := |l|;
    assert s[..n] == l;
    assert s[n..] == term + rest;
    if term == "\r\n" {
      assert s[n] == '\r' && s[n + 1] == '\n';
      assert s[n + 2..] == rest;
    } else if term == "\n" {
      assert s[n] == '\n';
      assert s[n + 1..] == rest;
    } else {
      assert s[n] == '\r';
      assert s[n + 1..] == rest;
      assert n + 1 < |s| ==> s[n + 1] == rest[0];
    }
  }

  /** What follows a joined block never starts with `\n` when lines end in a lone `\r`. */
  lemma JoinedHead(ls: seq<string>, tail: string)
    requires ls != [] ==> NoTerminator(ls[0])
    requires NoTerminator(tail)
    ensures Joined(ls, "\r") + tail == [] || (Joined(ls, "\r") + tail)[0] != '\n'
  {
    if ls != [] {
      var j := Joined(ls[1..], "\r");
      assert Joined(ls, "\r") + tail == ls[0] + ("\r" + j + tail);
      if ls[0] != [] {
        assert (Joined(ls, "\r") + tail)[0] == ls[0][0];
      } else {
        assert (Joined(ls, "\r") + tail)[0] == '\r';
      }
    } else {
      assert Joined(ls, "\r") + tail == tail;
    }
  }

  /**
   * Reading back lines written with any of the three line breaks gives the same lines,
   * followed by the unterminated remainder when there is one, and never an empty
   * trailing line.
   */
  lemma {:induction false} LinesRoundTrip(ls: seq<string>, term: string, tail: string)
    requires IsLineBreak(term)
    requires forall i :: 0 <= i < |ls| ==> NoTerminator(ls[i])
    requires NoTerminator(tail)
    ensures Lines(Joined(ls, term) + tail) == ls + (if tail == "" then [] else [tail])
  {
    if ls == [] {
      assert Joined(ls, term) + tail == tail;
      LinesOfSingleLine(tail);
    } else {
      var rest := Joined(ls[1..], term) + tail;
      assert Joined(ls, term) + tail == ls[0] + term + rest;
      if term == "\r" {
        JoinedHead(ls[1..], tail);
      }
      LinesCons(ls[0], term, rest);
      LinesRoundTrip(ls[1..], term, tail);
      assert ls == [ls[0]] + ls[1..];
    }
  }
}
