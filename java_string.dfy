/**
 * The few java.lang.String operations the viewer relies on, over Dafny strings.
 *
 * Characters are Dafny characters; Java compares UTF-16 code units, which agree with
 * them on the Basic Multilingual Plane. `toLowerCase` is modelled as ASCII case folding.
 */
module JavaString {
  import opened Wrappers

  /** `Character.toLowerCase` restricted to ASCII letters. */
  function LowerChar(c: char): char {
    if 'A' <= c <= 'Z' then (c as int + 32) as char else c
  }

  function UpperChar(c: char): char {
    if 'a' <= c <= 'z' then (c as int - 32) as char else c
  }

  /** `String.toLowerCase()`. */
  function ToLower(s: string): string {
    seq(|s|, i requires 0 <= i < |s| => LowerChar(s[i]))
  }

  /** `String.toUpperCase()`, used only to state that lower-casing forgets case. */
  function ToUpper(s: string): string {
    seq(|s|, i requires 0 <= i < |s| => UpperChar(s[i]))
  }

  /** `s.startsWith(prefix)`. */
  predicate StartsWith(s: string, prefix: string) {
    |prefix| <= |s| && s[..|prefix|] == prefix
  }

  /** `s.endsWith(suffix)`. */
  predicate EndsWith(s: string, suffix: string) {
    |suffix| <= |s| && s[|s| - |suffix|..] == suffix
  }

  /** A concatenation starts with its first part and ends with its second. */
  lemma ConcatAffixes(a: string, b: string)
    ensures StartsWith(a + b, a) && EndsWith(a + b, b)
  {
    assert (a + b)[..|a|] == a;
    assert (a + b)[|a|..] == b;
  }

  /** `s.contains(t)`: some suffix of `s` starts with `t`. */
  predicate Contains(s: string, t: string)
    decreases |s|
  {
    StartsWith(s, t) || (s != [] && Contains(s[1..], t))
  }

  /**
   * `a.compareTo(b)`: the difference of the first differing characters, or the
   * difference of the lengths when one string is a prefix of the other.
   */
  function CompareTo(a: string, b: string): int
    decreases |a|
  {
    if a == [] || b == [] then |a| - |b|
    else if a[0] != b[0] then a[0] as int - b[0] as int
    else CompareTo(a[1..], b[1..])
  }

  function DigitChar(d: nat): char
    requires d < 10
  {
    "0123456789"[d]
  }

  function NatToString(n: nat): string
    decreases n
  {
    if n < 10 then [DigitChar(n)] else NatToString(n / 10) + [DigitChar(n % 10)]
  }

  /** `Long.toString(n)`, the `%d` conversion without locale digit grouping. */
  function IntToString(n: int): string {
    if n < 0 then "-" + NatToString(-n) else NatToString(n)
  }

  /** `String.valueOf` of a string reference that may be null, as string concatenation prints it. */
  function ValueOf(o: Option<string>): string {
    if o.Some? then o.value else "null"
  }

  // ---------------------------------------------------------------------------
  // Case folding

  lemma ToLowerIdempotent(s: string)
    ensures ToLower(ToLower(s)) == ToLower(s)
  {
  }

  lemma ToLowerConcat(a: string, b: string)
    ensures ToLower(a + b) == ToLower(a) + ToLower(b)
  {
    var l, r := ToLower(a + b), ToLower(a) + ToLower(b);
    assert |l| == |r|;
    forall i | 0 <= i < |l| ensures l[i] == r[i] {
      if i < |a| { assert (a + b)[i] == a[i]; } else { assert (a + b)[i] == b[i - |a|]; }
    }
  }

  lemma ToLowerSlice(s: string, i: nat, j: nat)
    requires i <= j <= |s|
    ensures ToLower(s[i..j]) == ToLower(s)[i..j]
  {
  }

  /** Lower-casing forgets the case of every letter. */
  lemma ToLowerForgetsUpper(s: string)
    ensures ToLower(ToUpper(s)) == ToLower(s)
  {
    var l, r := ToLower(ToUpper(s)), ToLower(s);
    forall i | 0 <= i < |s| ensures l[i] == r[i] {
      var c := s[i];
      if 'a' <= c <= 'z' {
        assert UpperChar(c) as int == c as int - 32;
      } else if 'A' <= c <= 'Z' {
        assert UpperChar(c) == c;
      }
    }
  }

  // ---------------------------------------------------------------------------
  // Substrings

  /** `t` occurs in `s` at position `i`. */
  predicate OccursAt(s: string, t: string, i: int) {
    0 <= i && i + |t| <= |s| && s[i..i + |t|] == t
  }

  lemma SliceOfTail(s: string, i: int, n: nat)
    requires 1 <= i && i + n <= |s|
    ensures s[1..][i - 1..i - 1 + n] == s[i..i + n]
  {
    var a, b := s[1..][i - 1..i - 1 + n], s[i..i + n];
    forall k | 0 <= k < n ensures a[k] == b[k] {
      assert s[1..][i - 1 + k] == s[i + k];
    }
  }

  /** `contains` holds exactly when `t` occurs at some position of `s`. */
  lemma {:induction false} ContainsIff(s: string, t: string)
    ensures Contains(s, t) <==> exists i :: OccursAt(s, t, i)
    decreases |s|
  {
    if StartsWith(s, t) {
      assert OccursAt(s, t, 0);
    } else if s != [] {
      ContainsIff(s[1..], t);
      if Contains(s[1..], t) {
        var i :| OccursAt(s[1..], t, i);
        SliceOfTail(s, i + 1, |t|);
        assert OccursAt(s, t, i + 1);
      } else {
        forall i | 0 < i ensures !OccursAt(s, t, i) {
          if i + |t| <= |s| {
            SliceOfTail(s, i, |t|);
            assert !OccursAt(s[1..], t, i - 1);
          }
        }
        assert !OccursAt(s, t, 0);
      }
    }
  }

  /** The empty string occurs in every string, so an empty query matches everything. */
  lemma ContainsEmpty(s: string)
    ensures Contains(s, "")
  {
  }

  // ---------------------------------------------------------------------------
  // compareTo is a total order on strings

  lemma {:induction false} CompareToZeroIffEqual(a: string, b: string)
    ensures CompareTo(a, b) == 0 <==> a == b
    decreases |a|
  {
    if a != [] && b != [] && a[0] == b[0] {
      CompareToZeroIffEqual(a[1..], b[1..]);
      if a[1..] == b[1..] {
        assert a == [a[0]] + a[1..] && b == [b[0]] + b[1..];
      }
    }
  }

  lemma {:induction false} CompareToAntisymmetric(a: string, b: string)
    ensures CompareTo(b, a) == -CompareTo(a, b)
    decreases |a|
  {
    if a != [] && b != [] && a[0] == b[0] {
      CompareToAntisymmetric(a[1..], b[1..]);
    }
  }

  lemma {:induction false} CompareToTransitive(a: string, b: string, c: string)
    requires CompareTo(a, b) <= 0 && CompareTo(b, c) <= 0
    ensures CompareTo(a, c) <= 0
    decreases |a|
  {
    if a != [] && b != [] && c != [] && a[0] == b[0] && b[0] == c[0] {
      CompareToTransitive(a[1..], b[1..], c[1..]);
    }
  }

  lemma CompareToStrictTransitive(a: string, b: string, c: string)
    requires CompareTo(a, b) < 0 && CompareTo(b, c) < 0
    ensures CompareTo(a, c) < 0
  {
    CompareToTransitive(a, b, c);
    if CompareTo(a, c) == 0 {
      CompareToZeroIffEqual(a, c);
      CompareToAntisymmetric(a, b);
    }
  }

  lemma StartsWithTail(x: string, y: string)
    requires x != [] && y != [] && x[0] == y[0]
    ensures StartsWith(x, y) <==> StartsWith(x[1..], y[1..])
  {
    if StartsWith(x[1..], y[1..]) {
      assert x[..|y|] == [x[0]] + x[1..][..|y| - 1];
      assert y == [y[0]] + y[1..];
    }
    if StartsWith(x, y) {
      assert x[1..][..|y| - 1] == x[..|y|][1..];
    }
  }

  /**
   * When neither string is a prefix of the other, what follows them does not matter:
   * the comparison is decided inside the common length.
   */
  lemma {:induction false} CompareToDecidedBeforeEnd(x: string, y: string, s: string, t: string)
    requires !StartsWith(x, y) && !StartsWith(y, x)
    ensures CompareTo(x + s, y + t) == CompareTo(x, y)
    decreases |x|
  {
    assert x != [] && y != [];
    assert (x + s)[0] == x[0] && (y + t)[0] == y[0];
    if x[0] == y[0] {
      assert (x + s)[1..] == x[1..] + s && (y + t)[1..] == y[1..] + t;
      StartsWithTail(x, y);
      StartsWithTail(y, x);
      CompareToDecidedBeforeEnd(x[1..], y[1..], s, t);
    }
  }
}
