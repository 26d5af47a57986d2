/**
 * The two string operations the merge compares lines with: Rust's `<` on
 * `str` and the lower-casing used under `ignore_case`.
 */
module Strings {

  /**
   * Rust's `<` on `str`: lexicographic order, where a proper prefix comes
   * first. Rust compares the UTF-8 bytes; byte order on UTF-8 agrees with
   * code-point order, so comparing `char`s gives the same answer.
   */
  predicate Less(a: string, b: string)
  {
    if a == [] then b != []
    else if b == [] then false
    else if a[0] != b[0] then a[0] < b[0]
    else Less(a[1..], b[1..])
  }

  lemma {:induction false} LessIrreflexive(a: string)
    ensures !Less(a, a)
  {
    if a != [] {
      LessIrreflexive(a[1..]);
    }
  }

  lemma {:induction false} LessAsymmetric(a: string, b: string)
    ensures Less(a, b) ==> !Less(b, a)
  {
    if a != [] && b != [] && a[0] == b[0] {
      LessAsymmetric(a[1..], b[1..]);
    }
  }

  /** Any two distinct strings are ordered one way or the other. */
  lemma {:induction false} LessConnected(a: string, b: string)
    ensures a == b || Less(a, b) || Less(b, a)
  {
    if a != [] && b != [] && a[0] == b[0] {
      LessConnected(a[1..], b[1..]);
      if a[1..] == b[1..] {
        assert a == [a[0]] + a[1..] && b == [b[0]] + b[1..];
      }
    }
  }

  /**
   * `Less` is the lexicographic order: `a` is below `b` exactly when, after
   * a common prefix of length `k`, either `a` ends and `b` goes on, or both
   * go on and `a`'s next character is below `b`'s.
   */
  lemma {:induction false} LessFirstDifference(a: string, b: string)
    ensures Less(a, b) <==>
      exists k :: 0 <= k <= |a| && k <= |b| && a[..k] == b[..k]
                  && ((k == |a| && k < |b|) || (k < |a| && k < |b| && a[k] < b[k]))
  {
    if a != [] && b != [] && a[0] == b[0] {
      LessFirstDifference(a[1..], b[1..]);
      if Less(a, b) {
        var k :| 0 <= k <= |a[1..]| && k <= |b[1..]| && a[1..][..k] == b[1..][..k]
                 && ((k == |a[1..]| && k < |b[1..]|) || (k < |a[1..]| && k < |b[1..]| && a[1..][k] < b[1..][k]));
        assert a[..k + 1] == [a[0]] + a[1..][..k] && b[..k + 1] == [b[0]] + b[1..][..k];
      }
      if exists k :: 0 <= k <= |a| && k <= |b| && a[..k] == b[..k]
                     && ((k == |a| && k < |b|) || (k < |a| && k < |b| && a[k] < b[k])) {
        var k :| 0 <= k <= |a| && k <= |b| && a[..k] == b[..k]
                 && ((k == |a| && k < |b|) || (k < |a| && k < |b| && a[k] < b[k]));
        assert k > 0;
        assert a[1..][..k - 1] == a[1..k] && a[1..k] == a[..k][1..];
        assert b[1..][..k - 1] == b[1..k] && b[1..k] == b[..k][1..];
      }
    } else {
      assert a[..0] == b[..0];
    }
  }

  lemma {:induction false} LessTransitive(a: string, b: string, c: string)
    requires Less(a, b) && Less(b, c)
    ensures Less(a, c)
  {
    if a != [] && b != [] && c != [] && a[0] == b[0] && b[0] == c[0] {
      LessTransitive(a[1..], b[1..], c[1..]);
    }
  }

  predicate IsAsciiUpper(c: char)
  {
    'A' <= c <= 'Z'
  }

  /** ASCII lower-casing of one character. */
  function LowerChar(c: char): (d: char)
    ensures !IsAsciiUpper(d)
    ensures !IsAsciiUpper(c) ==> d == c
    ensures IsAsciiUpper(c) ==> 'a' <= d <= 'z' && d as int - 'a' as int == c as int - 'A' as int
  {
    if IsAsciiUpper(c) then (c as int - 'A' as int + 'a' as int) as char else c
  }

  /** `str::to_lowercase`, restricted to ASCII letters. */
  function Lower(s: string): (r: string)
    ensures |r| == |s|
    ensures forall i :: 0 <= i < |s| ==> r[i] == LowerChar(s[i])
  {
    seq(|s|, i requires 0 <= i < |s| => LowerChar(s[i]))
  }

  /** The value two lines are compared on: the line itself, or its lower-cased form. */
  function CompareKey(s: string, ignoreCase: bool): (k: string)
    ensures |k| == |s|
    ensures !ignoreCase ==> k == s
    ensures ignoreCase ==> forall i :: 0 <= i < |s| ==> k[i] == LowerChar(s[i])
  {
    if ignoreCase then Lower(s) else s
  }
}
