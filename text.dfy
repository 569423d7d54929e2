/**
 * String operations the Kotlin source takes from its standard library:
 * ordering of strings, `indexOf`, `substringAfter`, `split`, `replace`.
 * Strings are sequences of characters; comparison is by character code.
 */
module Text {
  import opened Wrappers

  /**
   * Lexicographic order on strings: `a` is a prefix of `b`, or at the first
   * position where they differ `a` has the smaller character. This is the
   * order of Kotlin's `String.compareTo` and of SQLite's default BINARY
   * collation.
   */
  predicate LexLe(a: string, b: string)
    decreases |a|
  {
    |a| == 0 || (|b| > 0 && (a[0] < b[0] || (a[0] == b[0] && LexLe(a[1..], b[1..]))))
  }

  lemma {:induction false} LexLeReflexive(a: string)
    ensures LexLe(a, a)
    decreases |a|
  {
    if |a| > 0 {
      LexLeReflexive(a[1..]);
    }
  }

  lemma {:induction false} LexLeTotal(a: string, b: string)
    ensures LexLe(a, b) || LexLe(b, a)
    decreases |a|
  {
    if |a| > 0 && |b| > 0 && a[0] == b[0] {
      LexLeTotal(a[1..], b[1..]);
    }
  }

  lemma {:induction false} LexLeTransitive(a: string, b: string, c: string)
    requires LexLe(a, b) && LexLe(b, c)
    ensures LexLe(a, c)
    decreases |a|
  {
    if |a| > 0 && a[0] == b[0] && b[0] == c[0] {
      LexLeTransitive(a[1..], b[1..], c[1..]);
    }
  }

  /** `d` occurs in `s` starting at position `k`. */
  predicate OccursAt(s: string, d: string, k: int) {
    0 <= k && k + |d| <= |s| && s[k..k + |d|] == d
  }

  /** The first position at or after `from` where `d` occurs in `s`. */
  function IndexOfFrom(s: string, d: string, from: nat): (r: Option<nat>)
    requires from <= |s|
    ensures r.Some? ==> from <= r.value && OccursAt(s, d, r.value)
    ensures r.Some? ==> forall k :: from <= k < r.value ==> !OccursAt(s, d, k)
    ensures r.None? ==> forall k :: from <= k ==> !OccursAt(s, d, k)
    decreases |s| - from
  {
    if from + |d| > |s| then None
    else if s[from..from + |d|] == d then Some(from)
    else if from == |s| then None
    else IndexOfFrom(s, d, from + 1)
  }

  /** Kotlin's `s.indexOf(d)`: the first occurrence of `d` in `s`, if any. */
  function IndexOf(s: string, d: string): (r: Option<nat>)
    ensures r.Some? ==> OccursAt(s, d, r.value) && forall k :: 0 <= k < r.value ==> !OccursAt(s, d, k)
    ensures r.None? <==> forall k :: !OccursAt(s, d, k)
  {
    IndexOfFrom(s, d, 0)
  }

  /**
   * Kotlin's `s.substringAfter(d)`: what follows the first occurrence of `d`,
   * or the whole of `s` when `d` does not occur in it.
   */
  function SubstringAfter(s: string, d: string): (r: string)
    ensures EndsWith(s, r)
    ensures IndexOf(s, d).None? ==> r == s
    ensures IndexOf(s, d).Some? ==> r == s[IndexOf(s, d).value + |d|..]
  {
    match IndexOf(s, d)
    case None => s
    case Some(i) => s[i + |d|..]
  }

  /** A string that starts with `p` loses exactly that prefix. */
  lemma SubstringAfterPrefix(p: string, rest: string)
    ensures SubstringAfter(p + rest, p) == rest
  {
    assert OccursAt(p + rest, p, 0) by {
      assert (p + rest)[0..|p|] == p;
    }
  }

  /** A string in which `d` does not occur is returned unchanged. */
  lemma SubstringAfterAbsent(s: string, d: string)
    requires forall k :: !OccursAt(s, d, k)
    ensures SubstringAfter(s, d) == s
  {
  }

  /**
   * Kotlin's `s.split(sep)` for a one-character separator: the pieces between
   * separators, keeping empty pieces (also the trailing ones).
   */
  function Split(s: string, sep: char): (parts: seq<string>)
    ensures |parts| >= 1
    ensures forall k :: 0 <= k < |parts| ==> sep !in parts[k]
    decreases |s|
  {
    if s == [] then [""]
    else
      var rest := Split(s[1..], sep);
      if s[0] == sep then [""] + rest
      else [[s[0]] + rest[0]] + rest[1..]
  }

  /** The pieces put back together with `sep` between them (`joinToString(sep)`). */
  function Join(parts: seq<string>, sep: char): string
    requires |parts| >= 1
    decreases |parts|
  {
    if |parts| == 1 then parts[0] else parts[0] + [sep] + Join(parts[1..], sep)
  }

  /** Splitting loses nothing: joining the pieces gives the string back. */
  lemma {:induction false} JoinSplit(s: string, sep: char)
    ensures Join(Split(s, sep), sep) == s
    decreases |s|
  {
    if s != [] {
      var rest := Split(s[1..], sep);
      JoinSplit(s[1..], sep);
      if s[0] != sep {
        if |rest| == 1 {
          assert Split(s, sep) == [[s[0]] + rest[0]];
        } else {
          var parts := Split(s, sep);
          assert parts[1..] == rest[1..];
          assert Join(parts, sep) == [s[0]] + rest[0] + [sep] + Join(rest[1..], sep);
          assert Join(rest, sep) == rest[0] + [sep] + Join(rest[1..], sep);
          assert s == [s[0]] + s[1..];
        }
      } else {
        assert s == [sep] + s[1..];
      }
    }
  }

  /** Joining pieces that hold no separator and splitting again gives the pieces back. */
  lemma {:induction false} SplitJoin(parts: seq<string>, sep: char)
    requires |parts| >= 1
    requires forall k :: 0 <= k < |parts| ==> sep !in parts[k]
    ensures Split(Join(parts, sep), sep) == parts
    decreases |parts|, |parts[0]|
  {
    if parts[0] == [] {
      if |parts| > 1 {
        SplitJoin(parts[1..], sep);
        var j := Join(parts, sep);
        assert j == [sep] + Join(parts[1..], sep);
        assert j[1..] == Join(parts[1..], sep);
        assert parts == [""] + parts[1..];
      }
    } else {
      var p := parts[0];
      var tail := [p[1..]] + parts[1..];
      assert tail[0] == p[1..] && tail[1..] == parts[1..];
      assert forall k :: 0 <= k < |tail| ==> sep !in tail[k] by {
        forall k | 0 <= k < |tail| ensures sep !in tail[k] {
          if k == 0 {
            assert forall c :: c in p[1..] ==> c in p;
          } else {
            assert tail[k] == parts[k];
          }
        }
      }
      SplitJoin(tail, sep);
      var j := Join(parts, sep);
      if |parts| == 1 {
        assert j == p && j[1..] == Join(tail, sep);
      } else {
        assert j == p + [sep] + Join(parts[1..], sep);
        assert Join(tail, sep) == p[1..] + [sep] + Join(parts[1..], sep);
        assert j[1..] == Join(tail, sep);
      }
      assert j[0] == p[0] && p[0] != sep;
      assert [p[0]] + p[1..] == p;
      assert parts == [p] + tail[1..];
    }
  }

  /** The last piece of `split(sep)`: what follows the last separator, or all of `s`. */
  function LastSegment(s: string, sep: char): (r: string)
  {
    var parts := Split(s, sep);
    parts[|parts| - 1]
  }

  /** `LastSegment` and the number of pieces, one character at a time. */
  lemma LastSegmentStep(s: string, sep: char)
    requires s != []
    ensures s[0] == sep || |Split(s[1..], sep)| > 1 ==>
      LastSegment(s, sep) == LastSegment(s[1..], sep) && |Split(s, sep)| > 1
    ensures s[0] != sep && |Split(s[1..], sep)| == 1 ==>
      LastSegment(s, sep) == [s[0]] + LastSegment(s[1..], sep) && |Split(s, sep)| == 1
  {
  }

  /**
   * The last piece holds no separator and ends the string; it is either the
   * whole string or is preceded by a separator.
   */
  lemma {:induction false} LastSegmentIsSuffix(s: string, sep: char)
    ensures var r := LastSegment(s, sep);
      && sep !in r
      && |r| <= |s|
      && s[|s| - |r|..] == r
      && (r == s || s[|s| - |r| - 1] == sep)
      && (r == s <==> |Split(s, sep)| == 1)
    decreases |s|
  {
    if s != [] {
      var t := s[1..];
      LastSegmentIsSuffix(t, sep);
      LastSegmentStep(s, sep);
      var r := LastSegment(s, sep);
      var r' := LastSegment(t, sep);
      if s[0] == sep || |Split(t, sep)| > 1 {
        assert r == r';
        assert s[|s| - |r|..] == t[|t| - |r'|..];
        if r' != t {
          assert s[|s| - |r| - 1] == t[|t| - |r'| - 1];
        } else {
          assert s[|s| - |r| - 1] == s[0];
        }
        assert r != s by {
          if s[0] == sep {
            assert sep in s;
          } else {
            assert |r'| < |t|;
          }
        }
      } else {
        assert r' == t;
        assert r == [s[0]] + t;
        assert r == s;
      }
    }
  }

  /** Kotlin's `s.replace(from, to)` for one-character strings. */
  function ReplaceChar(s: string, from: char, to: char): (r: string)
    ensures |r| == |s|
    ensures forall i :: 0 <= i < |s| ==> r[i] == (if s[i] == from then to else s[i])
    ensures from != to ==> from !in r
  {
    seq(|s|, i requires 0 <= i < |s| => if s[i] == from then to else s[i])
  }

  /** `s` begins with `p` (used to state the shape of the links). */
  predicate StartsWith(s: string, p: string) {
    |p| <= |s| && s[..|p|] == p
  }

  /** `s` ends with `q` (used to state the shape of the links). */
  predicate EndsWith(s: string, q: string) {
    |q| <= |s| && s[|s| - |q|..] == q
  }

  /** One character of Kotlin's `lowercase()`, for the ASCII letters. */
  function LowerChar(c: char): char {
    if 'A' <= c <= 'Z' then (c as int + 32) as char else c
  }

  /** Kotlin's `s.lowercase()`, restricted to the ASCII letters. */
  function Lowercase(s: string): (r: string)
    ensures |r| == |s|
    ensures forall i :: 0 <= i < |s| ==> r[i] == LowerChar(s[i])
  {
    seq(|s|, i requires 0 <= i < |s| => LowerChar(s[i]))
  }

  /** Lower-casing leaves no upper-case ASCII letter and is idempotent. */
  lemma LowercaseIdempotent(s: string)
    ensures forall i :: 0 <= i < |Lowercase(s)| ==> !('A' <= Lowercase(s)[i] <= 'Z')
    ensures Lowercase(Lowercase(s)) == Lowercase(s)
  {
  }
}
