/**
 * The parts of Go's `strings` package that LunarFuzz relies on, for a
 * non-empty separator (every call site passes a constant separator:
 * " ", ",", "; ", ": " or "=").  A Go string is a sequence of bytes; here
 * each `char` stands for one byte, so `len(s)` is `|s|`.
 */
module GoStrings {

  /** `p` occurs in `s` starting at position `i`. */
  predicate OccursAt(s: string, p: string, i: int) {
    0 <= i && i + |p| <= |s| && s[i..i + |p|] == p
  }

  /** strings.Contains(s, substr). */
  predicate Contains(s: string, substr: string) {
    exists i :: 0 <= i <= |s| && OccursAt(s, substr, i)
  }

  /** strings.HasPrefix. */
  predicate HasPrefix(s: string, prefix: string) {
    |prefix| <= |s| && s[..|prefix|] == prefix
  }

  /** strings.HasSuffix. */
  predicate HasSuffix(s: string, suffix: string) {
    |suffix| <= |s| && s[|s| - |suffix|..] == suffix
  }

  /** Occurrences of `p` in `s[1..]` are the occurrences in `s` shifted by one. */
  lemma TailOccurrence(s: string, p: string, i: int)
    requires |s| > 0 && 0 <= i
    ensures OccursAt(s[1..], p, i) <==> OccursAt(s, p, i + 1)
  {
    if i + |p| <= |s| - 1 {
      assert s[1..][i..i + |p|] == s[i + 1..i + 1 + |p|];
    }
  }

  /** strings.Index: the first position where `sep` occurs, or -1. */
  function Index(s: string, sep: string): (i: int)
    requires |sep| > 0
    ensures i >= 0 ==> OccursAt(s, sep, i) && forall j :: 0 <= j < i ==> !OccursAt(s, sep, j)
    ensures i < 0 ==> i == -1 && !Contains(s, sep)
    decreases |s|
  {
    if |s| < |sep| then -1
    else if s[..|sep|] == sep then 0
    else
      var k := Index(s[1..], sep);
      assert forall j :: 0 <= j < |s| ==> (OccursAt(s, sep, j) ==> j == 0 || OccursAt(s[1..], sep, j - 1)) by {
        forall j | 0 <= j < |s| && OccursAt(s, sep, j) && j != 0
          ensures OccursAt(s[1..], sep, j - 1)
        {
          TailOccurrence(s, sep, j - 1);
        }
      }
      if k < 0 then -1
      else
        TailOccurrence(s, sep, k);
        k + 1
  }

  /** strings.Split: the pieces of `s` around each non-overlapping occurrence of `sep`, left to right. */
  function Split(s: string, sep: string): (parts: seq<string>)
    requires |sep| > 0
    ensures |parts| >= 1
    ensures Contains(s, sep) <==> |parts| >= 2
    ensures !Contains(s, sep) ==> parts == [s]
    ensures Contains(s, sep) ==> parts[0] == s[..Index(s, sep)]
    decreases |s|
  {
    var i := Index(s, sep);
    if i < 0 then [s] else [s[..i]] + Split(s[i + |sep|..], sep)
  }

  /** strings.Join. */
  function Join(elems: seq<string>, sep: string): string
  {
    if |elems| == 0 then ""
    else if |elems| == 1 then elems[0]
    else elems[0] + sep + Join(elems[1..], sep)
  }

  /** strings.Count for a non-empty separator: non-overlapping occurrences, scanning left to right. */
  function Count(s: string, sep: string): nat
    requires |sep| > 0
    decreases |s|
  {
    if |s| < |sep| then 0
    else if s[..|sep|] == sep then 1 + Count(s[|sep|..], sep)
    else Count(s[1..], sep)
  }

  /** The number of positions of `s` holding `c`. */
  function Occurrences(s: string, c: char): nat
  {
    if s == [] then 0 else (if s[0] == c then 1 else 0) + Occurrences(s[1..], c)
  }

  /** No proper prefix of `sep` is also a suffix of it, so two occurrences can never overlap. */
  predicate Unbordered(sep: string) {
    forall k :: 0 < k < |sep| ==> sep[..k] != sep[|sep| - k..]
  }

  lemma {:induction false} OccurrencesAppend(a: string, b: string, c: char)
    ensures Occurrences(a + b, c) == Occurrences(a, c) + Occurrences(b, c)
  {
    if a != [] {
      assert (a + b)[1..] == a[1..] + b;
      OccurrencesAppend(a[1..], b, c);
    } else {
      assert a + b == b;
    }
  }

  /** Joining the pieces of a split gives back the string. */
  lemma {:induction false} JoinSplit(s: string, sep: string)
    requires |sep| > 0
    ensures Join(Split(s, sep), sep) == s
    decreases |s|
  {
    var i := Index(s, sep);
    if i >= 0 {
      var rest := s[i + |sep|..];
      JoinSplit(rest, sep);
      assert Split(s, sep) == [s[..i]] + Split(rest, sep);
      assert s == s[..i] + sep + rest;
    }
  }

  /** Count does not change when a prefix free of occurrences is dropped. */
  lemma {:induction false} CountSkip(s: string, sep: string, i: nat)
    requires |sep| > 0 && i <= |s|
    requires forall j :: 0 <= j < i ==> !OccursAt(s, sep, j)
    ensures Count(s, sep) == Count(s[i..], sep)
    decreases i
  {
    if i > 0 {
      if |s| >= |sep| {
        assert !OccursAt(s, sep, 0);
        forall j | 0 <= j < i - 1 ensures !OccursAt(s[1..], sep, j) {
          TailOccurrence(s, sep, j);
        }
        CountSkip(s[1..], sep, i - 1);
        assert s[1..][i - 1..] == s[i..];
      }
    }
  }

  /** A split has one piece more than there are occurrences of the separator. */
  lemma {:induction false} SplitLength(s: string, sep: string)
    requires |sep| > 0
    ensures |Split(s, sep)| == Count(s, sep) + 1
    decreases |s|
  {
    var i := Index(s, sep);
    if i < 0 {
      CountSkip(s, sep, |s|);
    } else {
      CountSkip(s, sep, i);
      var t := s[i..];
      assert t[..|sep|] == sep;
      assert t[|sep|..] == s[i + |sep|..];
      SplitLength(s[i + |sep|..], sep);
    }
  }

  /** For a one-character separator, Count is the number of positions holding it. */
  lemma {:induction false} CountSingle(s: string, c: char)
    ensures Count(s, [c]) == Occurrences(s, c)
  {
    if s != [] {
      CountSingle(s[1..], c);
      assert s[..1] == [c] <==> s[0] == c;
    }
  }

  /** A split on a one-character separator has one piece more than the occurrences of that character. */
  lemma SplitLengthSingle(s: string, c: char)
    ensures |Split(s, [c])| == Occurrences(s, c) + 1
  {
    SplitLength(s, [c]);
    CountSingle(s, c);
  }

  /** When `x` does not contain an unbordered `sep`, the first occurrence in `x + sep + rest` is the visible one. */
  lemma IndexPastFree(x: string, sep: string, rest: string)
    requires |sep| > 0 && Unbordered(sep) && !Contains(x, sep)
    ensures Index(x + sep + rest, sep) == |x|
  {
    var t := x + sep + rest;
    assert t[|x|..|x| + |sep|] == sep;
    assert OccursAt(t, sep, |x|);
    forall j | 0 <= j < |x| ensures !OccursAt(t, sep, j) {
      if j + |sep| <= |x| {
        assert t[j..j + |sep|] == x[j..j + |sep|];
        assert !OccursAt(x, sep, j);
      } else {
        var k := j + |sep| - |x|;
        var w := t[j..j + |sep|];
        assert w[|sep| - k..] == sep[..k];
        assert sep[..k] != sep[|sep| - k..];
        assert w != sep;
      }
    }
  }

  /** Splitting a join gives back the pieces, when no piece contains the (unbordered) separator. */
  lemma {:induction false} SplitJoin(elems: seq<string>, sep: string)
    requires |elems| >= 1 && |sep| > 0 && Unbordered(sep)
    requires forall i :: 0 <= i < |elems| ==> !Contains(elems[i], sep)
    ensures Split(Join(elems, sep), sep) == elems
  {
    if |elems| > 1 {
      var x := elems[0];
      var rest := Join(elems[1..], sep);
      var t := x + sep + rest;
      IndexPastFree(x, sep, rest);
      assert t[..|x|] == x;
      assert t[|x| + |sep|..] == rest;
      SplitJoin(elems[1..], sep);
      assert elems == [x] + elems[1..];
    }
  }

  /** An occurrence of a separator of at most two characters in `a + b` lies in `a`, in `b`, or across the seam. */
  lemma ConcatFree(a: string, b: string, sep: string)
    requires 1 <= |sep| <= 2
    requires !Contains(a, sep) && !Contains(b, sep)
    requires |sep| == 2 && |a| > 0 && |b| > 0 ==> a[|a| - 1] != sep[0] || b[0] != sep[1]
    ensures !Contains(a + b, sep)
  {
    var t := a + b;
    forall i | 0 <= i <= |t| ensures !OccursAt(t, sep, i) {
      if i + |sep| <= |a| {
        assert t[i..i + |sep|] == a[i..i + |sep|];
        assert !OccursAt(a, sep, i);
      } else if i >= |a| && i + |sep| <= |t| {
        assert t[i..i + |sep|] == b[i - |a|..i - |a| + |sep|];
        assert !OccursAt(b, sep, i - |a|);
      } else if i + |sep| <= |t| {
        assert t[i..i + |sep|] == [a[|a| - 1], b[0]];
      }
    }
  }

  /** A Join of at least one piece starts with its first piece. */
  lemma JoinStartsWith(elems: seq<string>, sep: string)
    requires |elems| >= 1
    ensures HasPrefix(Join(elems, sep), elems[0])
  {
  }
}
