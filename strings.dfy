/**
 * The few QString operations the core relies on, over `string` (a sequence of chars):
 * splitting on a one-character or a multi-character separator (empty parts kept),
 * joining with a separator, `lastIndexOf`, and the ordering QMap uses for its keys.
 */
module Strings {

  /** Number of occurrences of `d` in `s`. */
  function Count(s: string, d: char): nat
  {
    if s == [] then 0 else (if s[0] == d then 1 else 0) + Count(s[1..], d)
  }

  /** `s.split(d)` with empty parts kept: the parts between consecutive occurrences of `d`. */
  function Split(s: string, d: char): (parts: seq<string>)
    ensures |parts| >= 1
    ensures forall i :: 0 <= i < |parts| ==> d !in parts[i]
  {
    if s == [] then [""]
    else
      var rest := Split(s[1..], d);
      if s[0] == d then [""] + rest
      else [[s[0]] + rest[0]] + rest[1..]
  }

  /** The parts of `xs` with one `d` between each two of them and none at the end. */
  function Join(xs: seq<string>, d: char): string
  {
    if xs == [] then ""
    else if |xs| == 1 then xs[0]
    else xs[0] + [d] + Join(xs[1..], d)
  }

  /** No token of `xs` contains the delimiter `d`. */
  predicate FreeOf(xs: seq<string>, d: char)
  {
    forall i :: 0 <= i < |xs| ==> d !in xs[i]
  }

  /** Splitting splits at every delimiter: there is one more part than delimiters. */
  lemma {:induction false} SplitCount(s: string, d: char)
    ensures |Split(s, d)| == Count(s, d) + 1
  {
    if s != [] {
      SplitCount(s[1..], d);
    }
  }

  /** Joining the parts of a split restores the string. */
  lemma {:induction false} JoinSplit(s: string, d: char)
    ensures Join(Split(s, d), d) == s
  {
    if s != [] {
      var rest := Split(s[1..], d);
      JoinSplit(s[1..], d);
      if s[0] == d {
        assert Split(s, d) == [""] + rest;
        assert ([""] + rest)[1..] == rest;
        assert s == [d] + s[1..];
      } else if |rest| == 1 {
        assert s == [s[0]] + s[1..];
      } else {
        var parts := Split(s, d);
        assert parts[1..] == rest[1..];
        assert Join(rest, d) == rest[0] + [d] + Join(rest[1..], d);
        assert s == [s[0]] + s[1..];
      }
    }
  }

  /** A string free of `d` is a single part. */
  lemma {:induction false} SplitFree(t: string, d: char)
    requires d !in t
    ensures Split(t, d) == [t]
  {
    if t != [] {
      SplitFree(t[1..], d);
      assert t == [t[0]] + t[1..];
    }
  }

  /** A `d`-free token followed by `d` splits off as the first part. */
  lemma {:induction false} SplitAfterToken(t: string, d: char, u: string)
    requires d !in t
    ensures Split(t + [d] + u, d) == [t] + Split(u, d)
  {
    var s := t + [d] + u;
    if t == [] {
      assert s == [d] + u;
      assert s[1..] == u;
    } else {
      assert s[1..] == t[1..] + [d] + u;
      SplitAfterToken(t[1..], d, u);
      assert [t[0]] + t[1..] == t;
    }
  }

  /** Splitting a string with a known first character, one step of the definition. */
  lemma SplitCons(c: char, t: string, d: char)
    ensures Split([c] + t, d) == if c == d then [""] + Split(t, d) else [[c] + Split(t, d)[0]] + Split(t, d)[1..]
  {
    assert ([c] + t)[0] == c && ([c] + t)[1..] == t;
  }

  /** Splitting around one delimiter concatenates the parts of both sides. */
  lemma {:induction false} SplitConcat(p: string, d: char, u: string)
    ensures Split(p + [d] + u, d) == Split(p, d) + Split(u, d)
  {
    if p == [] {
      SplitCons(d, u, d);
      assert p + [d] + u == [d] + u;
    } else {
      var c, tail := p[0], p[1..];
      SplitConcat(tail, d, u);
      assert p == [c] + tail;
      assert p + [d] + u == [c] + (tail + [d] + u);
      if c == d {
        SplitConcatDelimiter(tail, d, u);
      } else {
        SplitConcatOther(c, tail, d, u);
      }
    }
  }

  /** The step of `SplitConcat` for a leading delimiter: it opens an empty first part. */
  lemma SplitConcatDelimiter(tail: string, d: char, u: string)
    requires Split(tail + [d] + u, d) == Split(tail, d) + Split(u, d)
    ensures Split([d] + (tail + [d] + u), d) == Split([d] + tail, d) + Split(u, d)
  {
    SplitCons(d, tail + [d] + u, d);
    SplitCons(d, tail, d);
  }

  /** The step of `SplitConcat` for a leading non-delimiter: it joins the first part. */
  lemma SplitConcatOther(c: char, tail: string, d: char, u: string)
    requires c != d
    requires Split(tail + [d] + u, d) == Split(tail, d) + Split(u, d)
    ensures Split([c] + (tail + [d] + u), d) == Split([c] + tail, d) + Split(u, d)
  {
    SplitConsOther(c, tail + [d] + u, d);
    SplitConsOther(c, tail, d);
    MergeHead([c], Split(tail, d), Split(u, d));
  }

  /** Splitting a string whose first character is not the delimiter extends the first part. */
  lemma SplitConsOther(c: char, t: string, d: char)
    requires c != d
    ensures Split([c] + t, d) == [[c] + Split(t, d)[0]] + Split(t, d)[1..]
  {
    assert ([c] + t)[0] == c && ([c] + t)[1..] == t;
  }

  /** Prefixing the first part of a concatenation of part lists prefixes the first list's first part. */
  lemma MergeHead(h: string, left: seq<string>, right: seq<string>)
    requires left != []
    ensures [h + (left + right)[0]] + (left + right)[1..] == ([h + left[0]] + left[1..]) + right
  {
    assert (left + right)[0] == left[0];
    assert (left + right)[1..] == left[1..] + right;
  }

  /** Splitting undoes joining, for a non-empty list of `d`-free tokens. */
  lemma {:induction false} SplitJoin(xs: seq<string>, d: char)
    requires xs != [] && FreeOf(xs, d)
    ensures Split(Join(xs, d), d) == xs
  {
    if |xs| == 1 {
      SplitFree(xs[0], d);
    } else {
      SplitJoin(xs[1..], d);
      SplitAfterToken(xs[0], d, Join(xs[1..], d));
      assert xs == [xs[0]] + xs[1..];
    }
  }

  /** Appending one token to a non-empty list appends the delimiter and that token. */
  lemma {:induction false} JoinSnoc(xs: seq<string>, t: string, d: char)
    requires xs != []
    ensures Join(xs + [t], d) == Join(xs, d) + [d] + t
  {
    if |xs| == 1 {
      assert xs + [t] == [xs[0], t];
    } else {
      JoinSnoc(xs[1..], t, d);
      assert (xs + [t])[1..] == xs[1..] + [t];
    }
  }

  /** The joined text is empty exactly for `[]` and `[""]`. */
  lemma JoinEmpty(xs: seq<string>, d: char)
    ensures Join(xs, d) == "" <==> xs == [] || xs == [""]
  {
    if |xs| >= 2 {
      assert |Join(xs, d)| >= 1;
    }
  }

  /** `s.split(sep)` for a non-empty separator: matches are found left to right without overlap. */
  function SplitOn(s: string, sep: string): (parts: seq<string>)
    requires sep != []
    ensures |parts| >= 1
    decreases |s|
  {
    if |s| < |sep| then [s]
    else if s[..|sep|] == sep then [""] + SplitOn(s[|sep|..], sep)
    else
      var rest := SplitOn(s[1..], sep);
      [[s[0]] + rest[0]] + rest[1..]
  }

  /** A string that does not contain the first character of `sep` is a single part. */
  lemma {:induction false} SplitOnFree(t: string, sep: string)
    requires sep != [] && sep[0] !in t
    ensures SplitOn(t, sep) == [t]
    decreases |t|
  {
    if |t| >= |sep| {
      assert t[..|sep|][0] == t[0];
      SplitOnFree(t[1..], sep);
      assert [t[0]] + t[1..] == t;
    }
  }

  /** A key free of the separator's first character splits off before the first separator. */
  lemma {:induction false} SplitOnAfterToken(k: string, sep: string, v: string)
    requires sep != [] && sep[0] !in k
    ensures SplitOn(k + sep + v, sep) == [k] + SplitOn(v, sep)
    decreases |k|
  {
    var s := k + sep + v;
    if k == [] {
      assert s == sep + v;
      assert s[..|sep|] == sep;
      assert s[|sep|..] == v;
    } else {
      assert s[..|sep|][0] == k[0];
      assert s[1..] == k[1..] + sep + v;
      SplitOnAfterToken(k[1..], sep, v);
      assert [k[0]] + k[1..] == k;
    }
  }

  /** `pat` occurs in `s` starting at index `k`. */
  predicate OccursAt(s: string, pat: string, k: int)
  {
    0 <= k && k + |pat| <= |s| && s[k..k + |pat|] == pat
  }

  /** Last start index of a non-empty `pat` in `s` that is at most `j`, or -1. */
  function LastIndexAtMost(s: string, pat: string, j: int): (i: int)
    requires pat != []
    requires j <= |s| - |pat|
    ensures i == -1 || 0 <= i <= j
    ensures i >= 0 ==> OccursAt(s, pat, i)
    ensures forall k :: i < k <= j ==> !OccursAt(s, pat, k)
    decreases j + 1
  {
    if j < 0 then -1
    else if s[j..j + |pat|] == pat then j
    else LastIndexAtMost(s, pat, j - 1)
  }

  /** `s.lastIndexOf(pat)`: the start of the last occurrence of `pat` in `s`, or -1 if there is none. */
  function LastIndexOf(s: string, pat: string): (i: int)
    requires pat != []
    ensures i == -1 || 0 <= i <= |s| - |pat|
    ensures i >= 0 ==> OccursAt(s, pat, i)
    ensures forall k :: i < k ==> !OccursAt(s, pat, k)
  {
    LastIndexAtMost(s, pat, |s| - |pat|)
  }

  /** The strict order QMap uses on QString keys: lexicographic on character codes. */
  predicate Less(a: string, b: string)
  {
    if a == [] then b != []
    else if b == [] then false
    else a[0] < b[0] || (a[0] == b[0] && Less(a[1..], b[1..]))
  }

  lemma {:induction false} LessIrreflexive(a: string)
    ensures !Less(a, a)
  {
    if a != [] {
      LessIrreflexive(a[1..]);
    }
  }

  lemma {:induction false} LessTransitive(a: string, b: string, c: string)
    requires Less(a, b) && Less(b, c)
    ensures Less(a, c)
  {
    if a != [] && b != [] && c != [] && a[0] == b[0] == c[0] {
      LessTransitive(a[1..], b[1..], c[1..]);
    }
  }

  lemma {:induction false} LessTotal(a: string, b: string)
    requires a != b
    ensures Less(a, b) || Less(b, a)
  {
    if a != [] && b != [] && a[0] == b[0] {
      assert a == [a[0]] + a[1..] && b == [b[0]] + b[1..];
      LessTotal(a[1..], b[1..]);
    }
  }

  /**
   * `s.mid(pos, n)`: the `n` characters from `pos`, clamped to the string. A negative `n`, or one
   * reaching past the end, means "to the end"; a start past the end gives the empty string; a
   * negative start counts its excess against `n`.
   */
  function Mid(s: string, pos: int, n: int): (r: string)
    ensures 0 <= pos && 0 <= n && pos + n <= |s| ==> r == s[pos..pos + n]
    ensures 0 <= pos <= |s| && (n < 0 || pos + n > |s|) ==> r == s[pos..]
    ensures pos > |s| ==> r == ""
  {
    if pos > |s| then ""
    else if pos < 0 then
      if n < 0 || n + pos >= |s| then s
      else if n + pos <= 0 then ""
      else s[..n + pos]
    else if n < 0 || n > |s| - pos then s[pos..]
    else s[pos..pos + n]
  }
}
