/**
 Python string primitives used by the documentation pass: `str.isspace`,
 `lstrip`/`rstrip`/`strip` without arguments, `startswith`, `split` on one
 separator character and `join`.
 */
module Text {

  /** Python's `str.isspace` for one character (Unicode White_Space plus the
      ASCII separators 0x1C-0x1F that CPython also strips). */
  predicate IsSpace(c: char) {
    || c == ' '
    || ('\t' <= c <= '\r')
    || ('\U{1c}' <= c <= '\U{1f}')
    || c == '\U{85}' || c == '\U{a0}' || c == '\U{1680}'
    || ('\U{2000}' <= c <= '\U{200a}')
    || c == '\U{2028}' || c == '\U{2029}' || c == '\U{202f}'
    || c == '\U{205f}' || c == '\U{3000}'
  }

  /** Every character is whitespace (true of the empty string). */
  predicate Blank(s: string) {
    forall i :: 0 <= i < |s| ==> IsSpace(s[i])
  }

  /** The number of whitespace characters `s` starts with. */
  function LeadingBlank(s: string): (n: nat)
    ensures n <= |s| && Blank(s[..n])
    ensures n < |s| ==> !IsSpace(s[n])
    decreases |s|
  {
    if |s| > 0 && IsSpace(s[0]) then
      var m := LeadingBlank(s[1..]);
      assert s[..m + 1] == [s[0]] + s[1..][..m];
      BlankCons(s[0], s[1..][..m]);
      m + 1
    else 0
  }

  /** The number of whitespace characters `s` ends with. */
  function TrailingBlank(s: string): (n: nat)
    ensures n <= |s| && Blank(s[|s| - n..])
    ensures n < |s| ==> !IsSpace(s[|s| - n - 1])
    decreases |s|
  {
    if |s| > 0 && IsSpace(s[|s| - 1]) then
      var t := s[..|s| - 1];
      var m := TrailingBlank(t);
      assert s[|s| - (m + 1)..] == t[|t| - m..] + [s[|s| - 1]];
      assert forall i :: 0 <= i < |t| ==> s[i] == t[i];
      BlankSnoc(t[|t| - m..], s[|s| - 1]);
      m + 1
    else 0
  }

  lemma {:induction false} BlankCons(c: char, t: string)
    requires IsSpace(c) && Blank(t)
    ensures Blank([c] + t)
  {
    assert forall i :: 0 < i < |t| + 1 ==> ([c] + t)[i] == t[i - 1];
  }

  lemma {:induction false} BlankSnoc(t: string, c: char)
    requires Blank(t) && IsSpace(c)
    ensures Blank(t + [c])
  {
    assert forall i :: 0 <= i < |t| ==> (t + [c])[i] == t[i];
  }

  /** A whitespace prefix followed by a non-whitespace character (or by
      nothing) is the leading whitespace. */
  lemma {:induction false} LeadingBlankAt(s: string, lo: nat)
    requires lo <= |s| && Blank(s[..lo])
    requires lo < |s| ==> !IsSpace(s[lo])
    ensures LeadingBlank(s) == lo
  {
    var n := LeadingBlank(s);
    BlankPrefix(s, lo);
    BlankPrefix(s, n);
  }

  /** A whitespace suffix preceded by a non-whitespace character (or by
      nothing) is the trailing whitespace. */
  lemma {:induction false} TrailingBlankAt(s: string, k: nat)
    requires k <= |s| && Blank(s[|s| - k..])
    requires k < |s| ==> !IsSpace(s[|s| - k - 1])
    ensures TrailingBlank(s) == k
  {
    var n := TrailingBlank(s);
    BlankSuffix(s, k);
    BlankSuffix(s, n);
  }

  lemma {:induction false} BlankPrefix(s: string, k: nat)
    requires k <= |s| && Blank(s[..k])
    ensures forall i :: 0 <= i < k ==> IsSpace(s[i])
  {
    assert forall i :: 0 <= i < k ==> s[..k][i] == s[i];
  }

  lemma {:induction false} BlankSuffix(s: string, k: nat)
    requires k <= |s| && Blank(s[|s| - k..])
    ensures forall i :: |s| - k <= i < |s| ==> IsSpace(s[i])
  {
    assert forall i :: |s| - k <= i < |s| ==> s[|s| - k..][i - (|s| - k)] == s[i];
  }

  /** `s.lstrip()`: the suffix left after dropping leading whitespace. */
  function LStrip(s: string): (r: string)
    ensures |r| <= |s| && r == s[|s| - |r|..]
    ensures Blank(s[..|s| - |r|])
    ensures r != [] ==> !IsSpace(r[0])
  {
    s[LeadingBlank(s)..]
  }

  /** `s.rstrip()`: the prefix left after dropping trailing whitespace. */
  function RStrip(s: string): (r: string)
    ensures |r| <= |s| && r == s[..|r|]
    ensures Blank(s[|r|..])
    ensures r != [] ==> !IsSpace(r[|r| - 1])
  {
    s[..|s| - TrailingBlank(s)]
  }

  /** `s.strip()`: the slice `s[lo..lo + |r|]` after the leading whitespace,
      with only whitespace outside it and a non-whitespace character at each
      end (empty when `s` is all whitespace). */
  function Strip(s: string): (r: string)
    ensures var lo := LeadingBlank(s);
            && lo + |r| <= |s| && r == s[lo..lo + |r|]
            && Blank(s[..lo]) && Blank(s[lo + |r|..])
    ensures r != [] ==> !IsSpace(r[0]) && !IsSpace(r[|r| - 1])
  {
    var lo := LeadingBlank(s);
    if lo == |s| then []
    else
      var hi := |s| - TrailingBlank(s);
      assert lo < hi by { assert !IsSpace(s[lo]); }
      s[lo..hi]
  }

  /** `strip` yields the empty string exactly on a blank string. */
  lemma {:induction false} StripBlank(s: string)
    ensures Strip(s) == [] <==> Blank(s)
  {
    assert s[..|s|] == s;
  }

  /** `strip` keeps exactly `s[lo..hi]` when that slice has non-whitespace
      ends and only whitespace lies outside it. */
  lemma {:induction false} StripSlice(s: string, lo: nat, hi: nat)
    requires lo < hi <= |s|
    requires Blank(s[..lo]) && Blank(s[hi..])
    requires !IsSpace(s[lo]) && !IsSpace(s[hi - 1])
    ensures Strip(s) == s[lo..hi]
  {
    LeadingBlankAt(s, lo);
    TrailingBlankAt(s, |s| - hi);
  }

  /** `lstrip` of a string whose whitespace prefix `s[..lo]` is followed by
      a non-whitespace character. */
  lemma {:induction false} LStripAt(s: string, lo: nat)
    requires lo < |s| && Blank(s[..lo]) && !IsSpace(s[lo])
    ensures LStrip(s) == s[lo..]
  {
    LeadingBlankAt(s, lo);
  }

  /** `s.startswith(p)`. */
  predicate StartsWith(s: string, p: string) {
    |p| <= |s| && s[..|p|] == p
  }

  /** `s.endswith(suffix)`. */
  predicate EndsWith(s: string, suffix: string) {
    |suffix| <= |s| && s[|s| - |suffix|..] == suffix
  }

  /** `' ' * n`. */
  function Spaces(n: nat): (r: string)
    ensures |r| == n && Blank(r)
    ensures forall i :: 0 <= i < n ==> r[i] == ' '
  {
    seq(n, _ => ' ')
  }

  /** The first position of `c` in `s`. */
  function IndexOf(s: string, c: char): (i: nat)
    requires c in s
    ensures i < |s| && s[i] == c
    ensures forall k :: 0 <= k < i ==> s[k] != c
    decreases |s|
  {
    if s[0] == c then 0
    else
      assert c in s[1..] by { var j :| 0 <= j < |s| && s[j] == c; assert s[1..][j - 1] == c; }
      1 + IndexOf(s[1..], c)
  }

  /** Number of occurrences of `c` in `s`. */
  function Count(s: string, c: char): nat
    decreases |s|
  {
    if s == [] then 0 else (if s[0] == c then 1 else 0) + Count(s[1..], c)
  }

  /** `s.split(sep)` for a one-character separator: the separator-free
      pieces between the separators. */
  function Split(s: string, sep: char): (r: seq<string>)
    ensures |r| >= 1
    ensures forall k :: 0 <= k < |r| ==> sep !in r[k]
    decreases |s|
  {
    if s == [] then [""]
    else
      var rest := Split(s[1..], sep);
      if s[0] == sep then [""] + rest
      else [[s[0]] + rest[0]] + rest[1..]
  }

  /** There is one more piece than there are separators. */
  lemma {:induction false} SplitCount(s: string, sep: char)
    ensures |Split(s, sep)| == Count(s, sep) + 1
    decreases |s|
  {
    if s != [] {
      SplitCount(s[1..], sep);
    }
  }

  /** `sep.join(ls)`. */
  function Join(ls: seq<string>, sep: char): string
    decreases |ls|
  {
    if ls == [] then ""
    else if |ls| == 1 then ls[0]
    else ls[0] + [sep] + Join(ls[1..], sep)
  }

  /** Joining the pieces of a split gives back the string. */
  lemma {:induction false} JoinSplit(s: string, sep: char)
    ensures Join(Split(s, sep), sep) == s
    decreases |s|
  {
    if s != [] {
      JoinSplit(s[1..], sep);
      var rest := Split(s[1..], sep);
      if s[0] != sep {
        if |rest| == 1 {
          assert Join(rest, sep) == rest[0];
        } else {
          assert Join(rest, sep) == rest[0] + [sep] + Join(rest[1..], sep);
          assert Join(Split(s, sep), sep)
              == [s[0]] + rest[0] + [sep] + Join(rest[1..], sep);
        }
        assert s == [s[0]] + s[1..];
      } else {
        assert Split(s, sep)[1..] == rest;
      }
    }
  }

  /** Splitting a string that has no separator gives that one piece. */
  lemma {:induction false} SplitNoSep(s: string, sep: char)
    requires sep !in s
    ensures Split(s, sep) == [s]
    decreases |s|
  {
    if s != [] {
      assert s[0] in s;
      assert forall c :: c in s[1..] ==> c in s;
      SplitNoSep(s[1..], sep);
      assert s == [s[0]] + s[1..];
    }
  }

  /** Splitting around one separator splits the two sides independently. */
  lemma {:induction false} SplitAround(a: string, b: string, sep: char)
    ensures Split(a + [sep] + b, sep) == Split(a, sep) + Split(b, sep)
    decreases |a|
  {
    if a == [] {
      assert a + [sep] + b == [sep] + b;
      SplitCons(sep, b, sep);
    } else {
      var t := a[1..] + [sep] + b;
      var ra, rb := Split(a[1..], sep), Split(b, sep);
      assert a + [sep] + b == [a[0]] + t;
      assert a == [a[0]] + a[1..];
      SplitAround(a[1..], b, sep);
      assert Split(t, sep) == ra + rb;
      SplitCons(a[0], t, sep);
      SplitCons(a[0], a[1..], sep);
      if a[0] == sep {
        assert Split(a + [sep] + b, sep) == [""] + (ra + rb);
      } else {
        assert Split(a + [sep] + b, sep) == [[a[0]] + (ra + rb)[0]] + (ra + rb)[1..];
        ConsHeadConcat([a[0]], ra, rb);
      }
    }
  }

  /** Splitting after a separator-free first piece. */
  lemma {:induction false} SplitFirst(head: string, rest: string, sep: char)
    requires sep !in head
    ensures Split(head + [sep] + rest, sep) == [head] + Split(rest, sep)
  {
    SplitAround(head, rest, sep);
    SplitNoSep(head, sep);
  }

  /** One step of the recursion of Split. */
  lemma {:induction false} SplitCons(c: char, t: string, sep: char)
    ensures Split([c] + t, sep) == if c == sep then [""] + Split(t, sep)
                                   else [[c] + Split(t, sep)[0]] + Split(t, sep)[1..]
  {
    assert ([c] + t)[1..] == t;
  }

  /** Prefixing the first of several pieces commutes with appending more
      pieces. */
  lemma {:induction false} ConsHeadConcat(x: string, ra: seq<string>, rb: seq<string>)
    requires |ra| >= 1
    ensures [x + (ra + rb)[0]] + (ra + rb)[1..] == ([x + ra[0]] + ra[1..]) + rb
  {
    assert (ra + rb)[1..] == ra[1..] + rb;
  }

  /** Splitting a join of separator-free pieces gives back the pieces. */
  lemma {:induction false} SplitJoin(ls: seq<string>, sep: char)
    requires |ls| >= 1
    requires forall k :: 0 <= k < |ls| ==> sep !in ls[k]
    ensures Split(Join(ls, sep), sep) == ls
    decreases |ls|
  {
    if |ls| == 1 {
      SplitNoSep(ls[0], sep);
    } else {
      SplitNoSep(ls[0], sep);
      SplitJoin(ls[1..], sep);
      SplitAround(ls[0], Join(ls[1..], sep), sep);
      assert ls == [ls[0]] + ls[1..];
    }
  }
}
