/**
 * The operations of Go's `strings` package that the server relies on, over
 * `string` = seq<char>: Index (as IndexFrom), SplitN with n = 2 (as Cut),
 * Split, Join, LastIndex, HasPrefix and HasSuffix.
 */
module Strings {
  import opened Wrappers

  /** `sep` occurs in `s` starting at index `i`. */
  ghost predicate OccursAt(s: string, sep: string, i: int) {
    0 <= i && i + |sep| <= |s| && s[i..i + |sep|] == sep
  }

  ghost predicate Contains(s: string, sep: string) {
    exists i :: OccursAt(s, sep, i)
  }

  predicate HasPrefix(s: string, prefix: string) {
    |prefix| <= |s| && s[..|prefix|] == prefix
  }

  predicate HasSuffix(s: string, suffix: string) {
    |suffix| <= |s| && s[|s| - |suffix|..] == suffix
  }

  /** The first index at or after `from` where `sep` occurs in `s`. */
  function IndexFrom(s: string, sep: string, from: nat): (r: Option<nat>)
    decreases |s| - from
    ensures r.Some? ==> from <= r.value && OccursAt(s, sep, r.value)
    ensures r.Some? ==> forall k :: from <= k < r.value ==> !OccursAt(s, sep, k)
    ensures r.None? ==> forall k :: from <= k ==> !OccursAt(s, sep, k)
  {
    if |s| < from + |sep| then None
    else if s[from..from + |sep|] == sep then Some(from)
    else IndexFrom(s, sep, from + 1)
  }

  /** An occurrence inside a prefix of `s` is an occurrence in `s`. */
  lemma OccursInPrefix(s: string, n: nat, sep: string, k: int)
    requires n <= |s| && OccursAt(s[..n], sep, k)
    ensures OccursAt(s, sep, k) && k + |sep| <= n
  {
    assert s[..n][k..k + |sep|] == s[k..k + |sep|];
  }

  /** An occurrence in `s` that ends within its first `n` characters is an occurrence in that prefix. */
  lemma OccursInsidePrefix(s: string, n: nat, sep: string, k: int)
    requires n <= |s| && OccursAt(s, sep, k) && k + |sep| <= n
    ensures OccursAt(s[..n], sep, k)
  {
    assert s[..n][k..k + |sep|] == s[k..k + |sep|];
  }

  /**
   * `strings.SplitN(s, sep, 2)`: the text before the first occurrence of
   * `sep` and the text after it, or None when `sep` does not occur.
   */
  function Cut(s: string, sep: string): (r: Option<(string, string)>)
    requires |sep| > 0
    ensures r.None? <==> !Contains(s, sep)
    ensures r.Some? ==> r.value.0 + sep + r.value.1 == s
    ensures r.Some? ==> forall k :: OccursAt(s, sep, k) ==> |r.value.0| <= k
    ensures r.Some? ==> !Contains(r.value.0, sep)
  {
    match IndexFrom(s, sep, 0)
    case None => None
    case Some(m) =>
      assert s == s[..m] + sep + s[m + |sep|..] by {
        assert s == s[..m] + s[m..m + |sep|] + s[m + |sep|..];
      }
      assert !Contains(s[..m], sep) by {
        forall k | OccursAt(s[..m], sep, k) ensures false {
          OccursInPrefix(s, m, sep, k);
        }
      }
      Some((s[..m], s[m + |sep|..]))
  }

  /** The text of `s` before the first occurrence of `sep`, or all of `s` when it has none. */
  function Before(s: string, sep: string): (r: string)
    requires |sep| > 0
    ensures HasPrefix(s, r)
    ensures r == s || OccursAt(s, sep, |r|)
    ensures forall k :: OccursAt(s, sep, k) ==> |r| <= k
  {
    match Cut(s, sep)
    case None => s
    case Some((before, after)) =>
      assert s[..|before|] == before && s[|before|..|before| + |sep|] == sep by {
        assert s == before + sep + after;
      }
      before
  }

  /**
   * The text before the first occurrence is pinned down by where that
   * occurrence is: any `n` with no occurrence below it, and an occurrence
   * at it or `n` the length of `s`, gives `Before(s, sep) == s[..n]`.
   */
  lemma BeforeAt(s: string, sep: string, n: nat)
    requires |sep| > 0 && n <= |s|
    requires n == |s| || OccursAt(s, sep, n)
    requires forall k :: 0 <= k < n ==> !OccursAt(s, sep, k)
    ensures Before(s, sep) == s[..n]
  {
  }

  /** Likewise for Cut: the first occurrence of `sep` decides both halves. */
  lemma CutAt(s: string, sep: string, n: nat)
    requires |sep| > 0 && OccursAt(s, sep, n)
    requires forall k :: 0 <= k < n ==> !OccursAt(s, sep, k)
    ensures Cut(s, sep) == Some((s[..n], s[n + |sep|..]))
  {
    var r := Cut(s, sep);
    assert |r.value.0| == n;
    assert s == r.value.0 + sep + r.value.1;
    assert s[..n] == r.value.0;
    assert s[n + |sep|..] == r.value.1;
  }

  /** Cut on a one-character separator splits at the first occurrence of that character. */
  lemma CutChar(s: string, c: char, n: nat)
    requires n < |s| && s[n] == c && c !in s[..n]
    ensures Cut(s, [c]) == Some((s[..n], s[n + 1..]))
  {
    assert OccursAt(s, [c], n) by {
      assert s[n..n + 1] == [s[n]];
    }
    forall k | 0 <= k < n ensures !OccursAt(s, [c], k) {
      assert s[..n][k] == s[k];
      assert s[k..k + 1] == [s[k]];
    }
    CutAt(s, [c], n);
  }

  /** A text starts with each of its prefixes, and the character after one is the next part's first. */
  lemma PrefixOfConcat(a: string, b: string)
    ensures HasPrefix(a + b, a) && (|b| > 0 ==> (a + b)[|a|] == b[0])
  {
    assert (a + b)[..|a|] == a;
  }

  /** `strings.Join`: the parts with `sep` written between consecutive parts. */
  function Join(parts: seq<string>, sep: string): string
  {
    if |parts| == 0 then ""
    else if |parts| == 1 then parts[0]
    else parts[0] + sep + Join(parts[1..], sep)
  }

  /** Appending a part to a join writes one separator before it, unless it is the first part. */
  lemma {:induction false} JoinSnoc(parts: seq<string>, last: string, sep: string)
    ensures Join(parts + [last], sep) == if parts == [] then last else Join(parts, sep) + sep + last
  {
    if |parts| > 1 {
      assert (parts + [last])[1..] == parts[1..] + [last];
      JoinSnoc(parts[1..], last, sep);
    } else if |parts| == 1 {
      assert (parts + [last])[1..] == [last];
    }
  }

  /**
   * `strings.Split` with a non-empty separator: the texts between
   * consecutive occurrences of `sep`, found left to right. What makes it a
   * split is stated by the lemmas below: the parts join back to `s`
   * (SplitJoin), no part contains `sep` (SplitPartsFree), and for a
   * one-character separator these two facts determine the parts
   * (SplitUnique).
   */
  function Split(s: string, sep: string): (parts: seq<string>)
    requires |sep| > 0
    decreases |s|
    ensures |parts| >= 1
    ensures |parts| == 1 <==> Cut(s, sep).None?
  {
    match Cut(s, sep)
    case None => [s]
    case Some((before, after)) => [before] + Split(after, sep)
  }

  /** A split joins back with its separator to the text it came from. */
  lemma {:induction false} SplitJoin(s: string, sep: string)
    requires |sep| > 0
    ensures Join(Split(s, sep), sep) == s
    decreases |s|
  {
    match Cut(s, sep)
    case None =>
    case Some((before, after)) =>
      SplitJoin(after, sep);
      assert Split(s, sep)[1..] == Split(after, sep);
  }

  /** No part of a split contains the separator. */
  lemma {:induction false} SplitPartsFree(s: string, sep: string)
    requires |sep| > 0
    ensures forall i :: 0 <= i < |Split(s, sep)| ==> !Contains(Split(s, sep)[i], sep)
    decreases |s|
  {
    match Cut(s, sep)
    case None =>
    case Some((before, after)) =>
      SplitPartsFree(after, sep);
      PartsFreeCons(Split(s, sep), before, Split(after, sep), sep);
  }

  /** Prepending a part free of `sep` to parts free of `sep` keeps them all free of it. */
  lemma PartsFreeCons(parts: seq<string>, first: string, rest: seq<string>, sep: string)
    requires parts == [first] + rest && !Contains(first, sep)
    requires forall i :: 0 <= i < |rest| ==> !Contains(rest[i], sep)
    ensures forall i :: 0 <= i < |parts| ==> !Contains(parts[i], sep)
  {
    forall i | 0 <= i < |parts| ensures !Contains(parts[i], sep) {
      if i > 0 {
        assert parts[i] == rest[i - 1];
      }
    }
  }

  /** The first part of a split is the text before the first separator. */
  lemma SplitFirst(s: string, sep: string)
    requires |sep| > 0
    ensures Split(s, sep)[0] == Before(s, sep)
  {
  }

  /** Every character of every part of a split is a character of the split text. */
  lemma {:induction false} SplitPartChars(s: string, sep: string, i: nat, c: char)
    requires |sep| > 0 && i < |Split(s, sep)| && c in Split(s, sep)[i]
    ensures c in s
    decreases |s|
  {
    match Cut(s, sep)
    case None =>
    case Some((before, after)) =>
      assert s == before + sep + after;
      if i > 0 {
        SplitPartChars(after, sep, i - 1, c);
      }
  }

  /** For a one-character separator, containing it as a string and as a character agree. */
  lemma ContainsChar(s: string, c: char)
    ensures Contains(s, [c]) <==> c in s
  {
    if c in s {
      var i :| 0 <= i < |s| && s[i] == c;
      assert OccursAt(s, [c], i);
    }
    if Contains(s, [c]) {
      var i :| OccursAt(s, [c], i);
      assert s[i] == s[i..i + 1][0];
    }
  }

  /** Splitting on a character gives one more part than there are occurrences of it. */
  lemma {:induction false} SplitCount(s: string, c: char)
    ensures |Split(s, [c])| == multiset(s)[c] + 1
    decreases |s|
  {
    match Cut(s, [c])
    case None =>
      ContainsChar(s, c);
    case Some((before, after)) =>
      ContainsChar(before, c);
      assert s == before + [c] + after;
      assert multiset(s) == multiset(before) + multiset{c} + multiset(after);
      SplitCount(after, c);
  }

  /**
   * For a one-character separator a split is determined by its two
   * defining properties: any parts free of `c` that join back to `s`
   * are the split of `s`.
   */
  lemma {:induction false} SplitUnique(s: string, c: char, parts: seq<string>)
    requires |parts| >= 1 && Join(parts, [c]) == s
    requires forall i :: 0 <= i < |parts| ==> c !in parts[i]
    ensures Split(s, [c]) == parts
    decreases |parts|
  {
    if |parts| == 1 {
      ContainsChar(s, c);
    } else {
      var head, tail := parts[0], Join(parts[1..], [c]);
      assert s == head + [c] + tail;
      assert OccursAt(s, [c], |head|) by {
        assert s[|head|..|head| + 1] == [c];
      }
      var cut := Cut(s, [c]);
      var k := |cut.value.0|;
      assert s[k] == c by {
        assert s == cut.value.0 + [c] + cut.value.1;
      }
      assert forall j :: 0 <= j < |head| ==> s[j] != c by {
        assert forall j :: 0 <= j < |head| ==> s[j] == head[j];
      }
      assert k == |head|;
      assert cut.value.0 == head && cut.value.1 == tail by {
        assert s == cut.value.0 + [c] + cut.value.1;
        assert s[..|head|] == head;
        assert s[|head| + 1..] == tail;
      }
      SplitUnique(tail, c, parts[1..]);
    }
  }

  /** The last index below `n` where `c` occurs in `s`, or -1. */
  function LastIndexBelow(s: string, c: char, n: nat): (r: int)
    requires n <= |s|
    ensures -1 <= r < n
    ensures r >= 0 ==> s[r] == c
    ensures forall k :: r < k < n ==> s[k] != c
  {
    if n == 0 then -1
    else if s[n - 1] == c then n - 1
    else LastIndexBelow(s, c, n - 1)
  }

  /** `strings.LastIndex` for a one-character needle: -1 when absent. */
  function LastIndexOf(s: string, c: char): (r: int)
    ensures -1 <= r < |s|
    ensures r == -1 <==> c !in s
    ensures r >= 0 ==> s[r] == c && c !in s[r + 1..]
  {
    var r := LastIndexBelow(s, c, |s|);
    assert r >= 0 ==> c !in s[r + 1..] by {
      if r >= 0 {
        var tail := s[r + 1..];
        forall k | 0 <= k < |tail| ensures tail[k] != c {
          assert tail[k] == s[r + 1 + k];
        }
      }
    }
    r
  }
}
