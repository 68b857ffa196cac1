/** Character-string operations the card parser and writer are built from,
    stated over `string` (a `seq<char>`): prefix and suffix tests, search for
    the first occurrence of a character or of a substring, splitting at every
    occurrence of a delimiter, joining, and ASCII case folding. */
module Strings {

  predicate StartsWith(s: string, prefix: string) {
    |prefix| <= |s| && s[..|prefix|] == prefix
  }

  predicate EndsWith(s: string, suffix: string) {
    |suffix| <= |s| && s[|s| - |suffix|..] == suffix
  }

  /** Index of the first `c` in `s`, or `|s|` when `s` holds none (the
      position `strchr` points at, with "not found" mapped to the end). */
  function IndexOf(s: string, c: char): (r: nat)
    ensures r <= |s|
    ensures r < |s| ==> s[r] == c
    ensures forall k :: 0 <= k < r ==> s[k] != c
    ensures r == |s| <==> c !in s
  {
    if |s| == 0 then 0
    else if s[0] == c then 0
    else 1 + IndexOf(s[1..], c)
  }

  /** `pat` occurs in `s` starting at index `i`. */
  predicate OccursAt(s: string, pat: string, i: int) {
    0 <= i && i + |pat| <= |s| && s[i..i + |pat|] == pat
  }

  /** Substring search, as `strstr(s, pat) != NULL`. */
  function Contains(s: string, pat: string): (r: bool)
    ensures r <==> exists i :: OccursAt(s, pat, i)
    decreases |s|
  {
    if StartsWith(s, pat) then
      assert OccursAt(s, pat, 0);
      true
    else if |s| == 0 then
      false
    else
      var r := Contains(s[1..], pat);
      assert forall i :: OccursAt(s[1..], pat, i) ==> OccursAt(s, pat, i + 1);
      assert forall i :: OccursAt(s, pat, i) && i > 0 ==> OccursAt(s[1..], pat, i - 1);
      r
  }

  /** The pieces joined back together with `sep` between neighbours. */
  function Join(pieces: seq<string>, sep: string): string
  {
    if |pieces| == 0 then ""
    else if |pieces| == 1 then pieces[0]
    else pieces[0] + sep + Join(pieces[1..], sep)
  }

  /** Cuts `s` at every occurrence of `d`, keeping empty pieces; there is
      always at least one piece. */
  function Split(s: string, d: char): (r: seq<string>)
    ensures |r| >= 1
    ensures Join(r, [d]) == s
    ensures forall k :: 0 <= k < |r| ==> d !in r[k]
    decreases |s|
  {
    var i := IndexOf(s, d);
    if i == |s| then [s]
    else
      var rest := Split(s[i + 1..], d);
      assert s == s[..i] + [d] + s[i + 1..];
      [s[..i]] + rest
  }

  /** The non-empty pieces, in order. */
  function NonEmpty(pieces: seq<string>): (r: seq<string>)
    ensures forall k :: 0 <= k < |r| ==> |r[k]| > 0
    ensures forall x :: x in r <==> x in pieces && |x| > 0
  {
    if |pieces| == 0 then []
    else if |pieces[0]| == 0 then NonEmpty(pieces[1..])
    else [pieces[0]] + NonEmpty(pieces[1..])
  }

  /** The tokens `strtok` yields: the pieces between delimiters, with the
      empty ones skipped. */
  function Tokens(s: string, d: char): (r: seq<string>)
    ensures forall k :: 0 <= k < |r| ==> |r[k]| > 0 && d !in r[k]
    ensures forall x :: x in r <==> x in Split(s, d) && |x| > 0
  {
    NonEmpty(Split(s, d))
  }

  /** `strtok`'s own scan, as an independent reference: skip delimiters,
      then take everything up to the next delimiter as one token. */
  function Strtok(s: string, d: char): seq<string>
    decreases |s|
  {
    if |s| == 0 then []
    else if s[0] == d then Strtok(s[1..], d)
    else
      var e := IndexOf(s, d);
      [s[..e]] + (if e == |s| then [] else Strtok(s[e + 1..], d))
  }

  /** The tokens are exactly what `strtok` returns, in its order and with
      repeated tokens kept. */
  lemma {:induction false} TokensAreStrtok(s: string, d: char)
    ensures Tokens(s, d) == Strtok(s, d)
    decreases |s|
  {
    var e := IndexOf(s, d);
    if |s| == 0 {
      assert Split(s, d) == [s];
    } else if e == |s| {
      assert Split(s, d) == [s];
      assert NonEmpty([s]) == [s];
      assert s[0] != d && s[..e] == s;
    } else {
      var rest := Split(s[e + 1..], d);
      assert Split(s, d) == [s[..e]] + rest;
      assert ([s[..e]] + rest)[1..] == rest;
      TokensAreStrtok(s[e + 1..], d);
      if e == 0 {
        assert s[1..] == s[e + 1..];
      }
    }
  }

  /** Dropping the empty pieces of two lists, one after the other. */
  lemma {:induction false} NonEmptyAppend(a: seq<string>, b: seq<string>)
    ensures NonEmpty(a + b) == NonEmpty(a) + NonEmpty(b)
    decreases |a|
  {
    if |a| == 0 {
      assert a + b == b;
    } else {
      assert (a + b)[0] == a[0];
      assert (a + b)[1..] == a[1..] + b;
      NonEmptyAppend(a[1..], b);
    }
  }

  /** All strings concatenated. */
  function Concat(parts: seq<string>): string
  {
    if |parts| == 0 then "" else parts[0] + Concat(parts[1..])
  }

  /** `tolower` on one character (ASCII letters only). */
  function LowerChar(c: char): char
  {
    if 'A' <= c <= 'Z' then (c as int - 'A' as int + 'a' as int) as char else c
  }

  /** `strcasecmp(a, b) == 0`: same length, and the same characters up to
      the case of ASCII letters. */
  predicate EqualsIgnoreCase(a: string, b: string)
  {
    |a| == |b| && forall i :: 0 <= i < |a| ==> LowerChar(a[i]) == LowerChar(b[i])
  }

  lemma AppendAssoc<T>(a: seq<T>, b: seq<T>, c: seq<T>)
    ensures (a + b) + c == a + (b + c)
  {
  }

  lemma AppendParts<T>(a: seq<T>, b: seq<T>)
    ensures (a + b)[..|a|] == a
    ensures forall j :: 0 <= j < |b| ==> (a + b)[|a| + j] == b[j]
  {
  }

  lemma AppendSlice<T>(a: seq<T>, b: seq<T>, n: nat)
    requires n <= |b|
    ensures (a + b)[|a|..|a| + n] == b[..n]
  {
  }

  lemma EndsWithLast(s: string, c: char)
    requires |s| > 0 && s[|s| - 1] == c
    ensures EndsWith(s, [c])
  {
    assert s[|s| - 1..] == [c];
  }

  /** Splitting a joined sequence gives the pieces back, provided no piece
      contains the delimiter. */
  lemma {:induction false} SplitJoin(pieces: seq<string>, d: char)
    requires |pieces| >= 1
    requires forall k :: 0 <= k < |pieces| ==> d !in pieces[k]
    ensures Split(Join(pieces, [d]), d) == pieces
    decreases |pieces|
  {
    var head := pieces[0];
    if |pieces| == 1 {
      assert Join(pieces, [d]) == head;
      assert IndexOf(head, d) == |head|;
    } else {
      var tail := Join(pieces[1..], [d]);
      var s := head + ([d] + tail);
      assert Join(pieces, [d]) == s;
      IndexOfAppend(head, [d] + tail, d);
      assert IndexOf(s, d) == |head|;
      assert s[..|head|] == head;
      assert s[|head| + 1..] == tail;
      SplitJoin(pieces[1..], d);
      assert Split(s, d) == [head] + Split(tail, d);
      assert pieces == [head] + pieces[1..];
    }
  }

  /** Searching a concatenation: the hit is in `a` if `a` has one, otherwise
      it is found in `b`, shifted by `|a|`. */
  lemma {:induction false} IndexOfAppend(a: string, b: string, c: char)
    ensures IndexOf(a + b, c) == if c in a then IndexOf(a, c) else |a| + IndexOf(b, c)
    decreases |a|
  {
    if |a| == 0 {
      assert a + b == b;
    } else if a[0] == c {
    } else {
      assert (a + b)[1..] == a[1..] + b;
      IndexOfAppend(a[1..], b, c);
      assert c in a <==> c in a[1..];
    }
  }

  /** Cutting `before + [c] + after` at its first `c` gives back both parts. */
  lemma CutAtFirst(before: string, after: string, c: char)
    requires c !in before
    ensures var r := before + ([c] + after);
      && IndexOf(r, c) == |before|
      && r[..IndexOf(r, c)] == before
      && r[IndexOf(r, c) + 1..] == after
  {
    var tail := [c] + after;
    var r := before + tail;
    assert tail[0] == c;
    assert IndexOf(tail, c) == 0;
    IndexOfAppend(before, tail, c);
    assert r[..|before|] == before;
    assert r[|before|..] == tail;
    assert tail[1..] == after;
  }

  /** Two prefixes that differ at some position exclude each other. */
  lemma PrefixesDisagree(s: string, p: string, q: string, k: nat)
    requires StartsWith(s, p) && k < |p| && k < |q| && p[k] != q[k]
    ensures !StartsWith(s, q)
  {
    assert s[k] == p[k];
  }

  /** A prefix of a prefix is a prefix. */
  lemma PrefixOfPrefix(s: string, p: string, q: string)
    requires StartsWith(s, q) && StartsWith(q, p)
    ensures StartsWith(s, p)
  {
    assert s[..|p|] == q[..|p|];
  }

  /** A character of a prefix occurs in the whole string. */
  lemma PrefixMember(s: string, p: string, c: char)
    requires c in p
    ensures StartsWith(s, p) ==> c in s
  {
    var k :| 0 <= k < |p| && p[k] == c;
    if StartsWith(s, p) {
      assert s[k] == c;
    }
  }

  /** Dropping empty pieces changes nothing when there are none. */
  lemma {:induction false} NonEmptyKeepsNonEmpty(pieces: seq<string>)
    requires forall k :: 0 <= k < |pieces| ==> |pieces[k]| > 0
    ensures NonEmpty(pieces) == pieces
    decreases |pieces|
  {
    if |pieces| > 0 {
      NonEmptyKeepsNonEmpty(pieces[1..]);
      assert pieces == [pieces[0]] + pieces[1..];
    }
  }

  /** Concatenation distributes over appending sequences of strings. */
  lemma {:induction false} ConcatAppend(a: seq<string>, b: seq<string>)
    ensures Concat(a + b) == Concat(a) + Concat(b)
    decreases |a|
  {
    if |a| == 0 {
      assert a + b == b;
    } else {
      assert (a + b)[1..] == a[1..] + b;
      ConcatAppend(a[1..], b);
    }
  }
}
