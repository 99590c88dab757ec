/**
 * The parts of Python's `str` that the cleaning code relies on:
 * `isspace`, `strip`, `replace(c, '')`, `find`, `split(sep)` and `join`.
 */
module Text {
  import opened Wrappers

  /**
   * Python's `str.isspace`: the characters `strip()` removes and the
   * regular-expression class `\s` matches.
   */
  predicate IsSpace(c: char) {
    var n := c as int;
    (9 <= n <= 13) || (28 <= n <= 32) || n == 0x85 || n == 0xA0 || n == 0x1680
    || (0x2000 <= n <= 0x200A) || n == 0x2028 || n == 0x2029 || n == 0x202F
    || n == 0x205F || n == 0x3000
  }

  function LeadingSpaces(s: string): (k: nat)
    ensures k <= |s|
    ensures forall i :: 0 <= i < k ==> IsSpace(s[i])
    ensures k < |s| ==> !IsSpace(s[k])
  {
    if s == [] || !IsSpace(s[0]) then 0 else 1 + LeadingSpaces(s[1..])
  }

  /** The length of `s` once its trailing whitespace is cut off. */
  function TrailingStart(s: string): (j: nat)
    ensures j <= |s|
    ensures forall i :: j <= i < |s| ==> IsSpace(s[i])
    ensures j > 0 ==> !IsSpace(s[j - 1])
  {
    if s == [] || !IsSpace(s[|s| - 1]) then |s| else TrailingStart(s[..|s| - 1])
  }

  /** `r` is the slice of `s` starting at `i`, and only whitespace lies outside it. */
  predicate IsTrimmedSlice(s: string, r: string, i: int) {
    0 <= i <= |s| - |r|
    && r == s[i..i + |r|]
    && (forall k :: 0 <= k < i ==> IsSpace(s[k]))
    && (forall k :: i + |r| <= k < |s| ==> IsSpace(s[k]))
  }

  /** Python's `s.strip()`: the slice of `s` between its outer whitespace. */
  function Strip(s: string): (r: string)
    ensures r == [] || (!IsSpace(r[0]) && !IsSpace(r[|r| - 1]))
    ensures exists i :: IsTrimmedSlice(s, r, i)
  {
    var k := LeadingSpaces(s);
    var rest := s[k..];
    var j := TrailingStart(rest);
    assert rest[..j] == s[k..k + j];
    assert forall p :: k + j <= p < |s| ==> s[p] == rest[p - k];
    assert IsTrimmedSlice(s, rest[..j], k);
    rest[..j]
  }

  /** Python's `s.replace(c, '')` for a one-character `c`. */
  function RemoveAll(s: string, c: char): (r: string)
    ensures c !in r
    ensures forall x :: x != c ==> multiset(r)[x] == multiset(s)[x]
  {
    if s == [] then []
    else
      assert s == [s[0]] + s[1..];
      if s[0] == c then RemoveAll(s[1..], c) else [s[0]] + RemoveAll(s[1..], c)
  }

  /**
   * Removal works character by character and keeps the order of the rest:
   * it distributes over concatenation, and leaves a text without `c` as it is.
   */
  lemma {:induction false} RemoveAllAppend(a: string, b: string, c: char)
    ensures RemoveAll(a + b, c) == RemoveAll(a, c) + RemoveAll(b, c)
    ensures c !in a ==> RemoveAll(a, c) == a
    decreases |a|
  {
    if a == [] {
      assert a + b == b;
    } else {
      var ab := a + b;
      assert ab[0] == a[0] && ab[1..] == a[1..] + b;
      RemoveAllAppend(a[1..], b, c);
      if a[0] != c {
        assert RemoveAll(ab, c) == [a[0]] + RemoveAll(a[1..] + b, c);
        assert RemoveAll(a, c) == [a[0]] + RemoveAll(a[1..], c);
      }
      if c !in a {
        assert c !in a[1..];
        assert a == [a[0]] + a[1..];
      }
    }
  }

  predicate OccursAt(s: string, sub: string, i: int) {
    0 <= i && i + |sub| <= |s| && s[i..i + |sub|] == sub
  }

  /** Python's `s.find(sub, i)`, with `None` for -1. */
  function FindFrom(s: string, sub: string, i: nat): (r: Option<nat>)
    requires i <= |s|
    ensures r.Some? ==> i <= r.value && OccursAt(s, sub, r.value)
    ensures r.Some? ==> forall j :: i <= j < r.value ==> !OccursAt(s, sub, j)
    ensures r.None? ==> forall j :: i <= j ==> !OccursAt(s, sub, j)
    decreases |s| - i
  {
    if OccursAt(s, sub, i) then Some(i)
    else if i == |s| then None
    else FindFrom(s, sub, i + 1)
  }

  function Find(s: string, sub: string): (r: Option<nat>)
    ensures r.Some? ==> OccursAt(s, sub, r.value) && forall j :: 0 <= j < r.value ==> !OccursAt(s, sub, j)
    ensures r.None? ==> forall j :: !OccursAt(s, sub, j)
  {
    FindFrom(s, sub, 0)
  }

  /** Python's `sub in s`. */
  predicate Contains(s: string, sub: string) {
    Find(s, sub).Some?
  }

  /** Python's `s.split(sep)` for a non-empty `sep`: cut at each leftmost occurrence. */
  function Split(s: string, sep: string): (parts: seq<string>)
    requires |sep| > 0
    ensures |parts| >= 1
    decreases |s|
  {
    match Find(s, sep)
    case None => [s]
    case Some(i) => [s[..i]] + Split(s[i + |sep|..], sep)
  }

  /**
   * `split` cuts at the leftmost occurrence and goes on after it: with one
   * part, the separator does not occur at all; otherwise the first part is
   * the text before the first occurrence, and the other parts are the split
   * of the text after it. This determines the parts of every string.
   */
  lemma SplitFirstCut(s: string, sep: string)
    requires |sep| > 0
    ensures var parts := Split(s, sep);
      (|parts| == 1 ==> parts[0] == s && forall j :: !OccursAt(s, sep, j))
      && (|parts| > 1 ==>
            OccursAt(s, sep, |parts[0]|)
            && (forall j :: 0 <= j < |parts[0]| ==> !OccursAt(s, sep, j))
            && parts[0] == s[..|parts[0]|]
            && parts[1..] == Split(s[|parts[0]| + |sep|..], sep))
  {
    var found := Find(s, sep);
    var parts := Split(s, sep);
    if found.None? {
      assert parts == [s];
    } else {
      var i := found.value;
      var head, rest := s[..i], Split(s[i + |sep|..], sep);
      assert parts == [head] + rest;
      assert parts[0] == head && parts[1..] == rest && |parts| > 1;
      assert |head| == i;
    }
  }

  /** Python's `sep.join(parts)`. */
  function Join(parts: seq<string>, sep: string): string
    requires |parts| >= 1
  {
    if |parts| == 1 then parts[0] else parts[0] + sep + Join(parts[1..], sep)
  }

  /** Splitting loses nothing: joining the parts back gives the original text. */
  lemma {:induction false} JoinSplit(s: string, sep: string)
    requires |sep| > 0
    ensures Join(Split(s, sep), sep) == s
    decreases |s|
  {
    var found := Find(s, sep);
    if found.Some? {
      var i := found.value;
      var head, tail := s[..i], s[i + |sep|..];
      var rest := Split(tail, sep);
      JoinSplit(tail, sep);
      assert Split(s, sep) == [head] + rest;
      JoinCons(head, rest, sep);
      CutAround(s, i, |sep|);
      assert s[i..i + |sep|] == sep;
    }
  }

  lemma CutAround(s: string, i: nat, n: nat)
    requires i + n <= |s|
    ensures s == s[..i] + s[i..i + n] + s[i + n..]
  {
  }

  lemma JoinCons(head: string, rest: seq<string>, sep: string)
    requires |rest| >= 1
    ensures Join([head] + rest, sep) == head + sep + Join(rest, sep)
  {
    assert ([head] + rest)[1..] == rest;
  }

  /** No part of a split contains the separator. */
  lemma {:induction false} SplitPartsAvoidSeparator(s: string, sep: string)
    requires |sep| > 0
    ensures forall k :: 0 <= k < |Split(s, sep)| ==> !Contains(Split(s, sep)[k], sep)
    decreases |s|
  {
    match Find(s, sep)
    case None =>
    case Some(i) =>
      var tail := s[i + |sep|..];
      SplitPartsAvoidSeparator(tail, sep);
      var head := s[..i];
      if Contains(head, sep) {
        var j := Find(head, sep).value;
        assert head[j..j + |sep|] == s[j..j + |sep|];
        assert OccursAt(s, sep, j);
        assert false;
      }
      var parts := Split(s, sep);
      assert parts == [head] + Split(tail, sep);
      forall k | 0 <= k < |parts| ensures !Contains(parts[k], sep) {
        if k > 0 { assert parts[k] == Split(tail, sep)[k - 1]; }
      }
  }

  /**
   * When the first character of `sep` does not occur in `a`, the first cut
   * of `a + sep + b` falls right after `a`.
   */
  lemma SplitAfter(a: string, sep: string, b: string)
    requires |sep| > 0 && sep[0] !in a
    ensures Split(a + sep + b, sep) == [a] + Split(b, sep)
  {
    var s := a + sep + b;
    assert s[|a|..|a| + |sep|] == sep;
    assert OccursAt(s, sep, |a|);
    forall j | 0 <= j < |a| ensures !OccursAt(s, sep, j) {
      assert s[j] == a[j];
      assert s[j] != sep[0];
    }
    var i := Find(s, sep).value;
    assert i == |a|;
    assert s[..i] == a;
    assert s[i + |sep|..] == b;
  }

  /** Text without the first character of `sep` is never split. */
  lemma SplitWithoutSeparator(s: string, sep: string)
    requires |sep| > 0 && sep[0] !in s
    ensures Split(s, sep) == [s]
  {
    forall j | 0 <= j < |s| ensures !OccursAt(s, sep, j) {
      assert s[j] != sep[0];
    }
  }
}
