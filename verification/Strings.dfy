/** String operations used by the parsers and printers. */
module Strings {

  predicate EndsWith(s: string, suffix: string) {
    |suffix| <= |s| && s[|s| - |suffix|..] == suffix
  }

  function StripPrefix(s: string, prefix: string): string {
    if prefix <= s then s[|prefix|..] else s
  }

  lemma Associates(a: string, b: string, c: string)
    ensures a + b + c == a + (b + c)
  {
  }

  lemma Parts(a: string, b: string)
    ensures (a + b)[..|a|] == a && (a + b)[|a|..] == b
  {
  }

  /** The parts before and after the first `c`; without `c` everything is before. */
  function SplitOnce(s: string, c: char): (r: (string, string))
    ensures c !in r.0
    ensures c in s ==> r.0 + [c] + r.1 == s
    ensures c !in s ==> r == (s, "")
  {
    if s == [] then ("", "")
    else if s[0] == c then ("", s[1..])
    else
      var rest := SplitOnce(s[1..], c);
      assert s == [s[0]] + s[1..];
      ([s[0]] + rest.0, rest.1)
  }

  /** The first part grows by a character in front. */
  function Extend(c: char, parts: seq<string>): (r: seq<string>)
    requires |parts| >= 1
    ensures |r| == |parts|
  {
    [[c] + parts[0]] + parts[1..]
  }

  lemma ExtendLeft(c: char, a: seq<string>, b: seq<string>)
    requires |a| >= 1
    ensures Extend(c, a + b) == Extend(c, a) + b
  {
    assert (a + b)[1..] == a[1..] + b;
  }

  /** All parts between occurrences of `c`. */
  function Split(s: string, c: char): (parts: seq<string>)
    ensures |parts| >= 1
  {
    if s == [] then [""]
    else
      var rest := Split(s[1..], c);
      if s[0] == c then [""] + rest else Extend(s[0], rest)
  }

  lemma {:induction false} SplitOnceAt(l: string, c: char, r: string)
    requires c !in l
    ensures SplitOnce(l + [c] + r, c) == (l, r)
  {
    if l == [] {
      assert l + [c] + r == [c] + r;
    } else {
      SplitOnceAt(l[1..], c, r);
      assert l == [l[0]] + l[1..];
      assert (l + [c] + r)[1..] == l[1..] + [c] + r;
    }
  }

  /** Only what is before the first separator counts. */
  lemma {:induction false} SplitOnceFirst(p: string, c: char, rest: string)
    requires c in p
    ensures SplitOnce(p + [c] + rest, c).0 == SplitOnce(p, c).0 && |SplitOnce(p, c).0| < |p|
  {
    assert (p + [c] + rest)[0] == p[0];
    if p[0] != c {
      SplitOnceFirst(p[1..], c, rest);
      assert (p + [c] + rest)[1..] == p[1..] + [c] + rest;
    }
  }

  lemma {:induction false} SplitWhole(s: string, c: char)
    requires c !in s
    ensures Split(s, c) == [s]
  {
    if s == [] {
    } else {
      SplitWhole(s[1..], c);
      assert s == [s[0]] + s[1..];
    }
  }

  lemma SplitTail(s: string, c: char, rest: string)
    requires s != [] && rest == s[1..]
    ensures Split(s, c) == if s[0] == c then [""] + Split(rest, c) else Extend(s[0], Split(rest, c))
  {
  }

  /** Cutting at an occurrence of `c` splits both sides on their own. */
  lemma {:induction false} SplitAt(l: string, c: char, r: string)
    ensures Split(l + [c] + r, c) == Split(l, c) + Split(r, c)
  {
    if l == [] {
      assert l + [c] + r == [c] + r;
      assert ([c] + r)[1..] == r;
    } else {
      SplitAt(l[1..], c, r);
      var a, b := Split(l[1..], c), Split(r, c);
      SplitTail(l + [c] + r, c, l[1..] + [c] + r);
      if l[0] == c {
        assert [""] + (a + b) == [""] + a + b;
      } else {
        ExtendLeft(l[0], a, b);
      }
    }
  }

  /** The parts hold no separator and nothing that is not in the text. */
  lemma {:induction false} SplitParts(s: string, c: char, x: char)
    ensures forall i :: 0 <= i < |Split(s, c)| ==> c !in Split(s, c)[i] && (x in Split(s, c)[i] ==> x in s)
  {
    if s == [] {
    } else {
      SplitParts(s[1..], c, x);
      assert s == [s[0]] + s[1..];
    }
  }

  lemma {:induction false} SplitMore(s: string, c: char)
    requires c in s
    ensures |Split(s, c)| >= 2
  {
    if s[0] != c {
      SplitMore(s[1..], c);
    }
  }
}
