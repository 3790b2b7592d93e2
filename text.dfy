/**
  The string operations the request-shaping code relies on: byte-wise
  lexicographic order and sorting, joining, single-character replacement,
  trimming a character from both ends, ASCII upper-casing, suffix test.
*/
module Text {

  /** a sorts before or equal to b: the first differing character decides, a prefix sorts first. */
  predicate StrLeq(a: string, b: string)
    ensures a <= b ==> StrLeq(a, b)
  {
    if a == [] then true
    else if b == [] then false
    else if a[0] != b[0] then a[0] < b[0]
    else StrLeq(a[1..], b[1..])
  }

  lemma {:induction false} StrLeqTotal(a: string, b: string)
    ensures StrLeq(a, b) || StrLeq(b, a)
  {
    if a != [] && b != [] && a[0] == b[0] {
      StrLeqTotal(a[1..], b[1..]);
    }
  }

  lemma {:induction false} StrLeqAntisymmetric(a: string, b: string)
    requires StrLeq(a, b) && StrLeq(b, a)
    ensures a == b
  {
    if a != [] && b != [] {
      StrLeqAntisymmetric(a[1..], b[1..]);
      assert a == [a[0]] + a[1..];
      assert b == [b[0]] + b[1..];
    }
  }

  lemma {:induction false} StrLeqTransitive(a: string, b: string, c: string)
    requires StrLeq(a, b) && StrLeq(b, c)
    ensures StrLeq(a, c)
  {
    if a != [] && b != [] && c != [] && a[0] == b[0] && b[0] == c[0] {
      StrLeqTransitive(a[1..], b[1..], c[1..]);
    }
  }

  ghost predicate Sorted(s: seq<string>)
  {
    forall i, j :: 0 <= i < j < |s| ==> StrLeq(s[i], s[j])
  }

  /** Insert x into a sorted sequence, before the first element it sorts before. */
  function Insert(x: string, s: seq<string>): (r: seq<string>)
    requires Sorted(s)
    ensures Sorted(r)
    ensures multiset(r) == multiset(s) + multiset{x}
  {
    if s == [] then [x]
    else if StrLeq(x, s[0]) then
      PrependLeast(x, s);
      [x] + s
    else
      StrLeqTotal(x, s[0]);
      var rest := Insert(x, s[1..]);
      InsertBehindHead(x, s, rest);
      [s[0]] + rest
  }

  /** A string sorting before the head of a sorted sequence can go in front of it. */
  lemma PrependLeast(x: string, s: seq<string>)
    requires Sorted(s) && s != [] && StrLeq(x, s[0])
    ensures Sorted([x] + s)
  {
    forall j | 0 < j < |s|
      ensures StrLeq(x, s[j])
    {
      StrLeqTransitive(x, s[0], s[j]);
    }
    var r := [x] + s;
    forall i, j | 0 <= i < j < |r|
      ensures StrLeq(r[i], r[j])
    {
      assert r[j] == s[j - 1];
    }
  }

  /** The head of a sorted sequence can go in front of the rest with x inserted, when x sorts after it. */
  lemma InsertBehindHead(x: string, s: seq<string>, rest: seq<string>)
    requires Sorted(s) && s != [] && StrLeq(s[0], x)
    requires Sorted(rest) && multiset(rest) == multiset(s[1..]) + multiset{x}
    ensures Sorted([s[0]] + rest)
    ensures multiset([s[0]] + rest) == multiset(s) + multiset{x}
  {
    forall j | 0 <= j < |rest|
      ensures StrLeq(s[0], rest[j])
    {
      var y := rest[j];
      assert y in multiset(rest);
      if y != x {
        assert y in multiset(s[1..]);
        var k :| 0 <= k < |s[1..]| && s[1..][k] == y;
        assert s[k + 1] == y;
      }
    }
    var r := [s[0]] + rest;
    forall i, j | 0 <= i < j < |r|
      ensures StrLeq(r[i], r[j])
    {
      assert r[j] == rest[j - 1];
      if i > 0 {
        assert r[i] == rest[i - 1];
      }
    }
    assert s == [s[0]] + s[1..];
  }

  /** sort.Strings: the strings in ascending order. */
  function SortStrings(s: seq<string>): (r: seq<string>)
    ensures Sorted(r)
    ensures multiset(r) == multiset(s)
  {
    if s == [] then []
    else
      assert s == s[..|s| - 1] + [s[|s| - 1]];
      Insert(s[|s| - 1], SortStrings(s[..|s| - 1]))
  }

  /** Two sorted sequences holding the same strings are equal: a sorted order is unique. */
  lemma {:induction false} SortedUnique(a: seq<string>, b: seq<string>)
    requires Sorted(a) && Sorted(b)
    requires multiset(a) == multiset(b)
    ensures a == b
    decreases |a|
  {
    assert |a| == |multiset(a)| == |multiset(b)| == |b|;
    if a != [] {
      SortedHeadsAgree(a, b);
      DropHead(a);
      DropHead(b);
      SortedUnique(a[1..], b[1..]);
      assert a == [a[0]] + a[1..];
      assert b == [b[0]] + b[1..];
    }
  }

  /** Two non-empty sorted sequences holding the same strings start with the same string. */
  lemma SortedHeadsAgree(a: seq<string>, b: seq<string>)
    requires Sorted(a) && Sorted(b)
    requires multiset(a) == multiset(b)
    requires a != [] && b != []
    ensures a[0] == b[0]
  {
    assert a[0] in multiset(b);
    assert b[0] in multiset(a);
    var i :| 0 <= i < |b| && b[i] == a[0];
    var j :| 0 <= j < |a| && a[j] == b[0];
    assert StrLeq(b[0], a[0]) by {
      if i == 0 { StrLeqTotal(b[0], a[0]); }
    }
    assert StrLeq(a[0], b[0]) by {
      if j == 0 { StrLeqTotal(a[0], b[0]); }
    }
    StrLeqAntisymmetric(a[0], b[0]);
  }

  /** Dropping the head of a sorted sequence keeps it sorted and removes one copy of the head. */
  lemma DropHead(a: seq<string>)
    requires Sorted(a) && a != []
    ensures Sorted(a[1..])
    ensures multiset(a[1..]) == multiset(a) - multiset{a[0]}
  {
    assert a == [a[0]] + a[1..];
    assert multiset(a) == multiset{a[0]} + multiset(a[1..]);
  }

  /** strings.Join: the parts with `sep` between consecutive parts. */
  function Join(parts: seq<string>, sep: string): (r: string)
    ensures parts == [] ==> r == ""
    ensures |parts| == 1 ==> r == parts[0]
    ensures parts != [] ==> parts[0] <= r
  {
    if parts == [] then ""
    else if |parts| == 1 then parts[0]
    else parts[0] + sep + Join(parts[1..], sep)
  }

  /** Joining introduces no character that is in neither a part nor the separator. */
  lemma {:induction false} JoinChars(parts: seq<string>, sep: string)
    ensures forall x :: x in Join(parts, sep) ==> x in sep || exists i :: 0 <= i < |parts| && x in parts[i]
  {
    if |parts| > 1 {
      JoinChars(parts[1..], sep);
      forall x | x in Join(parts[1..], sep) && x !in sep
        ensures exists i :: 0 <= i < |parts| && x in parts[i]
      {
        var i :| 0 <= i < |parts[1..]| && x in parts[1..][i];
        assert x in parts[i + 1];
      }
    }
  }

  /** Joining one more part puts one more separator in front of it. */
  lemma {:induction false} JoinSnoc(parts: seq<string>, x: string, sep: string)
    requires parts != []
    ensures Join(parts + [x], sep) == Join(parts, sep) + sep + x
  {
    if |parts| == 1 {
      assert (parts + [x])[1..] == [x];
    } else {
      assert (parts + [x])[1..] == parts[1..] + [x];
      JoinSnoc(parts[1..], x, sep);
    }
  }

  /** strings.Replace(s, [c], by, -1): every occurrence of c replaced by `with`. */
  function ReplaceChar(s: string, c: char, with: string): (r: string)
    ensures |s| == 1 ==> r == (if s[0] == c then with else s)
    ensures c !in with ==> c !in r
    ensures c !in s ==> r == s
  {
    if s == [] then ""
    else (if s[0] == c then with else [s[0]]) + ReplaceChar(s[1..], c, with)
  }

  /** Replacing distributes over concatenation: each part is rewritten on its own. */
  lemma {:induction false} ReplaceCharAppend(a: string, b: string, c: char, with: string)
    ensures ReplaceChar(a + b, c, with) == ReplaceChar(a, c, with) + ReplaceChar(b, c, with)
  {
    if a == [] {
      assert a + b == b;
    } else {
      assert (a + b)[1..] == a[1..] + b;
      ReplaceCharAppend(a[1..], b, c, with);
    }
  }

  /** Each occurrence of c grows the text by |with| - 1 characters; nothing else changes its length. */
  lemma {:induction false} ReplaceCharLength(s: string, c: char, with: string)
    ensures |ReplaceChar(s, c, with)| == |s| + multiset(s)[c] * (|with| - 1)
  {
    if s != [] {
      ReplaceCharLength(s[1..], c, with);
      var m := multiset(s[1..])[c];
      assert s == [s[0]] + s[1..];
      assert multiset(s)[c] == m + (if s[0] == c then 1 else 0);
      MulSucc(m, |with| - 1);
    }
  }

  lemma MulSucc(m: int, w: int)
    ensures (m + 1) * w == m * w + w
  {
  }

  /**
    Character k of s lands right after the rewritten text before it: a c is
    written as `with`, any other character as itself, in the original order.
  */
  lemma ReplaceCharAt(s: string, c: char, with: string, k: nat)
    requires k < |s|
    ensures var o := k + multiset(s[..k])[c] * (|with| - 1);
      var image := if s[k] == c then with else [s[k]];
      && o + |image| <= |ReplaceChar(s, c, with)|
      && ReplaceChar(s, c, with)[o..o + |image|] == image
  {
    var before, after := s[..k], s[k + 1..];
    assert s == before + [s[k]] + after;
    ReplaceCharAppend(before + [s[k]], after, c, with);
    ReplaceCharAppend(before, [s[k]], c, with);
    ReplaceCharLength(before, c, with);
  }

  /** strings.TrimLeft(s, [c]): s without its leading run of c. */
  function TrimLeft(s: string, c: char): (r: string)
    ensures |r| <= |s| && r == s[|s| - |r|..]
    ensures forall i :: 0 <= i < |s| - |r| ==> s[i] == c
    ensures r == [] || r[0] != c
  {
    if s != [] && s[0] == c then
      var r := TrimLeft(s[1..], c);
      assert r == s[1..][|s| - 1 - |r|..] == s[|s| - |r|..];
      assert forall i :: 1 <= i < |s| - |r| ==> s[i] == s[1..][i - 1];
      r
    else s
  }

  /** strings.TrimRight(s, [c]): s without its trailing run of c. */
  function TrimRight(s: string, c: char): (r: string)
    ensures |r| <= |s| && r == s[..|r|]
    ensures forall i :: |r| <= i < |s| ==> s[i] == c
    ensures r == [] || r[|r| - 1] != c
  {
    if s != [] && s[|s| - 1] == c then TrimRight(s[..|s| - 1], c) else s
  }

  /** strings.Trim(s, [c]): s without its leading and trailing runs of c. */
  function Trim(s: string, c: char): (r: string)
    ensures c !in s ==> r == s
    ensures r == [] || (r[0] != c && r[|r| - 1] != c)
  {
    var left := TrimLeft(s, c);
    var r := TrimRight(left, c);
    assert r != [] ==> r[0] == left[0];
    r
  }

  /** Trim cuts s to the slice between its leading and trailing runs of c: nothing inside is dropped. */
  lemma TrimIsInfix(s: string, c: char)
    ensures exists i, j :: 0 <= i <= j <= |s| && Trim(s, c) == s[i..j] && OuterRuns(s, i, j, c)
  {
    var left := TrimLeft(s, c);
    var r := TrimRight(left, c);
    var i := |s| - |left|;
    var j := i + |r|;
    assert r == s[i..j];
    forall k | j <= k < |s|
      ensures s[k] == c
    {
      assert s[k] == left[k - i];
    }
    assert OuterRuns(s, i, j, c);
  }

  /** A slice of s that neither starts nor ends with c sits between positions of s that are not c. */
  lemma SliceEnds(s: string, t: string, c: char, i: nat, j: nat)
    requires i <= j <= |s| && t == s[i..j]
    requires t == [] || (t[0] != c && t[|t| - 1] != c)
    ensures i < j ==> s[i] != c && s[j - 1] != c
  {
    if i < j {
      assert t[0] == s[i];
      assert t[|t| - 1] == s[j - 1];
    }
  }

  /** Everything of s before i and from j on is c. */
  predicate OuterRuns(s: string, i: int, j: int, c: char)
    requires 0 <= i <= j <= |s|
  {
    (forall k :: 0 <= k < i ==> s[k] == c) && (forall k :: j <= k < |s| ==> s[k] == c)
  }

  /** ASCII upper-casing: a..z become A..Z, every other character is kept. */
  function ToUpper(s: string): (r: string)
    ensures |r| == |s|
    ensures forall i :: 0 <= i < |s| ==> r[i] == (if 'a' <= s[i] <= 'z' then s[i] - 'a' + 'A' else s[i])
  {
    if s == [] then "" else [if 'a' <= s[0] <= 'z' then s[0] - 'a' + 'A' else s[0]] + ToUpper(s[1..])
  }

  /** strings.HasSuffix: s ends with suffix. */
  predicate HasSuffix(s: string, suffix: string)
    ensures HasSuffix(s, suffix) <==> exists p :: p + suffix == s
  {
    SuffixSplit(s, suffix);
    |suffix| <= |s| && s[|s| - |suffix|..] == suffix
  }

  /** The last |suffix| characters of s are suffix exactly when s is something followed by suffix. */
  lemma SuffixSplit(s: string, suffix: string)
    ensures (|suffix| <= |s| && s[|s| - |suffix|..] == suffix) <==> exists p :: p + suffix == s
  {
    if |suffix| <= |s| && s[|s| - |suffix|..] == suffix {
      assert s[..|s| - |suffix|] + suffix == s;
    }
    forall p | p + suffix == s
      ensures |suffix| <= |s| && s[|s| - |suffix|..] == suffix
    {
      assert s[|p|..] == suffix;
    }
  }
}
