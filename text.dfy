/**
 * The handful of Python string operations the cache-URL parser relies on:
 * `str.split(sep)`, `str.split(sep, maxsplit)`, `sep.join(parts)`,
 * `filter(None, parts)`, `startswith`, `endswith`, `in` and `str.lower`.
 * Separators are single characters, as every call in the parser uses.
 */
module Text {
  import opened Results

  /** Number of occurrences of `c` in `s` (`s.count(c)`). */
  function Count(s: string, c: char): nat
  {
    if s == [] then 0 else (if s[0] == c then 1 else 0) + Count(s[1..], c)
  }

  lemma {:induction false} CountZero(s: string, c: char)
    ensures Count(s, c) == 0 <==> c !in s
  {
    if s != [] {
      CountZero(s[1..], c);
      assert s == [s[0]] + s[1..];
    }
  }

  /** Index of the first character of `s` that belongs to `cs`, if any. */
  function Find(s: string, cs: set<char>): (r: Option<nat>)
    ensures r.Some? ==> r.value < |s| && s[r.value] in cs
    ensures r.Some? ==> forall j :: 0 <= j < r.value ==> s[j] !in cs
    ensures r.None? ==> forall j :: 0 <= j < |s| ==> s[j] !in cs
  {
    if s == [] then None
    else if s[0] in cs then Some(0)
    else match Find(s[1..], cs)
      case None => None
      case Some(i) => Some(i + 1)
  }

  /** `Find` is determined by its contract: the first match is unique. */
  lemma FindIs(s: string, cs: set<char>, i: nat)
    requires i < |s| && s[i] in cs
    requires forall j :: 0 <= j < i ==> s[j] !in cs
    ensures Find(s, cs) == Some(i)
  {
  }

  lemma FindNone(s: string, cs: set<char>)
    requires forall j :: 0 <= j < |s| ==> s[j] !in cs
    ensures Find(s, cs) == None
  {
  }

  /** `s.split(c)`: the maximal pieces of `s` between occurrences of `c`. */
  function Split(s: string, c: char): (parts: seq<string>)
    ensures |parts| == Count(s, c) + 1
    ensures forall i :: 0 <= i < |parts| ==> c !in parts[i]
  {
    if s == [] then [""]
    else
      var rest := Split(s[1..], c);
      if s[0] == c then [""] + rest
      else [[s[0]] + rest[0]] + rest[1..]
  }

  /** A character absent from `s` is absent from every piece of `s.split(c)`. */
  lemma {:induction false} SplitAvoids(s: string, c: char, d: char)
    requires d !in s
    ensures forall i :: 0 <= i < |Split(s, c)| ==> d !in Split(s, c)[i]
  {
    if s != [] {
      assert d !in s[1..];
      SplitAvoids(s[1..], c, d);
    }
  }

  /** `sep.join(parts)`; joining no parts gives the empty string. */
  function Join(parts: seq<string>, c: char): string
  {
    if |parts| == 0 then ""
    else if |parts| == 1 then parts[0]
    else parts[0] + [c] + Join(parts[1..], c)
  }

  /** Joining a piece in front of a non-empty list puts one separator between them. */
  lemma JoinCons(head: string, rest: seq<string>, c: char)
    requires rest != []
    ensures Join([head] + rest, c) == head + [c] + Join(rest, c)
  {
    assert ([head] + rest)[1..] == rest;
  }

  /** Extending the first piece extends the joined string by the same prefix. */
  lemma JoinExtendFirst(ch: char, parts: seq<string>, c: char)
    requires parts != []
    ensures Join([[ch] + parts[0]] + parts[1..], c) == [ch] + Join(parts, c)
  {
    var extended := [[ch] + parts[0]] + parts[1..];
    if |parts| > 1 {
      assert extended[1..] == parts[1..];
    }
  }

  lemma {:induction false} JoinSplit(s: string, c: char)
    ensures Join(Split(s, c), c) == s
  {
    if s != [] {
      var rest := Split(s[1..], c);
      JoinSplit(s[1..], c);
      if s[0] == c {
        JoinCons("", rest, c);
      } else {
        JoinExtendFirst(s[0], rest, c);
      }
      assert s == [s[0]] + s[1..];
    }
  }

  lemma {:induction false} SplitNoSeparator(s: string, c: char)
    requires c !in s
    ensures Split(s, c) == [s]
  {
    CountZero(s, c);
    assert |Split(s, c)| == 1;
    JoinSplit(s, c);
  }

  lemma {:induction false} SplitAppend(a: string, b: string, c: char)
    requires c !in a
    ensures Split(a + [c] + b, c) == [a] + Split(b, c)
  {
    if a == [] {
      assert a + [c] + b == [c] + b;
      assert ([c] + b)[1..] == b;
    } else {
      var s := a + [c] + b;
      assert s[0] == a[0];
      assert s[1..] == a[1..] + [c] + b;
      SplitAppend(a[1..], b, c);
      assert [a[0]] + a[1..] == a;
    }
  }

  /** Splitting what `Join` produced gives the pieces back when none holds the separator. */
  lemma {:induction false} SplitJoin(parts: seq<string>, c: char)
    requires |parts| >= 1
    requires forall i :: 0 <= i < |parts| ==> c !in parts[i]
    ensures Split(Join(parts, c), c) == parts
  {
    if |parts| == 1 {
      SplitNoSeparator(parts[0], c);
    } else {
      SplitJoin(parts[1..], c);
      SplitAppend(parts[0], Join(parts[1..], c), c);
      assert [parts[0]] + parts[1..] == parts;
    }
  }

  /** `s.split(c, maxsplit)`: at most `maxsplit` cuts, from the left. */
  function SplitAtMost(s: string, c: char, maxsplit: nat): (parts: seq<string>)
    ensures 1 <= |parts| <= maxsplit + 1
  {
    if maxsplit == 0 || s == [] then [s]
    else
      if s[0] == c then [""] + SplitAtMost(s[1..], c, maxsplit - 1)
      else
        var rest := SplitAtMost(s[1..], c, maxsplit);
        [[s[0]] + rest[0]] + rest[1..]
  }

  lemma {:induction false} SplitAtMostNoSeparator(s: string, c: char, maxsplit: nat)
    requires c !in s
    ensures SplitAtMost(s, c, maxsplit) == [s]
  {
    if maxsplit > 0 && s != [] {
      assert c !in s[1..];
      SplitAtMostNoSeparator(s[1..], c, maxsplit);
      assert [s[0]] + s[1..] == s;
    }
  }

  /** The first cut falls at the first `c`. */
  lemma {:induction false} SplitAtMostAppend(a: string, b: string, c: char, maxsplit: nat)
    requires maxsplit > 0 && c !in a
    ensures SplitAtMost(a + [c] + b, c, maxsplit) == [a] + SplitAtMost(b, c, maxsplit - 1)
  {
    if a == [] {
      assert a + [c] + b == [c] + b;
      assert ([c] + b)[1..] == b;
    } else {
      var s := a + [c] + b;
      assert s[0] == a[0];
      assert s[1..] == a[1..] + [c] + b;
      SplitAtMostAppend(a[1..], b, c, maxsplit);
      assert [a[0]] + a[1..] == a;
    }
  }

  /** Every piece but the last is free of `c`, and a split that may cut leaves one piece exactly when `c` is absent. */
  lemma {:induction false} SplitAtMostPieces(s: string, c: char, maxsplit: nat)
    ensures var parts := SplitAtMost(s, c, maxsplit);
      && (forall i :: 0 <= i < |parts| - 1 ==> c !in parts[i])
      && (maxsplit > 0 ==> (|parts| == 1 <==> c !in s))
  {
    if maxsplit > 0 && s != [] {
      var parts := SplitAtMost(s, c, maxsplit);
      assert s == [s[0]] + s[1..];
      if s[0] == c {
        var rest := SplitAtMost(s[1..], c, maxsplit - 1);
        SplitAtMostPieces(s[1..], c, maxsplit - 1);
        assert parts == [""] + rest;
        forall k | 0 < k < |parts| - 1
          ensures c !in parts[k]
        {
          assert parts[k] == rest[k - 1];
        }
      } else {
        var rest := SplitAtMost(s[1..], c, maxsplit);
        SplitAtMostPieces(s[1..], c, maxsplit);
        assert parts == [[s[0]] + rest[0]] + rest[1..];
        forall k | 0 < k < |parts| - 1
          ensures c !in parts[k]
        {
          assert parts[k] == rest[k];
        }
      }
    }
  }

  /** A character absent from `s` is absent from every piece of it. */
  lemma {:induction false} SplitAtMostAvoids(s: string, c: char, maxsplit: nat, d: char)
    requires d !in s
    ensures forall i :: 0 <= i < |SplitAtMost(s, c, maxsplit)| ==> d !in SplitAtMost(s, c, maxsplit)[i]
  {
    if maxsplit > 0 && s != [] {
      var parts := SplitAtMost(s, c, maxsplit);
      assert d !in s[1..];
      if s[0] == c {
        var rest := SplitAtMost(s[1..], c, maxsplit - 1);
        SplitAtMostAvoids(s[1..], c, maxsplit - 1, d);
        assert parts == [""] + rest;
        forall k | 0 < k < |parts|
          ensures d !in parts[k]
        {
          assert parts[k] == rest[k - 1];
        }
      } else {
        var rest := SplitAtMost(s[1..], c, maxsplit);
        SplitAtMostAvoids(s[1..], c, maxsplit, d);
        assert parts == [[s[0]] + rest[0]] + rest[1..];
        forall k | 0 < k < |parts|
          ensures d !in parts[k]
        {
          assert parts[k] == rest[k];
        }
      }
    }
  }

  lemma {:induction false} JoinSplitAtMost(s: string, c: char, maxsplit: nat)
    ensures Join(SplitAtMost(s, c, maxsplit), c) == s
  {
    if maxsplit > 0 && s != [] {
      if s[0] == c {
        var rest := SplitAtMost(s[1..], c, maxsplit - 1);
        JoinSplitAtMost(s[1..], c, maxsplit - 1);
        JoinCons("", rest, c);
      } else {
        var rest := SplitAtMost(s[1..], c, maxsplit);
        JoinSplitAtMost(s[1..], c, maxsplit);
        JoinExtendFirst(s[0], rest, c);
      }
      assert s == [s[0]] + s[1..];
    }
  }

  /** `list(filter(None, parts))`: the parts that are not empty, in order. */
  function NonEmpty(parts: seq<string>): (r: seq<string>)
    ensures |r| <= |parts|
    ensures forall i :: 0 <= i < |r| ==> r[i] != ""
    ensures forall x :: x in r <==> x in parts && x != ""
  {
    if parts == [] then []
    else if parts[0] == "" then NonEmpty(parts[1..])
    else [parts[0]] + NonEmpty(parts[1..])
  }

  /** The non-empty `/`-separated segments of a path. */
  function Segments(path: string): seq<string>
  {
    NonEmpty(Split(path, '/'))
  }

  lemma {:induction false} NonEmptyAppend(a: seq<string>, b: seq<string>)
    ensures NonEmpty(a + b) == NonEmpty(a) + NonEmpty(b)
  {
    if a == [] {
      assert a + b == b;
    } else {
      assert (a + b)[1..] == a[1..] + b;
      NonEmptyAppend(a[1..], b);
    }
  }

  lemma {:induction false} NonEmptyKeeps(parts: seq<string>)
    requires forall i :: 0 <= i < |parts| ==> parts[i] != ""
    ensures NonEmpty(parts) == parts
  {
    if parts != [] {
      NonEmptyKeeps(parts[1..]);
    }
  }

  predicate StartsWith(s: string, prefix: string)
  {
    |prefix| <= |s| && s[..|prefix|] == prefix
  }

  lemma NotStartsWith(s: string, prefix: string, i: nat)
    requires i < |s| && i < |prefix| && s[i] != prefix[i]
    ensures !StartsWith(s, prefix)
  {
    if |prefix| <= |s| {
      assert s[..|prefix|][i] != prefix[i];
    }
  }

  predicate EndsWith(s: string, suffix: string)
  {
    |suffix| <= |s| && s[|s| - |suffix|..] == suffix
  }

  /** `sub` occurs in `s` starting at index `i`. */
  predicate OccursAt(s: string, sub: string, i: int)
  {
    0 <= i <= |s| - |sub| && s[i..i + |sub|] == sub
  }

  /** `sub in s` for strings: `sub` occurs somewhere in `s`. */
  predicate Contains(s: string, sub: string)
  {
    exists i :: 0 <= i <= |s| && OccursAt(s, sub, i)
  }

  lemma NotContainsFirst(s: string, sub: string)
    requires sub != [] && sub[0] !in s
    ensures !Contains(s, sub)
  {
    forall i | 0 <= i <= |s|
      ensures !OccursAt(s, sub, i)
    {
      if i <= |s| - |sub| {
        assert s[i..i + |sub|][0] == s[i];
      }
    }
  }

  lemma ContainsSuffix(s: string, sub: string)
    requires EndsWith(s, sub)
    ensures Contains(s, sub)
  {
    var i := |s| - |sub|;
    assert s[i..i + |sub|] == sub;
    assert OccursAt(s, sub, i);
  }

  function LowerChar(ch: char): char
  {
    if 'A' <= ch <= 'Z' then (ch as int + 32) as char else ch
  }

  /**
   * ASCII `str.lower`: no capital letter is left, each capital becomes its
   * lower-case letter, every other character is kept, and a string without
   * capitals is returned unchanged.
   */
  function Lower(s: string): (r: string)
    ensures |r| == |s|
    ensures forall i :: 0 <= i < |r| ==> !('A' <= r[i] <= 'Z')
    ensures forall i :: 0 <= i < |s| && 'A' <= s[i] <= 'Z' ==> r[i] as int == s[i] as int + 32
    ensures forall i :: 0 <= i < |s| && !('A' <= s[i] <= 'Z') ==> r[i] == s[i]
    ensures (forall i :: 0 <= i < |s| ==> !('A' <= s[i] <= 'Z')) ==> r == s
  {
    seq(|s|, i requires 0 <= i < |s| => LowerChar(s[i]))
  }
}
