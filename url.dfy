/**
 * A URL splitter and unsplitter following the generic syntax of section 3
 * of RFC 3986, `scheme ":" ["//" authority] path ["?" query] ["#" fragment]`,
 * cut the way Python's `urlsplit` cuts it, and the subset of `parse_qs`
 * the cache-URL parser reads. Every scheme is treated as one that carries
 * an authority ("netloc").
 */
module Url {
  import opened Results
  import opened Text
  import opened Numbers

  /** The five components `urlsplit` returns. */
  datatype UrlParts = UrlParts(scheme: string, netloc: string, path: string, query: string, fragment: string)

  predicate IsAlpha(ch: char)
  {
    'a' <= ch <= 'z' || 'A' <= ch <= 'Z'
  }

  predicate IsSchemeChar(ch: char)
  {
    IsAlpha(ch) || IsDigit(ch) || ch == '+' || ch == '-' || ch == '.'
  }

  /** `ALPHA *( ALPHA / DIGIT / "+" / "-" / "." )`, section 3.1 of RFC 3986. */
  predicate IsScheme(s: string)
  {
    s != [] && IsAlpha(s[0]) && forall i :: 0 <= i < |s| ==> IsSchemeChar(s[i])
  }

  /** A scheme in canonical (lower-case) form. */
  predicate IsLowerScheme(s: string)
  {
    IsScheme(s) && forall i :: 0 <= i < |s| ==> !('A' <= s[i] <= 'Z')
  }

  /** The characters that end an authority. */
  const AUTHORITY_END: set<char> := {'/', '?', '#'}

  /** Scheme and the rest: the text before the first `:` when it is a scheme, lower-cased. */
  function SplitScheme(url: string): (string, string)
  {
    match Find(url, {':'})
    case None => ("", url)
    case Some(i) => if IsScheme(url[..i]) then (Lower(url[..i]), url[i + 1..]) else ("", url)
  }

  /** Authority and the rest: after a leading `//`, the text up to the first `/`, `?` or `#`. */
  function SplitNetloc(rest: string): (string, string)
  {
    if StartsWith(rest, "//") then
      var tail := rest[2..];
      match Find(tail, AUTHORITY_END)
      case None => (tail, "")
      case Some(j) => (tail[..j], tail[j..])
    else ("", rest)
  }

  /** `s.split(c, 1)` read into two parts, the second empty when `c` does not occur. */
  function Cut(s: string, c: char): (r: (string, string))
    ensures c !in r.0
  {
    match Find(s, {c})
    case None => (s, "")
    case Some(i) => (s[..i], s[i + 1..])
  }

  /** The scheme `SplitScheme` finds is empty or a lower-case scheme. */
  lemma SplitSchemeLower(url: string)
    ensures SplitScheme(url).0 == "" || IsLowerScheme(SplitScheme(url).0)
  {
  }

  /** The authority `SplitNetloc` finds holds none of the characters that end one. */
  lemma SplitNetlocAvoids(rest: string)
    ensures var netloc := SplitNetloc(rest).0;
      forall i :: 0 <= i < |netloc| ==> netloc[i] !in AUTHORITY_END
  {
    if StartsWith(rest, "//") {
      var tail := rest[2..];
      match Find(tail, AUTHORITY_END)
      case None =>
      case Some(j) =>
        assert forall i :: 0 <= i < j ==> tail[..j][i] == tail[i];
    }
  }

  /** Neither part of a cut holds a character the string does not hold. */
  lemma CutAvoids(s: string, c: char, d: char)
    requires d !in s
    ensures d !in Cut(s, c).0 && d !in Cut(s, c).1
  {
    match Find(s, {c})
    case None =>
    case Some(i) =>
      assert forall k :: 0 <= k < i ==> s[..i][k] == s[k];
      assert forall k :: i + 1 <= k < |s| ==> s[i + 1..][k - i - 1] == s[k];
  }

  /** `urlsplit(url)`. */
  function SplitUrl(url: string): (u: UrlParts)
    ensures u.scheme == "" || IsLowerScheme(u.scheme)
    ensures forall i :: 0 <= i < |u.netloc| ==> u.netloc[i] !in AUTHORITY_END
    ensures '?' !in u.path && '#' !in u.path && '#' !in u.query
  {
    var (scheme, afterScheme) := SplitScheme(url);
    var (netloc, afterNetloc) := SplitNetloc(afterScheme);
    var (beforeFragment, fragment) := Cut(afterNetloc, '#');
    var (path, query) := Cut(beforeFragment, '?');
    SplitSchemeLower(url);
    SplitNetlocAvoids(afterScheme);
    CutAvoids(beforeFragment, '?', '#');
    UrlParts(scheme, netloc, path, query, fragment)
  }

  /** The path as `urlunsplit` writes it after an authority: a `/` is put in front of a relative path. */
  function RootedPath(path: string): string
  {
    if path != "" && path[0] != '/' then "/" + path else path
  }

  /** `urlunsplit(parts)` for the case where a non-empty authority is written after `//`. */
  function UnsplitUrl(p: UrlParts): string
  {
    var hier := if p.netloc != "" then "//" + p.netloc + RootedPath(p.path) else p.path;
    var withScheme := if p.scheme != "" then p.scheme + ":" + hier else hier;
    var withQuery := if p.query != "" then withScheme + "?" + p.query else withScheme;
    if p.fragment != "" then withQuery + "#" + p.fragment else withQuery
  }

  lemma CutAt(a: string, b: string, c: char)
    requires c !in a
    ensures Cut(a + [c] + b, c) == (a, b)
  {
    var s := a + [c] + b;
    FindIs(s, {c}, |a|);
    assert s[..|a|] == a && s[|a| + 1..] == b;
  }

  lemma CutAbsent(s: string, c: char)
    requires c !in s
    ensures Cut(s, c) == (s, "")
  {
    FindNone(s, {c});
  }

  lemma LowerOfLowerScheme(s: string)
    requires IsLowerScheme(s)
    ensures Lower(s) == s
  {
  }

  lemma SplitSchemeOf(scheme: string, hier: string)
    requires IsLowerScheme(scheme)
    ensures SplitScheme(scheme + ":" + hier) == (scheme, hier)
  {
    var url := scheme + ":" + hier;
    FindIs(url, {':'}, |scheme|);
    assert url[..|scheme|] == scheme && url[|scheme| + 1..] == hier;
    LowerOfLowerScheme(scheme);
  }

  lemma SplitNetlocOf(netloc: string, rest: string)
    requires forall i :: 0 <= i < |netloc| ==> netloc[i] !in AUTHORITY_END
    requires rest == "" || rest[0] in AUTHORITY_END
    ensures SplitNetloc("//" + netloc + rest) == (netloc, rest)
  {
    var hier := "//" + netloc + rest;
    var tail := netloc + rest;
    assert hier[2..] == tail;
    if rest == "" {
      FindNone(tail, AUTHORITY_END);
      assert tail == netloc;
    } else {
      assert tail[|netloc|] == rest[0];
      FindIs(tail, AUTHORITY_END, |netloc|);
      assert tail[..|netloc|] == netloc && tail[|netloc|..] == rest;
    }
  }

  lemma CutQueryFragment(path: string, query: string, fragment: string)
    requires '?' !in path && '#' !in path && '#' !in query
    ensures var q := if query != "" then "?" + query else "";
            var f := if fragment != "" then "#" + fragment else "";
            Cut(path + q + f, '#') == (path + q, fragment) && Cut(path + q, '?') == (path, query)
  {
    var q := if query != "" then "?" + query else "";
    var f := if fragment != "" then "#" + fragment else "";
    assert '#' !in path + q;
    if fragment != "" {
      CutAt(path + q, fragment, '#');
      assert path + q + f == (path + q) + ['#'] + fragment;
    } else {
      CutAbsent(path + q, '#');
      assert path + q + f == path + q;
    }
    if query != "" {
      CutAt(path, query, '?');
      assert path + q == path + ['?'] + query;
    } else {
      CutAbsent(path, '?');
      assert path + q == path;
    }
  }

  /** With a scheme and an authority, `urlunsplit` writes `scheme://netloc`, the rooted path, `?query` and `#fragment`. */
  lemma UnsplitForm(p: UrlParts)
    requires p.scheme != "" && p.netloc != ""
    ensures UnsplitUrl(p) == p.scheme + ":" + ("//" + p.netloc + (RootedPath(p.path)
      + (if p.query != "" then "?" + p.query else "") + (if p.fragment != "" then "#" + p.fragment else "")))
  {
  }

  /** Splitting an unsplit URL gives its components back (with the path rooted as written). */
  lemma SplitUnsplit(p: UrlParts)
    requires IsLowerScheme(p.scheme)
    requires p.netloc != ""
    requires forall i :: 0 <= i < |p.netloc| ==> p.netloc[i] !in AUTHORITY_END
    requires '?' !in p.path && '#' !in p.path && '#' !in p.query
    ensures SplitUrl(UnsplitUrl(p)) == p.(path := RootedPath(p.path))
  {
    var r := RootedPath(p.path);
    var q := if p.query != "" then "?" + p.query else "";
    var f := if p.fragment != "" then "#" + p.fragment else "";
    var hier := "//" + p.netloc + (r + q + f);
    UnsplitForm(p);
    SplitSchemeOf(p.scheme, hier);
    assert r + q + f == "" || (r + q + f)[0] in AUTHORITY_END;
    SplitNetlocOf(p.netloc, r + q + f);
    CutQueryFragment(r, p.query, p.fragment);
  }

  /** The `name=value` fields of a query that `parse_qs` keeps: those with an `=` and a non-empty value. */
  function QueryFields(fields: seq<string>): (pairs: seq<(string, string)>)
    ensures forall i :: 0 <= i < |pairs| ==> pairs[i].1 != "" && '=' !in pairs[i].0
    ensures forall i :: 0 <= i < |pairs| ==> (forall k :: 0 <= k < |fields| ==> '&' !in fields[k]) ==> '&' !in pairs[i].0 + pairs[i].1
  {
    if fields == [] then []
    else
      var rest := QueryFields(fields[1..]);
      var field := fields[0];
      match Find(field, {'='})
      case None => rest
      case Some(i) =>
        if i + 1 == |field| then rest
        else
          assert field == field[..i] + [field[i]] + field[i + 1..];
          [(field[..i], field[i + 1..])] + rest
  }

  /** `parse_qs(query)` as an ordered list of pairs, fields separated by `&`. */
  function QueryPairs(query: string): (pairs: seq<(string, string)>)
    ensures forall i :: 0 <= i < |pairs| ==> pairs[i].1 != "" && '=' !in pairs[i].0 && '&' !in pairs[i].0 + pairs[i].1
  {
    QueryFields(Split(query, '&'))
  }

  lemma {:induction false} QueryFieldsAvoid(fields: seq<string>, d: char)
    requires forall k :: 0 <= k < |fields| ==> d !in fields[k]
    ensures forall i :: 0 <= i < |QueryFields(fields)| ==> d !in QueryFields(fields)[i].1
  {
    if fields != [] {
      QueryFieldsAvoid(fields[1..], d);
      var field := fields[0];
      match Find(field, {'='})
      case None =>
      case Some(i) =>
        assert d !in field[i + 1..];
    }
  }

  /** A character absent from the query is absent from every value `parse_qs` reads from it. */
  lemma QueryPairsAvoid(query: string, d: char)
    requires d !in query
    ensures forall i :: 0 <= i < |QueryPairs(query)| ==> d !in QueryPairs(query)[i].1
  {
    SplitAvoids(query, '&', d);
    QueryFieldsAvoid(Split(query, '&'), d);
  }

  /** `parse_qs(query).get(name)[0]`: the first value given for `name`. */
  function QueryValue(pairs: seq<(string, string)>, name: string): (r: Option<string>)
    ensures r.None? <==> forall i :: 0 <= i < |pairs| ==> pairs[i].0 != name
    ensures r.Some? ==> exists i :: 0 <= i < |pairs| && pairs[i] == (name, r.value) && forall j :: 0 <= j < i ==> pairs[j].0 != name
  {
    if pairs == [] then None
    else if pairs[0].0 == name then Some(pairs[0].1)
    else
      var r := QueryValue(pairs[1..], name);
      if r.Some? then
        ghost var i :| 0 <= i < |pairs| - 1 && pairs[1..][i] == (name, r.value) && forall j :: 0 <= j < i ==> pairs[1..][j].0 != name;
        assert pairs[i + 1] == (name, r.value);
        r
      else r
  }

  /** `parse_qs(query).get(name, [default])[0]`. */
  function QueryValueOr(pairs: seq<(string, string)>, name: string, default: string): string
  {
    match QueryValue(pairs, name)
    case Some(v) => v
    case None => default
  }

  /** A query string written from pairs, `name=value` joined by `&`. */
  function EncodeQuery(pairs: seq<(string, string)>): string
  {
    Join(seq(|pairs|, i requires 0 <= i < |pairs| => pairs[i].0 + "=" + pairs[i].1), '&')
  }

  predicate WellFormedPairs(pairs: seq<(string, string)>)
  {
    forall i :: 0 <= i < |pairs| ==>
      pairs[i].1 != "" && '=' !in pairs[i].0 && '&' !in pairs[i].0 && '&' !in pairs[i].1
  }

  lemma {:induction false} QueryFieldsOfEncoded(pairs: seq<(string, string)>)
    requires WellFormedPairs(pairs)
    ensures QueryFields(seq(|pairs|, i requires 0 <= i < |pairs| => pairs[i].0 + "=" + pairs[i].1)) == pairs
  {
    var fields := seq(|pairs|, i requires 0 <= i < |pairs| => pairs[i].0 + "=" + pairs[i].1);
    if pairs != [] {
      var rest := seq(|pairs| - 1, i requires 0 <= i < |pairs| - 1 => pairs[1..][i].0 + "=" + pairs[1..][i].1);
      assert fields[1..] == rest;
      QueryFieldsOfEncoded(pairs[1..]);
      var (name, value) := pairs[0];
      var field := name + "=" + value;
      assert fields[0] == field;
      assert field[|name|] == '=';
      FindIs(field, {'='}, |name|);
      assert field[..|name|] == name && field[|name| + 1..] == value;
    }
  }

  /** `parse_qs` reads back exactly the pairs a well-formed query was written from. */
  lemma QueryPairsEncode(pairs: seq<(string, string)>)
    requires WellFormedPairs(pairs)
    ensures QueryPairs(EncodeQuery(pairs)) == pairs
  {
    var fields := seq(|pairs|, i requires 0 <= i < |pairs| => pairs[i].0 + "=" + pairs[i].1);
    if pairs == [] {
      assert EncodeQuery(pairs) == "";
    } else {
      forall i | 0 <= i < |fields|
        ensures '&' !in fields[i]
      {
        assert fields[i] == pairs[i].0 + "=" + pairs[i].1;
      }
      SplitJoin(fields, '&');
    }
    QueryFieldsOfEncoded(pairs);
  }
}
