/** How the pose bridge gets the path it routes on: `http.server` reduces a
    leading `//` to `/`, then `urllib.parse.urlparse(self.path).path` drops
    the scheme, the network location, the fragment, the query and the
    `;params` of the last segment (Python 3.11.4 and later). */
module Url {
  import opened Wrappers
  import opened Text

  /** `'/' + path.lstrip('/')` for a target starting with `//`. */
  function CollapseLeadingSlashes(target: string): (r: string)
    ensures !StartsWith(target, "//") ==> r == target
    ensures StartsWith(target, "//") ==> StartsWith(r, "/") && !StartsWith(r, "//")
    ensures StartsWith(target, "//") ==>
      && |r| <= |target|
      && r[1..] == target[|target| - (|r| - 1)..]
      && forall i :: 0 <= i < |target| - (|r| - 1) ==> target[i] == '/'
  {
    if StartsWith(target, "//") then
      var stripped := LStripChar(target, '/');
      assert |stripped| > 0 ==> ("/" + stripped)[1] == stripped[0];
      "/" + stripped
    else target
  }

  /** `s.lstrip(c)`: the suffix left after dropping every leading `c`. */
  function LStripChar(s: string, c: char): (r: string)
    ensures |r| <= |s| && r == s[|s| - |r|..]
    ensures forall i :: 0 <= i < |s| - |r| ==> s[i] == c
    ensures |r| > 0 ==> r[0] != c
  {
    if |s| > 0 && s[0] == c then LStripChar(s[1..], c) else s
  }

  /** Characters `urlsplit` deletes everywhere. */
  const UnsafeChars: set<char> := {'\t', '\r', '\n'}

  predicate IsAsciiLetter(c: char)
  {
    'a' <= c <= 'z' || 'A' <= c <= 'Z'
  }

  predicate IsSchemeChar(c: char)
  {
    IsAsciiLetter(c) || '0' <= c <= '9' || c == '+' || c == '-' || c == '.'
  }

  /** `urllib.parse.uses_params`: the schemes whose last path segment may
      carry `;params`. */
  const ParamSchemes: set<string> := {"", "ftp", "hdl", "prospero", "http", "imap", "https",
    "shttp", "rtsp", "rtsps", "rtspu", "sip", "sips", "mms", "sftp", "tel"}

  /** `s.split(c, 1)` padded to a pair: the text before the first `c` and
      the text after it, or `(s, "")` when `c` does not occur. */
  function SplitAt(s: string, c: char): (r: (string, string))
    ensures c !in r.0
    ensures r.0 <= s
    ensures c in s ==> s == r.0 + [c] + r.1
    ensures c !in s ==> r == (s, "")
  {
    match FindAny(s, {c})
    case Some(i) =>
      assert s == s[..i] + [c] + s[i + 1..];
      (s[..i], s[i + 1..])
    case None => (s, "")
  }

  /** The part before `c` is unaffected by what follows a `c`-free prefix. */
  lemma SplitAtAppend(a: string, b: string, c: char)
    requires c !in a
    ensures SplitAt(a + b, c).0 == a + SplitAt(b, c).0
  {
    FindAnyAppend(a, b, {c});
  }

  /** The scheme split of `urlsplit`: a colon preceded by an ASCII letter and
      then only scheme characters ends a scheme, which is lowered. */
  function SplitScheme(url: string): (r: (string, string))
    ensures r.0 == "" ==> r.1 == url
    ensures |url| > 0 && !IsAsciiLetter(url[0]) ==> r == ("", url)
  {
    match FindAny(url, {':'})
    case Some(i) =>
      if i > 0 && IsAsciiLetter(url[0]) && forall k :: 0 <= k < i ==> IsSchemeChar(url[k]) then
        (Lower(url[..i]), url[i + 1..])
      else ("", url)
    case None => ("", url)
  }

  /** `_splitnetloc(url, 2)`: the network location runs from index 2 to the
      first `/`, `?` or `#`. */
  function SplitNetloc(url: string): (r: (string, string))
    requires |url| >= 2
    ensures url == url[..2] + r.0 + r.1
    ensures forall i :: 0 <= i < |r.0| ==> r.0[i] !in {'/', '?', '#'}
  {
    var rest := url[2..];
    match FindAny(rest, {'/', '?', '#'})
    case Some(d) =>
      assert rest == rest[..d] + rest[d..];
      (rest[..d], rest[d..])
    case None => (rest, "")
  }

  datatype Split = Split(scheme: string, netloc: string, path: string, query: string, fragment: string)

  /** `urllib.parse.urlsplit`; `None` when it raises `ValueError` for a
      network location with an unmatched square bracket. */
  function UrlSplit(target: string): (r: Option<Split>)
    ensures r.Some? ==> '#' !in r.value.path && '?' !in r.value.path
  {
    SplitClean(Clean(target))
  }

  /** `urlsplit`'s clean-up: leading C0 controls and spaces are stripped and
      tabs and line breaks deleted. */
  function Clean(target: string): string
  {
    RemoveAll(LStripUpTo(target, ' '), UnsafeChars)
  }

  function SplitClean(url: string): (r: Option<Split>)
    ensures r.Some? ==> '#' !in r.value.path && '?' !in r.value.path
  {
    var (scheme, rest) := SplitScheme(url);
    var (netloc, rest') := if StartsWith(rest, "//") then SplitNetloc(rest) else ("", rest);
    if ('[' in netloc) != (']' in netloc) then None
    else
      var (beforeFragment, fragment) := SplitAt(rest', '#');
      var (path, query) := SplitAt(beforeFragment, '?');
      Some(Split(scheme, netloc, path, query, fragment))
  }

  /** The path part of `_splitparams`: cut at the first `;` after the last `/`. */
  function StripParams(path: string): (r: string)
    ensures r <= path
    ensures ';' !in path ==> r == path
    ensures r != path ==> path[|r|] == ';' && '/' !in path[|r|..]
    ensures forall i :: 0 <= i < |r| && r[i] == ';' ==> '/' in r[i + 1..]
  {
    match FindLast(path, '/')
    case Some(slash) =>
      (match FindAny(path[slash..], {';'})
       case Some(k) => path[..slash + k]
       case None => path)
    case None =>
      match FindAny(path, {';'})
      case Some(k) => path[..k]
      case None => path
  }

  /** `urlparse(target).path`, or `None` when `urlparse` raises. */
  function UrlParsePath(target: string): (r: Option<string>)
    ensures r.Some? <==> UrlSplit(target).Some?
    ensures r.Some? ==> r.value <= UrlSplit(target).value.path
    ensures r.Some? && (UrlSplit(target).value.scheme !in ParamSchemes || ';' !in UrlSplit(target).value.path)
      ==> r.value == UrlSplit(target).value.path
    ensures r.Some? && r.value != UrlSplit(target).value.path ==>
      var p := UrlSplit(target).value.path;
      p[|r.value|] == ';' && '/' !in p[|r.value|..]
    ensures r.Some? && UrlSplit(target).value.scheme in ParamSchemes ==>
      forall i :: 0 <= i < |r.value| && r.value[i] == ';' ==> '/' in r.value[i + 1..]
  {
    match UrlSplit(target)
    case None => None
    case Some(parts) =>
      if parts.scheme in ParamSchemes then Some(StripParams(parts.path)) else Some(parts.path)
  }

  /** The path the pose handler routes on, from the raw request target. */
  function RequestPath(target: string): Option<string>
  {
    UrlParsePath(CollapseLeadingSlashes(target))
  }

  /** An origin-form path with no query, fragment, parameters or characters
      that `urlsplit` would strip. */
  predicate PlainPath(p: string)
  {
    && |p| > 0 && p[0] == '/' && !StartsWith(p, "//")
    && forall i :: 0 <= i < |p| ==> p[i] !in {'?', '#', ';', '\t', '\r', '\n'}
  }

  /** What follows a path in a target: nothing, a query or a fragment. */
  predicate Suffix(rest: string)
  {
    |rest| == 0 || rest[0] == '?' || rest[0] == '#'
  }

  /** Cleaning a plain path followed by a suffix keeps the path and keeps
      the suffix a suffix. */
  lemma CleanPlain(p: string, rest: string)
    requires PlainPath(p) && Suffix(rest)
    ensures CollapseLeadingSlashes(p + rest) == p + rest
    ensures Clean(p + rest) == p + RemoveAll(rest, UnsafeChars)
    ensures Suffix(RemoveAll(rest, UnsafeChars))
  {
    var target := p + rest;
    assert !StartsWith(target, "//") by {
      if |p| >= 2 { assert target[1] == p[1]; } else if |rest| > 0 { assert target[1] == rest[0]; }
    }
    assert target[0] == '/';
    RemoveAllAppend(p, rest, UnsafeChars);
    assert RemoveAll(p, UnsafeChars) == p by {
      assert forall i :: 0 <= i < |p| ==> p[i] !in UnsafeChars;
    }
    if |rest| > 0 {
      assert RemoveAll(rest, UnsafeChars) == [rest[0]] + RemoveAll(rest[1..], UnsafeChars);
    }
  }

  /** `http.server` collapses the doubled slash of `//` + path, so the target
      routes like the plain path. */
  lemma DoubleSlashCollapsed(p: string)
    requires PlainPath(p)
    ensures RequestPath("/" + p) == Some(p)
  {
    var t := "/" + p;
    assert StartsWith(t, "//") by { assert t[1] == p[0]; }
    var r := CollapseLeadingSlashes(t);
    var dropped := |t| - (|r| - 1);
    assert |p| >= 2 ==> t[2] == p[1] && p[1] != '/';
    assert dropped == 2 || |p| == 1;
    assert r[1..] == p[1..];
    assert r == p;
    PlainPathRoutesToItself(p);
    assert CollapseLeadingSlashes(p) == p;
  }

  /** Splitting a cleaned plain path followed by a suffix yields that path,
      with no network location and no scheme. */
  lemma SplitPlain(p: string, rest: string)
    requires PlainPath(p) && Suffix(rest)
    ensures SplitClean(p + rest).Some?
    ensures SplitClean(p + rest).value.path == p
    ensures SplitClean(p + rest).value.scheme == ""
  {
    var url := p + rest;
    assert url[0] == '/';
    assert SplitScheme(url) == ("", url);
    assert !StartsWith(url, "//") by {
      if |p| >= 2 { assert url[1] == p[1]; } else if |rest| > 0 { assert url[1] == rest[0]; }
    }
    assert '#' !in p && '?' !in p by {
      assert forall i :: 0 <= i < |p| ==> p[i] != '#' && p[i] != '?';
    }
    SplitAtAppend(p, rest, '#');
    var tail := SplitAt(rest, '#').0;
    SplitAtAppend(p, tail, '?');
    assert SplitAt(tail, '?').0 == "" by {
      if |tail| > 0 {
        assert tail[0] == rest[0] == '?';
        assert FindAny(tail, {'?'}) == Some(0);
      }
    }
  }

  /** Routing sees only the path: whatever query string or fragment follows
      a plain path, the routed path is that path. */
  lemma QueryAndFragmentIgnored(p: string, rest: string)
    requires PlainPath(p) && Suffix(rest)
    ensures RequestPath(p + rest) == Some(p)
  {
    CleanPlain(p, rest);
    SplitPlain(p, RemoveAll(rest, UnsafeChars));
    assert ';' !in p by {
      assert forall i :: 0 <= i < |p| ==> p[i] != ';';
    }
  }

  /** The target `/pose` itself routes to `/pose`. */
  lemma PlainPathRoutesToItself(p: string)
    requires PlainPath(p)
    ensures RequestPath(p) == Some(p)
  {
    QueryAndFragmentIgnored(p, "");
    assert p + "" == p;
  }

  /** A `;params` tail that stays inside the last path segment and holds
      nothing `urlsplit` would treat specially. */
  predicate PlainParams(q: string)
  {
    forall i :: 0 <= i < |q| ==> q[i] !in {'/', '?', '#', '\t', '\r', '\n'}
  }

  /** A target holding no `?`, `#` or character `urlsplit` strips, starting
      with one `/`, is all path. */
  lemma SplitAllPath(t: string)
    requires |t| > 0 && t[0] == '/' && !StartsWith(t, "//")
    requires forall i :: 0 <= i < |t| ==> t[i] !in {'?', '#', '\t', '\r', '\n'}
    ensures UrlSplit(t) == Some(Split("", "", t, "", ""))
  {
    assert Clean(t) == t;
    assert SplitScheme(t) == ("", t);
    assert '#' !in t && '?' !in t by {
      assert forall i :: 0 <= i < |t| ==> t[i] != '#' && t[i] != '?';
    }
  }

  /** The params of a last segment are cut at their `;`. */
  lemma StripParamsAt(p: string, params: string)
    requires PlainPath(p) && PlainParams(params)
    ensures StripParams(p + ";" + params) == p
  {
    var t := p + ";" + params;
    assert t[0] == '/';
    forall i | |p| < i < |t|
      ensures t[i] != '/'
    {
      assert t[i] == params[i - |p| - 1];
    }
    var slash := FindLast(t, '/').value;
    assert slash < |p| by {
      assert t[|p|] == ';';
    }
    var seg := t[slash..];
    assert seg[|p| - slash] == ';';
    assert forall i :: 0 <= i < |p| - slash ==> seg[i] == p[slash + i];
    var k := FindAny(seg, {';'}).value;
    assert k == |p| - slash;
    assert t[..|p|] == p;
  }

  /** `urlparse` drops the `;params` of the last segment when the scheme
      allows them, and the empty scheme does: the routed path is the plain
      path before the `;`. */
  lemma ParamsIgnored(p: string, params: string)
    requires PlainPath(p) && PlainParams(params)
    ensures RequestPath(p + ";" + params) == Some(p)
  {
    var t := p + ";" + params;
    assert !StartsWith(t, "//") by {
      if |p| >= 2 { assert t[1] == p[1]; } else { assert t[1] == ';'; }
    }
    forall i | 0 <= i < |t|
      ensures t[i] !in {'?', '#', '\t', '\r', '\n'}
    {
      if i < |p| { assert t[i] == p[i]; }
      else if i == |p| { assert t[i] == ';'; }
      else { assert t[i] == params[i - |p| - 1]; }
    }
    SplitAllPath(t);
    StripParamsAt(p, params);
  }

  /** `urlsplit` reads `http` as the scheme of `http:` followed by anything. */
  lemma HttpScheme(rest: string)
    ensures SplitScheme("http:" + rest) == ("http", rest)
  {
    var url := "http:" + rest;
    assert url == "http" + (":" + rest);
    FindAnyAppend("http", ":" + rest, {':'});
    assert FindAny("http", {':'}) == None;
    assert FindAny(":" + rest, {':'}) == Some(0);
    assert url[..4] == "http" && url[5..] == rest;
    assert IsLower("http");
  }

  /** The network location after `//` ends at the `/` that starts a plain
      path. */
  lemma NetlocBeforePath(host: string, path: string)
    requires forall i :: 0 <= i < |host| ==> host[i] !in {'/', '?', '#'}
    requires PlainPath(path)
    ensures SplitNetloc("//" + host + path).0 == host
  {
    var url := "//" + host + path;
    assert url[2..] == host + path;
    FindAnyAppend(host, path, {'/', '?', '#'});
    assert FindAny(path, {'/', '?', '#'}) == Some(0);
  }

  /** An `http` split whose network location opens `[` without closing it
      fails. */
  lemma UnmatchedBracketSplit(host: string, path: string)
    requires forall i :: 0 <= i < |host| ==> host[i] !in {'/', '?', '#', ']'}
    requires PlainPath(path)
    ensures SplitClean("http://[" + host + path) == None
  {
    var bracketed := "[" + host;
    var rest := "//" + bracketed + path;
    assert "http://[" + host + path == "http:" + rest;
    HttpScheme(rest);
    assert StartsWith(rest, "//");
    forall i | 0 <= i < |bracketed|
      ensures bracketed[i] !in {'/', '?', '#', ']'}
    {
      if i > 0 { assert bracketed[i] == host[i - 1]; }
    }
    NetlocBeforePath(bracketed, path);
    assert bracketed[0] == '[';
  }

  /** A network location that opens `[` and never closes it makes
      `urlsplit` raise `ValueError`, so no path is routed. */
  lemma UnmatchedBracketRaises(host: string, path: string)
    requires forall i :: 0 <= i < |host| ==> host[i] !in {'/', '?', '#', ']', '\t', '\r', '\n'}
    requires PlainPath(path)
    ensures RequestPath("http://[" + host + path) == None
  {
    var t := "http://[" + host + path;
    assert !StartsWith(t, "//") by { assert t[0] == 'h'; }
    forall i | 0 <= i < |t|
      ensures t[i] !in UnsafeChars
    {
      if i < 8 { assert t[i] in "http://["; }
      else if i < 8 + |host| { assert t[i] == host[i - 8]; }
      else { assert t[i] == path[i - 8 - |host|]; }
    }
    assert Clean(t) == t;
    UnmatchedBracketSplit(host, path);
    assert UrlSplit(t) == None;
  }
}
