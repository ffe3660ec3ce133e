/** The part of Python's `urllib.parse` (CPython 3.12) that the registries
    rely on: `urlsplit`, `urlparse`, `urlunsplit` and `geturl`. A URL is
    cleaned, its scheme is recognised, a network location that follows `//`
    is cut off, and the rest is split into path, parameters, query and
    fragment. */
module Urls {
  import opened Outcomes
  import PyStr

  datatype SplitResult = SplitResult(scheme: string, netloc: string, path: string, query: string, fragment: string)

  datatype ParseResult = ParseResult(
    scheme: string, netloc: string, path: string, params: string, query: string, fragment: string)

  /** Schemes whose URLs carry a network location (`uses_netloc`). */
  const UsesNetloc: set<string> := {
    "", "ftp", "http", "gopher", "nntp", "telnet", "imap", "wais", "file", "mms", "https", "shttp",
    "snews", "prospero", "rtsp", "rtsps", "rtspu", "rsync", "svn", "svn+ssh", "sftp", "nfs", "git",
    "git+ssh", "ws", "wss", "itms-services"}

  /** Schemes whose paths carry `;` parameters (`uses_params`). */
  const UsesParams: set<string> := {
    "", "ftp", "hdl", "prospero", "http", "imap", "https", "shttp", "rtsp", "rtsps", "rtspu", "sip",
    "sips", "mms", "sftp", "tel"}

  predicate IsAsciiLetter(c: char) { 'a' <= c <= 'z' || 'A' <= c <= 'Z' }

  /** `scheme_chars`: ASCII letters, digits, `+`, `-` and `.`. */
  predicate IsSchemeChar(c: char) { IsAsciiLetter(c) || '0' <= c <= '9' || c == '+' || c == '-' || c == '.' }

  predicate AllSchemeChars(s: string) { forall i :: 0 <= i < |s| ==> IsSchemeChar(s[i]) }

  /** A C0 control character or a space: stripped from the front of a URL. */
  predicate IsControlOrSpace(c: char) { c <= ' ' }

  /** Tab, carriage return and line feed: removed everywhere. */
  predicate IsUnsafe(c: char) { c == '\t' || c == '\r' || c == '\n' }

  /** Ends the network location. */
  predicate IsNetlocDelim(c: char) { c == '/' || c == '?' || c == '#' }

  function LStripControl(s: string): (r: string)
    ensures |r| <= |s| && r == s[|s| - |r|..]
    ensures r == [] || !IsControlOrSpace(r[0])
  {
    if |s| > 0 && IsControlOrSpace(s[0]) then LStripControl(s[1..]) else s
  }

  function RemoveUnsafe(s: string): (r: string)
    ensures forall i :: 0 <= i < |r| ==> !IsUnsafe(r[i])
  {
    if |s| == 0 then []
    else (if IsUnsafe(s[0]) then [] else [s[0]]) + RemoveUnsafe(s[1..])
  }

  /** The URL `urlsplit` works on. */
  function Clean(url: string): string
  {
    RemoveUnsafe(LStripControl(url))
  }

  /** Position of the `:` that ends a scheme, when `url` starts with one. */
  function SchemeEnd(url: string): Option<nat>
  {
    var i := PyStr.IndexOf(url, ':');
    if 0 < i < |url| && IsAsciiLetter(url[0]) && AllSchemeChars(url[..i]) then Some(i) else None
  }

  function SchemeOf(url: string): string
  {
    match SchemeEnd(url)
    case Some(i) => PyStr.Lower(url[..i])
    case None => ""
  }

  function AfterScheme(url: string): string
  {
    match SchemeEnd(url)
    case Some(i) => url[i + 1..]
    case None => url
  }

  /** Index of the first of `/`, `?` and `#` in `s`, or `|s|`. */
  function FirstDelim(s: string): (k: nat)
    ensures k <= |s|
    ensures k < |s| ==> IsNetlocDelim(s[k])
    ensures forall i :: 0 <= i < k ==> !IsNetlocDelim(s[i])
  {
    if |s| == 0 then 0
    else if IsNetlocDelim(s[0]) then 0
    else 1 + FirstDelim(s[1..])
  }

  predicate HasAuthority(rest: string) { |rest| >= 2 && rest[..2] == "//" }

  /** `_splitnetloc(rest, 2)`: the network location and what follows it. */
  function NetlocOf(rest: string): string
    requires HasAuthority(rest)
  {
    rest[2..2 + FirstDelim(rest[2..])]
  }

  function AfterNetloc(rest: string): string
    requires HasAuthority(rest)
  {
    rest[2 + FirstDelim(rest[2..])..]
  }

  /** One bracket without the other. */
  predicate UnbalancedBrackets(netloc: string)
  {
    ('[' in netloc && ']' !in netloc) || (']' in netloc && '[' !in netloc)
  }

  /** `s.split(c, 1)`: the part before the first `c` ... */
  function Before(s: string, c: char): string
  {
    s[..PyStr.IndexOf(s, c)]
  }

  /** ... and the part after it, or `""` when there is none. */
  function After(s: string, c: char): string
  {
    var k := PyStr.IndexOf(s, c);
    if k < |s| then s[k + 1..] else ""
  }

  /** Fragment, then query, cut off the end of the URL. */
  function SplitTail(scheme: string, netloc: string, rest: string): SplitResult
  {
    var beforeFragment := Before(rest, '#');
    SplitResult(scheme, netloc, Before(beforeFragment, '?'), After(beforeFragment, '?'), After(rest, '#'))
  }

  /** `urlsplit(url)` */
  function UrlSplit(url: string): Result<SplitResult>
  {
    var clean := Clean(url);
    var scheme := SchemeOf(clean);
    var rest := AfterScheme(clean);
    if HasAuthority(rest) then
      var netloc := NetlocOf(rest);
      if UnbalancedBrackets(netloc) then Err(InvalidUrl(url))
      else Ok(SplitTail(scheme, netloc, AfterNetloc(rest)))
    else Ok(SplitTail(scheme, "", rest))
  }

  /** Index of the last `c` in `s`, if any. */
  function LastIndexOf(s: string, c: char): (k: Option<nat>)
    ensures k.Some? ==> k.value < |s| && s[k.value] == c
    ensures k.None? <==> c !in s
  {
    if |s| == 0 then None
    else if s[|s| - 1] == c then Some(|s| - 1)
    else
      var k := LastIndexOf(s[..|s| - 1], c);
      assert s == s[..|s| - 1] + [s[|s| - 1]];
      k
  }

  /** `_splitparams(path)`: the parameters start at the first `;` after the
      last `/`. */
  function SplitParams(path: string): (string, string)
  {
    match LastIndexOf(path, '/')
    case Some(slash) =>
      var i := slash + PyStr.IndexOf(path[slash..], ';');
      if i < |path| then (path[..i], path[i + 1..]) else (path, "")
    case None =>
      var i := PyStr.IndexOf(path, ';');
      if i < |path| then (path[..i], path[i + 1..]) else (path, "")
  }

  /** `urlparse(url)` */
  function UrlParse(url: string): Result<ParseResult>
  {
    var s :- UrlSplit(url);
    if s.scheme in UsesParams && ';' in s.path then
      var split := SplitParams(s.path);
      Ok(ParseResult(s.scheme, s.netloc, split.0, split.1, s.query, s.fragment))
    else Ok(ParseResult(s.scheme, s.netloc, s.path, "", s.query, s.fragment))
  }

  /** `urlunsplit(parts)`: a network location (or a scheme that expects one)
      is written after `//`, with a `/` put in front of a relative path. */
  function UrlUnsplit(parts: SplitResult): string
  {
    var path := parts.path;
    var withNetloc :=
      if parts.netloc != "" || (parts.scheme != "" && parts.scheme in UsesNetloc && !HasAuthority(path)) then
        "//" + parts.netloc + (if path != "" && path[0] != '/' then "/" + path else path)
      else path;
    var withScheme := if parts.scheme != "" then parts.scheme + ":" + withNetloc else withNetloc;
    var withQuery := if parts.query != "" then withScheme + "?" + parts.query else withScheme;
    if parts.fragment != "" then withQuery + "#" + parts.fragment else withQuery
  }

  /** `ParseResult.geturl()` */
  function GetUrl(p: ParseResult): string
  {
    var path := if p.params != "" then p.path + ";" + p.params else p.path;
    UrlUnsplit(SplitResult(p.scheme, p.netloc, path, p.query, p.fragment))
  }

  /* ---------------------------------------------------------------- */
  /* Properties                                                        */
  /* ---------------------------------------------------------------- */

  /** The part before the first `c` holds no `c`. */
  lemma BeforeFree(s: string, c: char)
    ensures c !in Before(s, c)
  {
    var k := PyStr.IndexOf(s, c);
    assert forall i :: 0 <= i < k ==> Before(s, c)[i] == s[i];
  }

  /** A prefix of a string without `c` holds no `c`. */
  lemma BeforeKeepsFree(s: string, c: char, d: char)
    requires d !in s
    ensures d !in Before(s, c)
  {
    var k := PyStr.IndexOf(s, c);
    assert forall i :: 0 <= i < k ==> Before(s, c)[i] == s[i];
  }

  lemma SplitTailComponents(scheme: string, netloc: string, rest: string)
    ensures var s := SplitTail(scheme, netloc, rest);
      s.scheme == scheme && s.netloc == netloc && '?' !in s.path && '#' !in s.path && '#' !in s.query
  {
    var beforeFragment := Before(rest, '#');
    BeforeFree(rest, '#');
    BeforeFree(beforeFragment, '?');
    BeforeKeepsFree(beforeFragment, '?', '#');
    var k := PyStr.IndexOf(beforeFragment, '?');
    if k < |beforeFragment| {
      assert forall i :: 0 <= i < |beforeFragment| - k - 1 ==> After(beforeFragment, '?')[i] == beforeFragment[k + 1 + i];
    }
  }

  /** A recognised scheme is a lower-case run of scheme characters that
      starts with a letter. */
  lemma SchemeOfShape(url: string)
    ensures var scheme := SchemeOf(url);
      scheme == "" || ('a' <= scheme[0] <= 'z' && AllSchemeChars(scheme) && PyStr.NoUpper(scheme))
  {
    match SchemeEnd(url) {
      case Some(i) =>
        var raw := url[..i];
        PyStr.LowerAt(raw);
        assert IsAsciiLetter(raw[0]);
        assert forall j :: 0 <= j < i ==> IsSchemeChar(raw[j]);
      case None =>
    }
  }

  lemma NetlocFree(rest: string)
    requires HasAuthority(rest)
    ensures forall i :: 0 <= i < |NetlocOf(rest)| ==> !IsNetlocDelim(NetlocOf(rest)[i])
  {
    var k := FirstDelim(rest[2..]);
    assert forall i :: 0 <= i < k ==> NetlocOf(rest)[i] == rest[2..][i];
  }

  /** Every component `urlsplit` returns is free of the characters that end
      it: the scheme is a lower-case run of scheme characters starting with a
      letter, the network location holds no `/`, `?` or `#`, the path no `?`
      or `#`, the query no `#`. */
  lemma UrlSplitComponents(url: string)
    requires UrlSplit(url).Ok?
    ensures var s := UrlSplit(url).value;
      (s.scheme == "" || ('a' <= s.scheme[0] <= 'z' && AllSchemeChars(s.scheme) && PyStr.NoUpper(s.scheme)))
      && (forall i :: 0 <= i < |s.netloc| ==> !IsNetlocDelim(s.netloc[i]))
      && '?' !in s.path && '#' !in s.path && '#' !in s.query
  {
    var clean := Clean(url);
    var scheme := SchemeOf(clean);
    var rest := AfterScheme(clean);
    SchemeOfShape(clean);
    if HasAuthority(rest) {
      NetlocFree(rest);
      SplitTailComponents(scheme, NetlocOf(rest), AfterNetloc(rest));
    } else {
      SplitTailComponents(scheme, "", rest);
    }
  }

  /** The URLs the registries are configured with: a lower-case scheme, a
      network location, and a path that is empty or starts with `/`, none of
      them holding a character that ends an earlier component. */
  predicate WellFormed(scheme: string, host: string, path: string)
  {
    |scheme| > 0 && 'a' <= scheme[0] <= 'z' && AllSchemeChars(scheme) && PyStr.NoUpper(scheme)
    && (forall i :: 0 <= i < |host| ==> !IsNetlocDelim(host[i]) && !IsUnsafe(host[i]) && host[i] != '[' && host[i] != ']')
    && (path == [] || path[0] == '/')
    && (forall i :: 0 <= i < |path| ==> path[i] != '?' && path[i] != '#' && !IsUnsafe(path[i]))
  }

  lemma {:induction false} RemoveUnsafeNone(s: string)
    requires forall i :: 0 <= i < |s| ==> !IsUnsafe(s[i])
    ensures RemoveUnsafe(s) == s
    decreases |s|
  {
    if |s| > 0 {
      RemoveUnsafeNone(s[1..]);
      assert s == [s[0]] + s[1..];
    }
  }

  lemma FirstDelimConcat(s: string, t: string)
    requires forall i :: 0 <= i < |s| ==> !IsNetlocDelim(s[i])
    requires t == [] || IsNetlocDelim(t[0])
    ensures FirstDelim(s + t) == |s|
  {
    var k := FirstDelim(s + t);
    assert forall i :: 0 <= i < |s| ==> (s + t)[i] == s[i];
    if t != [] {
      assert (s + t)[|s|] == t[0];
    }
  }

  /** The scheme of a well-formed URL is recognised. */
  lemma SchemeOfWellFormed(scheme: string, rest: string)
    requires |scheme| > 0 && 'a' <= scheme[0] <= 'z' && AllSchemeChars(scheme) && PyStr.NoUpper(scheme)
    ensures SchemeEnd(scheme + ":" + rest) == Some(|scheme|)
    ensures SchemeOf(scheme + ":" + rest) == scheme
    ensures AfterScheme(scheme + ":" + rest) == rest
  {
    var url := scheme + ":" + rest;
    assert ':' !in scheme by {
      assert forall i :: 0 <= i < |scheme| ==> IsSchemeChar(scheme[i]);
    }
    assert url == scheme + (":" + rest);
    PyStr.IndexOfConcat(scheme, ":" + rest, ':');
    assert (":" + rest)[0] == ':';
    var i := PyStr.IndexOf(url, ':');
    assert i == |scheme|;
    assert url[..i] == scheme;
    assert IsAsciiLetter(url[0]) by {
      assert url[0] == scheme[0];
    }
    assert url[|scheme| + 1..] == rest;
    PyStr.LowerNoUpper(scheme);
  }

  /** A well-formed URL has nothing for cleaning to remove. */
  lemma CleanWellFormed(scheme: string, host: string, path: string)
    requires WellFormed(scheme, host, path)
    ensures Clean(scheme + ":" + ("//" + host + path)) == scheme + ":" + ("//" + host + path)
  {
    var rest := "//" + host + path;
    var url := scheme + ":" + rest;
    assert LStripControl(url) == url by {
      assert url[0] == scheme[0];
    }
    assert Safe(url) by {
      assert Safe(scheme) by {
        assert forall i :: 0 <= i < |scheme| ==> IsSchemeChar(scheme[i]);
      }
      SafeConcat(scheme, ":");
      SafeConcat("//", host);
      SafeConcat("//" + host, path);
      SafeConcat(scheme + ":", rest);
    }
    RemoveUnsafeNone(url);
  }

  /** Text without a tab or line break. */
  predicate Safe(s: string)
  {
    forall i :: 0 <= i < |s| ==> !IsUnsafe(s[i])
  }

  lemma SafeConcat(a: string, b: string)
    requires Safe(a) && Safe(b)
    ensures Safe(a + b)
  {
    assert forall i :: |a| <= i < |a + b| ==> (a + b)[i] == b[i - |a|];
  }

  /** Cleaning only removes characters. */
  lemma CleanSubset(url: string)
    ensures forall c :: c in Clean(url) ==> c in url
  {
    assert forall c :: c in LStripControl(url) ==> c in url;
    RemoveUnsafeSubset(LStripControl(url));
  }

  lemma {:induction false} RemoveUnsafeSubset(s: string)
    ensures forall c :: c in RemoveUnsafe(s) ==> c in s
    decreases |s|
  {
    if |s| > 0 {
      RemoveUnsafeSubset(s[1..]);
    }
  }

  /** No `:`, `[` or `]` in `s`. */
  predicate Unmarked(s: string)
  {
    forall i :: 0 <= i < |s| ==> s[i] != ':' && s[i] != '[' && s[i] != ']'
  }

  /** A URL without `:` has no scheme, and without brackets it splits. */
  lemma SplitWithoutColon(url: string)
    requires Unmarked(url)
    ensures UrlSplit(url).Ok? && UrlSplit(url).value.scheme == ""
  {
    var clean := Clean(url);
    assert Unmarked(clean) by {
      CleanSubset(url);
      assert forall i :: 0 <= i < |clean| ==> clean[i] in url;
    }
    assert SchemeEnd(clean).None? by {
      assert PyStr.IndexOf(clean, ':') == |clean|;
    }
    assert SchemeOf(clean) == "" && AfterScheme(clean) == clean;
    if HasAuthority(clean) {
      var netloc := NetlocOf(clean);
      assert !UnbalancedBrackets(netloc) by {
        assert forall i :: 0 <= i < |netloc| ==> netloc[i] == clean[2 + i];
      }
    }
  }

  /** `urlparse` keeps the scheme `urlsplit` finds. */
  lemma ParseKeepsScheme(url: string)
    requires UrlSplit(url).Ok?
    ensures UrlParse(url).Ok? && UrlParse(url).value.scheme == UrlSplit(url).value.scheme
  {
    var s := UrlSplit(url).value;
    if s.scheme in UsesParams && ';' in s.path {
      var split := SplitParams(s.path);
      assert UrlParse(url) == Ok(ParseResult(s.scheme, s.netloc, split.0, split.1, s.query, s.fragment));
    } else {
      assert UrlParse(url) == Ok(ParseResult(s.scheme, s.netloc, s.path, "", s.query, s.fragment));
    }
  }

  /** The network location of `//host/path` is `host`. */
  lemma NetlocWellFormed(scheme: string, host: string, path: string)
    requires WellFormed(scheme, host, path)
    ensures HasAuthority("//" + host + path)
    ensures NetlocOf("//" + host + path) == host && AfterNetloc("//" + host + path) == path
  {
    var rest := "//" + host + path;
    assert rest[..2] == "//";
    assert rest[2..] == host + path;
    FirstDelimConcat(host, path);
    assert rest[2..2 + |host|] == host;
  }

  /** `urlsplit` once the network location is known to be well bracketed. */
  lemma UrlSplitAuthority(url: string, scheme: string, rest: string)
    requires SchemeOf(Clean(url)) == scheme && AfterScheme(Clean(url)) == rest
    requires HasAuthority(rest) && !UnbalancedBrackets(NetlocOf(rest))
    ensures UrlSplit(url) == Ok(SplitTail(scheme, NetlocOf(rest), AfterNetloc(rest)))
  {
  }

  /** A path without `?` or `#` has no query and no fragment. */
  lemma SplitTailPlain(scheme: string, netloc: string, path: string)
    requires '?' !in path && '#' !in path
    ensures SplitTail(scheme, netloc, path) == SplitResult(scheme, netloc, path, "", "")
  {
    assert PyStr.IndexOf(path, '#') == |path|;
    assert PyStr.IndexOf(path, '?') == |path|;
  }

  /** `urlsplit` of a well-formed `scheme://host/path` gives its parts back. */
  lemma UrlSplitWellFormed(scheme: string, host: string, path: string)
    requires WellFormed(scheme, host, path)
    ensures UrlSplit(scheme + "://" + host + path) == Ok(SplitResult(scheme, host, path, "", ""))
  {
    var rest := "//" + host + path;
    var url := scheme + ":" + rest;
    assert scheme + "://" + host + path == url;
    CleanWellFormed(scheme, host, path);
    SchemeOfWellFormed(scheme, rest);
    NetlocWellFormed(scheme, host, path);
    assert !UnbalancedBrackets(host) by {
      assert forall i :: 0 <= i < |host| ==> host[i] != '[';
    }
    UrlSplitAuthority(url, scheme, rest);
    SplitTailPlain(scheme, host, path);
  }

  /** `urlparse` of a well-formed URL: no parameters unless the scheme takes
      them and the path holds a `;`. */
  lemma UrlParseWellFormed(scheme: string, host: string, path: string)
    requires WellFormed(scheme, host, path)
    requires scheme !in UsesParams || ';' !in path
    ensures UrlParse(scheme + "://" + host + path) == Ok(ParseResult(scheme, host, path, "", "", ""))
  {
    UrlSplitWellFormed(scheme, host, path);
  }

  /** `urlunsplit` undoes `urlsplit` on a well-formed URL with a network
      location. */
  lemma UnsplitSplit(scheme: string, host: string, path: string)
    requires WellFormed(scheme, host, path) && host != ""
    ensures UrlSplit(scheme + "://" + host + path).Ok?
    ensures UrlUnsplit(UrlSplit(scheme + "://" + host + path).value) == scheme + "://" + host + path
  {
    var url := scheme + "://" + host + path;
    UrlSplitWellFormed(scheme, host, path);
    assert UrlSplit(url).value == SplitResult(scheme, host, path, "", "");
    UnsplitWithNetloc(scheme, host, path);
  }

  /** With a network location, `urlunsplit` writes `scheme://netloc` and an
      absolute path as they are. */
  lemma UnsplitWithNetloc(scheme: string, host: string, path: string)
    requires scheme != "" && host != "" && (path == "" || path[0] == '/')
    ensures UrlUnsplit(SplitResult(scheme, host, path, "", "")) == scheme + "://" + host + path
  {
    assert scheme + ":" + ("//" + host + path) == scheme + "://" + host + path;
  }

  /** A relative path is made absolute when a network location is written. */
  lemma UnsplitRelativePath(scheme: string, host: string, path: string)
    requires scheme != "" && host != "" && path != "" && path[0] != '/'
    ensures UrlUnsplit(SplitResult(scheme, host, path, "", "")) == scheme + "://" + host + "/" + path
  {
  }
}
