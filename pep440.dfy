/** The part of PEP 440 ("Version Identification and Dependency
    Specification") that `packaging.version.Version` is used for here:
    an optional leading `v`, a dot-separated numeric release, an optional
    pre-release (`a`/`alpha`, `b`/`beta`, `c`/`rc`/`pre`/`preview`, with an
    optional `-`, `_` or `.` before the label and before its number) and an
    optional development release (`.devN`, same separators), matched without
    regard to ASCII case and ignoring surrounding whitespace. Ordering follows
    the section "Summary of permitted suffixes and relative ordering":
    `X.devN < XaN < XbN < XrcN < X`, with trailing zeros of the release
    insignificant. */
module Pep440 {
  import opened Outcomes
  import PyStr

  datatype PreLabel = Alpha | Beta | Rc

  datatype Pre = Pre(kind: PreLabel, number: nat)

  /** A parsed version: the release segments, the pre-release and the
      development release. */
  datatype Version = Version(release: seq<nat>, pre: Option<Pre>, dev: Option<nat>)

  /* ---------------------------------------------------------------- */
  /* Parsing                                                           */
  /* ---------------------------------------------------------------- */

  predicate IsDigit(c: char) { '0' <= c <= '9' }

  predicate IsSep(c: char) { c == '-' || c == '_' || c == '.' }

  predicate StartsWith(s: string, prefix: string)
  {
    |prefix| <= |s| && s[..|prefix|] == prefix
  }

  /** Length of the run of ASCII digits that starts `s`. */
  function DigitRun(s: string): (k: nat)
    ensures k <= |s|
  {
    if |s| > 0 && IsDigit(s[0]) then 1 + DigitRun(s[1..]) else 0
  }

  /** The value of a string of decimal digits (`int(...)`), 0 for "". */
  function NumberOf(ds: string): nat
  {
    if |ds| == 0 then 0
    else
      var d := ds[|ds| - 1] as int - '0' as int;
      NumberOf(ds[..|ds| - 1]) * 10 + (if 0 <= d then d else 0)
  }

  /** `s` without one leading separator, if it has one. */
  function SkipSep(s: string): string
  {
    if |s| > 0 && IsSep(s[0]) then s[1..] else s
  }

  /** The dot-separated numeric release at the start of `s`, taken as far as
      it goes, and the text after it. */
  function ReleaseFrom(s: string): (r: (seq<nat>, string))
    requires |s| > 0 && IsDigit(s[0])
    ensures |r.0| > 0 && |r.1| < |s|
    decreases |s|
  {
    var k := DigitRun(s);
    var n := NumberOf(s[..k]);
    var rest := s[k..];
    if |rest| >= 2 && rest[0] == '.' && IsDigit(rest[1]) then
      var more := ReleaseFrom(rest[1..]);
      ([n] + more.0, more.1)
    else
      ([n], rest)
  }

  /** The spellings of the pre-release labels with the label each stands
      for, longer spellings before their prefixes: a short spelling
      followed by the rest of a long one never parses, so this finds the
      alternative packaging's regular expression ends up matching. */
  const PreSpellings: seq<(string, PreLabel)> :=
    [("alpha", Alpha), ("a", Alpha), ("beta", Beta), ("b", Beta),
     ("preview", Rc), ("pre", Rc), ("c", Rc), ("rc", Rc)]

  /** The first of `spellings` that starts `s`, as its label and length. */
  function LabelIn(s: string, spellings: seq<(string, PreLabel)>): Option<(PreLabel, nat)>
  {
    if |spellings| == 0 then None
    else if StartsWith(s, spellings[0].0) then Some((spellings[0].1, |spellings[0].0|))
    else LabelIn(s, spellings[1..])
  }

  /** The pre-release label spelled at the start of `s`, normalised, and the
      length of its spelling. */
  function PreLabelAt(s: string): Option<(PreLabel, nat)>
  {
    LabelIn(s, PreSpellings)
  }

  /** An optional separator and a number (0 when absent), then the rest. */
  function NumberAfterSep(s: string): (nat, string)
  {
    var s1 := SkipSep(s);
    var k := DigitRun(s1);
    (NumberOf(s1[..k]), s1[k..])
  }

  /** The pre-release segment at the start of `s`, if there is one. */
  function PreFrom(s: string): Option<(Pre, string)>
  {
    var s1 := SkipSep(s);
    var found := PreLabelAt(s1);
    if found.Some? && found.value.1 <= |s1| then
      var number := NumberAfterSep(s1[found.value.1..]);
      Some((Pre(found.value.0, number.0), number.1))
    else None
  }

  /** The development-release segment at the start of `s`, if there is one. */
  function DevFrom(s: string): Option<(nat, string)>
  {
    var s1 := SkipSep(s);
    if StartsWith(s1, "dev") then Some(NumberAfterSep(s1[3..])) else None
  }

  /** A lower-case version string without surrounding whitespace. */
  function ParseCore(s: string): Option<Version>
  {
    ParseUnprefixed(if |s| > 0 && s[0] == 'v' then s[1..] else s)
  }

  /** What follows the optional `v`. */
  function ParseUnprefixed(s0: string): Option<Version>
  {
    if |s0| == 0 || !IsDigit(s0[0]) then None
    else
      var release := ReleaseFrom(s0);
      var pre := PreFrom(release.1);
      var afterPre := if pre.Some? then pre.value.1 else release.1;
      Assemble(release.0, pre, DevFrom(afterPre), afterPre)
  }

  /** The version built from the release, the pre-release and the
      development release read, provided nothing is left over. */
  function Assemble(release: seq<nat>, pre: Option<(Pre, string)>, dev: Option<(nat, string)>,
                    afterPre: string): Option<Version>
  {
    var afterDev := if dev.Some? then dev.value.1 else afterPre;
    if afterDev == "" then
      Some(Version(release,
                   if pre.Some? then Some(pre.value.0) else None,
                   if dev.Some? then Some(dev.value.0) else None))
    else None
  }

  /** `Version(s)`: `None` where packaging raises `InvalidVersion`. */
  function Parse(s: string): Option<Version>
  {
    ParseCore(PyStr.Lower(PyStr.Strip(s)))
  }

  /* ---------------------------------------------------------------- */
  /* The canonical spelling (`str(Version(...))`) and the round trip   */
  /* ---------------------------------------------------------------- */

  function DigitChar(d: nat): char
    requires d < 10
  {
    ('0' as int + d) as char
  }

  function NatToString(n: nat): (s: string)
    ensures |s| > 0
    ensures forall i :: 0 <= i < |s| ==> IsDigit(s[i])
  {
    if n < 10 then [DigitChar(n)] else NatToString(n / 10) + [DigitChar(n % 10)]
  }

  function ReleaseToString(release: seq<nat>): string
    requires |release| > 0
  {
    if |release| == 1 then NatToString(release[0])
    else NatToString(release[0]) + "." + ReleaseToString(release[1..])
  }

  function PreToString(p: Pre): string
  {
    (match p.kind case Alpha => "a" case Beta => "b" case Rc => "rc") + NatToString(p.number)
  }

  /** The normalised spelling packaging prints for a version. */
  function Format(v: Version): string
    requires |v.release| > 0
  {
    ReleaseToString(v.release)
    + (match v.pre case Some(p) => PreToString(p) case None => "")
    + DevToString(v.dev)
  }

  lemma {:induction false} NumberOfAppend(ds: string, c: char)
    requires IsDigit(c)
    ensures NumberOf(ds + [c]) == NumberOf(ds) * 10 + (c as int - '0' as int)
  {
    assert (ds + [c])[..|ds|] == ds;
  }

  lemma {:induction false} NumberOfNatToString(n: nat)
    ensures NumberOf(NatToString(n)) == n
  {
    if n >= 10 {
      NumberOfNatToString(n / 10);
      NumberOfAppend(NatToString(n / 10), DigitChar(n % 10));
    } else {
      assert NatToString(n)[..0] == "";
    }
  }

  /** The digit run of digits followed by a non-digit is exactly those
      digits. */
  lemma {:induction false} DigitRunDigits(ds: string, tail: string)
    requires forall i :: 0 <= i < |ds| ==> IsDigit(ds[i])
    requires tail == [] || !IsDigit(tail[0])
    ensures DigitRun(ds + tail) == |ds|
    ensures (ds + tail)[..|ds|] == ds && (ds + tail)[|ds|..] == tail
    decreases |ds|
  {
    ConcatSlices(ds, tail);
    if |ds| > 0 {
      DigitRunDigits(ds[1..], tail);
      assert (ds + tail)[1..] == ds[1..] + tail;
      assert (ds + tail)[0] == ds[0];
    } else {
      assert ds + tail == tail;
    }
  }

  lemma ConcatSlices<T>(a: seq<T>, b: seq<T>)
    ensures (a + b)[..|a|] == a && (a + b)[|a|..] == b
  {
  }

  /** What may follow a release without being read as part of it. */
  predicate EndsRelease(tail: string)
  {
    tail == [] || (!IsDigit(tail[0]) && !(tail[0] == '.' && |tail| >= 2 && IsDigit(tail[1])))
  }

  lemma ReleaseFromLast(n: nat, tail: string)
    requires EndsRelease(tail)
    ensures var s := NatToString(n) + tail;
      |s| > 0 && IsDigit(s[0]) && ReleaseFrom(s) == ([n], tail)
  {
    var head := NatToString(n);
    var s := head + tail;
    NumberOfNatToString(n);
    DigitRunDigits(head, tail);
    assert s[0] == head[0];
  }

  /** `ReleaseFrom` when a dot and a digit follow the first number. */
  lemma ReleaseFromMore(s: string, k: nat)
    requires |s| > 0 && IsDigit(s[0]) && k == DigitRun(s)
    requires |s[k..]| >= 2 && s[k..][0] == '.' && IsDigit(s[k..][1])
    ensures ReleaseFrom(s) == ([NumberOf(s[..k])] + ReleaseFrom(s[k..][1..]).0, ReleaseFrom(s[k..][1..]).1)
  {
  }

  lemma Concat3<T>(a: seq<T>, b: seq<T>, c: seq<T>)
    ensures a + b + c == a + (b + c)
  {
  }

  lemma Concat4<T>(a: seq<T>, b: seq<T>, c: seq<T>, d: seq<T>)
    ensures a + b + c + d == a + (b + (c + d))
  {
  }

  /** One step of `ReleaseFrom`: a number, a dot, then a release. */
  lemma ReleaseFromCons(head: string, more: string, tail: string, rest: seq<nat>)
    requires |head| > 0 && forall i :: 0 <= i < |head| ==> IsDigit(head[i])
    requires |more + tail| > 0 && IsDigit((more + tail)[0])
    requires ReleaseFrom(more + tail) == (rest, tail)
    ensures var s := head + "." + more + tail;
      |s| > 0 && IsDigit(s[0]) && ReleaseFrom(s) == ([NumberOf(head)] + rest, tail)
  {
    var after := "." + (more + tail);
    var s := head + after;
    assert head + "." + more + tail == s by {
      Concat4(head, ".", more, tail);
    }
    DigitRunDigits(head, after);
    assert after[1..] == more + tail;
    assert s[0] == head[0];
    ReleaseFromMore(s, |head|);
  }

  /** A release printed by `ReleaseToString` is read back by `ReleaseFrom`
      when what follows cannot continue it. */
  lemma {:induction false} ReleaseRoundTrip(release: seq<nat>, tail: string)
    requires |release| > 0
    requires EndsRelease(tail)
    ensures var s := ReleaseToString(release) + tail;
      |s| > 0 && IsDigit(s[0]) && ReleaseFrom(s) == (release, tail)
    decreases |release|
  {
    if |release| == 1 {
      ReleaseFromLast(release[0], tail);
      assert ReleaseToString(release) == NatToString(release[0]);
      assert release == [release[0]];
    } else {
      var head := NatToString(release[0]);
      ReleaseRoundTrip(release[1..], tail);
      ReleaseFromCons(head, ReleaseToString(release[1..]), tail, release[1..]);
      NumberOfNatToString(release[0]);
      assert release == [release[0]] + release[1..];
    }
  }

  /** The digits of a number followed by `tail` read back as that number. */
  lemma NumberAfterDigits(n: nat, tail: string)
    requires tail == [] || (!IsDigit(tail[0]) && !IsSep(tail[0])) || tail[0] == '.'
    ensures NumberAfterSep(NatToString(n) + tail) == (n, tail)
  {
    var ds := NatToString(n);
    var s := ds + tail;
    assert s[0] == ds[0];
    assert SkipSep(s) == s;
    DigitRunDigits(ds, tail);
    NumberOfNatToString(n);
  }

  lemma DevRoundTrip(d: nat)
    ensures DevFrom(".dev" + NatToString(d)) == Some((d, ""))
  {
    var ds := NatToString(d);
    var s := ".dev" + ds;
    var s1 := "dev" + ds;
    assert s[0] == '.' && s[1..] == s1;
    assert SkipSep(s) == s1;
    assert s1[..3] == "dev";
    assert s1[3..] == ds;
    NumberAfterDigits(d, "");
    assert ds + "" == ds;
  }

  /** `PreFrom` over a label spelling, a number and what follows. */
  lemma PreFromParts(spelled: string, kind: PreLabel, rest: string, n: nat, tail: string)
    requires |spelled| > 0 && !IsSep(spelled[0])
    requires PreLabelAt(spelled + rest) == Some((kind, |spelled|))
    requires NumberAfterSep(rest) == (n, tail)
    ensures PreFrom(spelled + rest) == Some((Pre(kind, n), tail))
  {
    var s := spelled + rest;
    assert s[0] == spelled[0];
    assert SkipSep(s) == s;
    assert s[|spelled|..] == rest;
  }

  /** `LabelIn` finds the first spelling that starts `s`. */
  lemma {:induction false} LabelInFirstMatch(s: string, spellings: seq<(string, PreLabel)>, k: nat)
    requires k < |spellings| && StartsWith(s, spellings[k].0)
    requires forall j :: 0 <= j < k ==> !StartsWith(s, spellings[j].0)
    ensures LabelIn(s, spellings) == Some((spellings[k].1, |spellings[k].0|))
    decreases k
  {
    if k > 0 {
      LabelInFirstMatch(s, spellings[1..], k - 1);
    }
  }

  /** `LabelIn` finds nothing when no spelling starts `s`. */
  lemma {:induction false} LabelInNone(s: string, spellings: seq<(string, PreLabel)>)
    requires forall j :: 0 <= j < |spellings| ==> !StartsWith(s, spellings[j].0)
    ensures LabelIn(s, spellings) == None
    decreases |spellings|
  {
    if |spellings| > 0 {
      LabelInNone(s, spellings[1..]);
    }
  }

  /** The short label spellings are not mistaken for the long ones when a
      digit follows. */
  lemma PreLabelBeforeDigit(rest: string)
    requires |rest| > 0 && IsDigit(rest[0])
    ensures PreLabelAt("a" + rest) == Some((Alpha, 1))
    ensures PreLabelAt("b" + rest) == Some((Beta, 1))
    ensures PreLabelAt("rc" + rest) == Some((Rc, 2))
  {
    var a, b, rc := "a" + rest, "b" + rest, "rc" + rest;
    assert a[0] == 'a' && a[1] == rest[0] && "alpha"[1] == 'l';
    LabelInFirstMatch(a, PreSpellings, 1);
    assert b[0] == 'b' && b[1] == rest[0] && "beta"[1] == 'e';
    LabelInFirstMatch(b, PreSpellings, 3);
    assert rc[0] == 'r' && rc[1] == 'c';
    LabelInFirstMatch(rc, PreSpellings, 7);
  }

  lemma PreRoundTrip(p: Pre, tail: string)
    requires tail == [] || tail[0] == '.'
    ensures PreFrom(PreToString(p) + tail) == Some((p, tail))
  {
    var ds := NatToString(p.number);
    var rest := ds + tail;
    assert NumberAfterSep(rest) == (p.number, tail) by {
      NumberAfterDigits(p.number, tail);
    }
    assert |rest| > 0 && IsDigit(rest[0]) by {
      assert rest[0] == ds[0];
    }
    var spelled := match p.kind case Alpha => "a" case Beta => "b" case Rc => "rc";
    assert PreLabelAt(spelled + rest) == Some((p.kind, |spelled|)) by {
      PreLabelBeforeDigit(rest);
    }
    assert PreToString(p) + tail == spelled + rest by {
      assert PreToString(p) == spelled + ds;
      Concat3(spelled, ds, tail);
    }
    PreFromParts(spelled, p.kind, rest, p.number, tail);
  }

  /** `ParseUnprefixed` assembled from what each stage reads. */
  lemma ParseStages(s: string, v: Version, afterRelease: string, afterPre: string)
    requires |s| > 0 && IsDigit(s[0])
    requires ReleaseFrom(s) == (v.release, afterRelease)
    requires v.pre.Some? ==> PreFrom(afterRelease) == Some((v.pre.value, afterPre))
    requires v.pre.None? ==> PreFrom(afterRelease) == None && afterPre == afterRelease
    requires v.dev.Some? ==> DevFrom(afterPre) == Some((v.dev.value, ""))
    requires v.dev.None? ==> DevFrom(afterPre) == None && afterPre == ""
    ensures ParseUnprefixed(s) == Some(v)
  {
    var pre := PreFrom(afterRelease);
    var dev := DevFrom(afterPre);
    assert (if pre.Some? then pre.value.1 else afterRelease) == afterPre;
    assert ParseUnprefixed(s) == Assemble(v.release, pre, dev, afterPre);
    assert (if dev.Some? then dev.value.1 else afterPre) == "";
    assert (if pre.Some? then Some(pre.value.0) else None) == v.pre;
    assert (if dev.Some? then Some(dev.value.0) else None) == v.dev;
  }


  /** Text that starts with a digit has no `v` to skip. */
  lemma ParseCoreDigit(s: string)
    requires |s| > 0 && IsDigit(s[0])
    ensures ParseCore(s) == ParseUnprefixed(s)
  {
    assert s[0] != 'v';
  }

  function DevToString(dev: Option<nat>): string
  {
    match dev case Some(d) => ".dev" + NatToString(d) case None => ""
  }

  /** A printed development release is not read as a pre-release. */
  lemma DevNotPre(dev: Option<nat>)
    ensures PreFrom(DevToString(dev)) == None
    ensures DevToString(dev) == [] || (|DevToString(dev)| >= 2 && DevToString(dev)[0] == '.' && DevToString(dev)[1] == 'd')
  {
    var s := DevToString(dev);
    if dev.Some? {
      assert s[0] == '.' && s[1] == 'd';
      var s1 := SkipSep(s);
      assert s1[0] == 'd';
      assert forall j :: 0 <= j < |PreSpellings| ==> PreSpellings[j].0[0] != 'd';
      LabelInNone(s1, PreSpellings);
    } else {
      LabelInNone(s, PreSpellings);
    }
  }

  /** Parsing the normalised spelling gives the version back. */
  lemma ParseFormat(v: Version)
    requires |v.release| > 0
    ensures ParseCore(Format(v)) == Some(v)
  {
    var devPart := DevToString(v.dev);
    var prePart := match v.pre case Some(p) => PreToString(p) case None => "";
    var tail := prePart + devPart;
    var s := Format(v);
    assert s == ReleaseToString(v.release) + tail;
    DevNotPre(v.dev);
    assert EndsRelease(tail) by {
      if v.pre.Some? {
        assert tail[0] == prePart[0];
        assert prePart[0] in "abr";
      }
    }
    assert |s| > 0 && IsDigit(s[0]) && ReleaseFrom(s) == (v.release, tail) by {
      ReleaseRoundTrip(v.release, tail);
    }
    assert v.pre.Some? ==> PreFrom(tail) == Some((v.pre.value, devPart)) by {
      if v.pre.Some? {
        PreRoundTrip(v.pre.value, devPart);
      }
    }
    assert v.dev.Some? ==> DevFrom(devPart) == Some((v.dev.value, "")) by {
      if v.dev.Some? {
        DevRoundTrip(v.dev.value);
      }
    }
    assert v.pre.None? ==> PreFrom(tail) == None && devPart == tail by {
      if v.pre.None? {
        assert tail == devPart;
      }
    }
    assert v.dev.None? ==> DevFrom(devPart) == None && devPart == "";
    ParseStages(s, v, tail, devPart);
    ParseCoreDigit(s);
  }

  lemma ParseCoreSkipsV(u: string)
    requires |u| > 0 && IsDigit(u[0])
    ensures ParseCore(['v'] + u) == ParseCore(u)
  {
    assert (['v'] + u)[1..] == u;
  }

  /** Stripping and lower-casing `[c] + s` keeps a leading `v` in front of
      what `s` becomes, which starts with the digit `s` starts with. */
  lemma NormaliseLeadingV(c: char, s: string)
    requires c == 'v' || c == 'V'
    requires |s| > 0 && IsDigit(s[0])
    ensures PyStr.Lower(PyStr.Strip([c] + s)) == ['v'] + PyStr.Lower(PyStr.Strip(s))
    ensures var u := PyStr.Lower(PyStr.Strip(s)); |u| > 0 && IsDigit(u[0])
  {
    var t := PyStr.Strip(s);
    PyStr.StripCons(c, s);
    PyStr.StripKeepsFirst(s);
    PyStr.LowerCons(c, t);
  }

  /** A leading `v` (either case) before the release is ignored. */
  lemma LeadingVIgnored(c: char, s: string)
    requires c == 'v' || c == 'V'
    requires |s| > 0 && IsDigit(s[0])
    ensures Parse([c] + s) == Parse(s)
  {
    NormaliseLeadingV(c, s);
    ParseCoreSkipsV(PyStr.Lower(PyStr.Strip(s)));
  }

  /** Text already in lower case and without whitespace is parsed as it is. */
  lemma ParseNormal(s: string)
    requires PyStr.NoSpace(s) && PyStr.NoUpper(s)
    ensures Parse(s) == ParseCore(s)
  {
    PyStr.StripNoSpace(s);
    PyStr.LowerNoUpper(s);
  }

  /** Digits, dots and lower-case letters are parsed as they are. */
  lemma ParsePlain(s: string)
    requires forall i :: 0 <= i < |s| ==> IsDigit(s[i]) || s[i] == '.' || 'a' <= s[i] <= 'z'
    ensures Parse(s) == ParseCore(s)
  {
    ParseNormal(s);
  }

  lemma FormatExample()
    ensures Format(Version([1, 2, 3], None, None)) == "1.2.3"
  {
    assert NatToString(1) == "1" && NatToString(2) == "2" && NatToString(3) == "3";
    assert [1, 2, 3][1..] == [2, 3] && [2, 3][1..] == [3];
    assert ReleaseToString([3]) == "3";
    assert ReleaseToString([2, 3]) == "2.3";
  }

  lemma PrefixedLiteral()
    ensures "v1.2.3" == ['v'] + "1.2.3"
  {
  }

  lemma ParseCoreExample()
    ensures ParseCore("1.2.3") == Some(Version([1, 2, 3], None, None))
  {
    FormatExample();
    ParseFormat(Version([1, 2, 3], None, None));
  }

  /** `1.2.3` parses to the release 1.2.3, whose major, minor and micro
      parts are 1, 2 and 3. */
  lemma ParseExample()
    ensures Parse("1.2.3") == Some(Version([1, 2, 3], None, None))
    ensures var v := Version([1, 2, 3], None, None);
      Major(v) == 1 && Minor(v) == 2 && Micro(v) == 3
  {
    ParseCoreExample();
    ParsePlain("1.2.3");
  }

  /** A three-part release of single digits parses to its numbers. */
  lemma ParseDigits3(a: nat, b: nat, c: nat)
    requires a < 10 && b < 10 && c < 10
    ensures Parse([DigitChar(a), '.', DigitChar(b), '.', DigitChar(c)]) == Some(Version([a, b, c], None, None))
  {
    var v := Version([a, b, c], None, None);
    var s := [DigitChar(a), '.', DigitChar(b), '.', DigitChar(c)];
    assert Format(v) == s by {
      assert [a, b, c][1..] == [b, c] && [b, c][1..] == [c];
      assert ReleaseToString([c]) == [DigitChar(c)];
      assert ReleaseToString([b, c]) == [DigitChar(b)] + "." + [DigitChar(c)];
    }
    ParseFormat(v);
    ParsePlain(s);
  }

  /** `v1.2.3` parses like `1.2.3`. */
  lemma PrefixedExample()
    ensures Parse("v1.2.3") == Parse("1.2.3")
  {
    PrefixedLiteral();
    LeadingVIgnored('v', "1.2.3");
  }

  /* ---------------------------------------------------------------- */
  /* Ordering (packaging's comparison key, without epoch, post, local) */
  /* ---------------------------------------------------------------- */

  datatype Ordering = Smaller | Same | Larger

  function Flip(o: Ordering): Ordering
  {
    match o
    case Smaller => Larger
    case Same => Same
    case Larger => Smaller
  }

  function Then(first: Ordering, second: Ordering): Ordering
  {
    if first == Same then second else first
  }

  function CompareNat(a: nat, b: nat): Ordering
  {
    if a < b then Smaller else if a == b then Same else Larger
  }

  /** Tuple comparison of release segments: lexicographic, a proper prefix
      being smaller. */
  function CompareSegments(a: seq<nat>, b: seq<nat>): Ordering
  {
    if |a| == 0 && |b| == 0 then Same
    else if |a| == 0 then Smaller
    else if |b| == 0 then Larger
    else Then(CompareNat(a[0], b[0]), CompareSegments(a[1..], b[1..]))
  }

  /** The release without its trailing zeros. */
  function TrimZeros(r: seq<nat>): (t: seq<nat>)
    ensures |t| <= |r| && t == r[..|t|]
    ensures t == [] || t[|t| - 1] != 0
    ensures forall i :: |t| <= i < |r| ==> r[i] == 0
  {
    if |r| > 0 && r[|r| - 1] == 0 then TrimZeros(r[..|r| - 1]) else r
  }

  /** Where the pre-release puts a version among those of its release:
      below everything when it has only a development part, above every
      pre-release when it has neither. */
  datatype PreKey = BelowAll | PreKey(pre: Pre) | AboveAll

  datatype DevKey = DevKey(dev: nat) | NoDev

  function PreKeyOf(v: Version): PreKey
  {
    if v.pre.None? && v.dev.Some? then BelowAll
    else if v.pre.None? then AboveAll
    else PreKey(v.pre.value)
  }

  function DevKeyOf(v: Version): DevKey
  {
    if v.dev.None? then NoDev else DevKey(v.dev.value)
  }

  function LabelRank(l: PreLabel): nat
  {
    match l case Alpha => 0 case Beta => 1 case Rc => 2
  }

  function ComparePreKey(a: PreKey, b: PreKey): Ordering
  {
    match (a, b)
    case (BelowAll, BelowAll) => Same
    case (BelowAll, _) => Smaller
    case (_, BelowAll) => Larger
    case (AboveAll, AboveAll) => Same
    case (AboveAll, _) => Larger
    case (_, AboveAll) => Smaller
    case (PreKey(p), PreKey(q)) =>
      Then(CompareNat(LabelRank(p.kind), LabelRank(q.kind)), CompareNat(p.number, q.number))
  }

  function CompareDevKey(a: DevKey, b: DevKey): Ordering
  {
    match (a, b)
    case (NoDev, NoDev) => Same
    case (NoDev, _) => Larger
    case (_, NoDev) => Smaller
    case (DevKey(x), DevKey(y)) => CompareNat(x, y)
  }

  /** The comparison key: two versions are equal exactly when their keys are. */
  function Key(v: Version): (seq<nat>, PreKey, DevKey)
  {
    (TrimZeros(v.release), PreKeyOf(v), DevKeyOf(v))
  }

  /** Three-way comparison of two versions. */
  function Compare(a: Version, b: Version): Ordering
  {
    Then(CompareSegments(TrimZeros(a.release), TrimZeros(b.release)),
      Then(ComparePreKey(PreKeyOf(a), PreKeyOf(b)), CompareDevKey(DevKeyOf(a), DevKeyOf(b))))
  }

  predicate Less(a: Version, b: Version) { Compare(a, b) == Smaller }

  predicate LessEq(a: Version, b: Version) { Compare(a, b) != Larger }

  predicate Equiv(a: Version, b: Version) { Compare(a, b) == Same }

  /** `is_prerelease` is false: no pre-release and no development part. */
  predicate IsStable(v: Version)
  {
    v.pre.None? && v.dev.None?
  }

  function Major(v: Version): nat { if |v.release| >= 1 then v.release[0] else 0 }

  function Minor(v: Version): nat { if |v.release| >= 2 then v.release[1] else 0 }

  function Micro(v: Version): nat { if |v.release| >= 3 then v.release[2] else 0 }

  /* Lemmas about the ordering */

  lemma {:induction false} CompareSegmentsFlip(a: seq<nat>, b: seq<nat>)
    ensures CompareSegments(b, a) == Flip(CompareSegments(a, b))
    decreases |a|
  {
    if |a| > 0 && |b| > 0 {
      CompareSegmentsFlip(a[1..], b[1..]);
    }
  }

  lemma {:induction false} CompareSegmentsSame(a: seq<nat>, b: seq<nat>)
    ensures CompareSegments(a, b) == Same <==> a == b
    decreases |a|
  {
    if |a| > 0 && |b| > 0 {
      CompareSegmentsSame(a[1..], b[1..]);
      if a[0] == b[0] && a[1..] == b[1..] {
        assert a == [a[0]] + a[1..] && b == [b[0]] + b[1..];
      }
    }
  }

  lemma {:induction false} CompareSegmentsTrans(a: seq<nat>, b: seq<nat>, c: seq<nat>)
    requires CompareSegments(a, b) != Larger && CompareSegments(b, c) != Larger
    ensures CompareSegments(a, c) != Larger
    ensures CompareSegments(a, b) == Smaller || CompareSegments(b, c) == Smaller ==> CompareSegments(a, c) == Smaller
    decreases |a|
  {
    if |a| > 0 && |b| > 0 && |c| > 0 {
      if a[0] == b[0] && b[0] == c[0] {
        CompareSegmentsTrans(a[1..], b[1..], c[1..]);
      }
    }
  }

  /** Comparing the other way round flips the answer. */
  lemma CompareFlip(a: Version, b: Version)
    ensures Compare(b, a) == Flip(Compare(a, b))
  {
    CompareSegmentsFlip(TrimZeros(a.release), TrimZeros(b.release));
  }

  /** Two versions compare equal exactly when their comparison keys agree;
      in particular equal versions compare equal (reflexivity). */
  lemma CompareSame(a: Version, b: Version)
    ensures Compare(a, b) == Same <==> Key(a) == Key(b)
  {
    CompareSegmentsSame(TrimZeros(a.release), TrimZeros(b.release));
  }

  /** `<=` is transitive, and strictly so when either step is strict. */
  lemma CompareTrans(a: Version, b: Version, c: Version)
    requires LessEq(a, b) && LessEq(b, c)
    ensures LessEq(a, c)
    ensures Less(a, b) || Less(b, c) ==> Less(a, c)
  {
    var ra, rb, rc := TrimZeros(a.release), TrimZeros(b.release), TrimZeros(c.release);
    CompareSegmentsTrans(ra, rb, rc);
    CompareSegmentsSame(ra, rb);
    CompareSegmentsSame(rb, rc);
    CompareSegmentsSame(ra, rc);
  }

  /** Trailing zeros in the release are insignificant: `1.0 == 1.0.0`. */
  lemma TrailingZeroInsignificant(r: seq<nat>, pre: Option<Pre>, dev: Option<nat>)
    ensures Equiv(Version(r + [0], pre, dev), Version(r, pre, dev))
  {
    assert (r + [0])[..|r|] == r;
    CompareSame(Version(r + [0], pre, dev), Version(r, pre, dev));
  }

  /** Within one release: `X.devN < XaN < XbN < XrcN < X`, whatever the
      numbers and development parts of the pre-releases. */
  lemma SuffixOrdering(r: seq<nat>, n: nat, a: nat, b: nat, c: nat, da: Option<nat>, db: Option<nat>, dc: Option<nat>)
    ensures Less(Version(r, None, Some(n)), Version(r, Some(Pre(Alpha, a)), da))
    ensures Less(Version(r, Some(Pre(Alpha, a)), da), Version(r, Some(Pre(Beta, b)), db))
    ensures Less(Version(r, Some(Pre(Beta, b)), db), Version(r, Some(Pre(Rc, c)), dc))
    ensures Less(Version(r, Some(Pre(Rc, c)), dc), Version(r, None, None))
  {
    CompareSegmentsSame(TrimZeros(r), TrimZeros(r));
  }

  /** A version is stable exactly when it is not below the final release of
      its own release segments. */
  lemma StableIffFinal(v: Version)
    ensures IsStable(v) <==> Equiv(v, Version(v.release, None, None))
    ensures !IsStable(v) ==> Less(v, Version(v.release, None, None))
  {
    CompareSegmentsSame(TrimZeros(v.release), TrimZeros(v.release));
  }
}
