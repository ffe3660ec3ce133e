/** Version strings of one chart, as offered by a registry: the raw string is
    kept for printing and writing, the parsed PEP 440 value is used for every
    comparison, and two versions are only comparable when they belong to the
    same repository and chart. */
module ChartVersions {
  import opened Outcomes
  import Pep440
  import PyStr

  /** A chart version: the raw string, its scope, and the parsed value the
      validator computes once (`version_info`). */
  datatype ChartVersion = ChartVersion(version: string, repo: string, chart: string, versionInfo: Pep440.Version)

  /** The parsed value is the parse of the raw string. */
  predicate Valid(v: ChartVersion)
  {
    Pep440.Parse(v.version) == Some(v.versionInfo)
  }

  /** Constructing a chart version runs the validator. */
  function New(version: string, repo: string, chart: string): (r: Result<ChartVersion>)
    ensures r.Ok? <==> Pep440.Parse(version).Some?
    ensures r.Ok? ==> Valid(r.value) && r.value.version == version && r.value.repo == repo && r.value.chart == chart
    ensures r.Err? ==> r.error == InvalidVersion(version, repo, chart)
  {
    match Pep440.Parse(version)
    case Some(info) => Ok(ChartVersion(version, repo, chart, info))
    case None => Err(InvalidVersion(version, repo, chart))
  }

  /** `str(v)`: the raw string, exactly as given. */
  function Str(v: ChartVersion): string
  {
    v.version
  }

  /** `is_stable`: neither a pre-release nor a development release. */
  predicate IsStable(v: ChartVersion)
  {
    Pep440.IsStable(v.versionInfo)
  }

  predicate SameChart(a: ChartVersion, b: ChartVersion)
  {
    a.repo == b.repo && a.chart == b.chart
  }

  /** The right-hand operand of a comparison: another chart version, or an
      object of some other type (named by its type name). */
  datatype Operand = Chart(v: ChartVersion) | Foreign(typeName: string)

  /** `_ensure_comparable`: the other operand, when it is a chart version of
      the same repository and chart. */
  function EnsureComparable(self: ChartVersion, other: Operand): (r: Result<ChartVersion>)
    ensures r.Ok? <==> other.Chart? && SameChart(self, other.v)
    ensures r.Ok? ==> r.value == other.v
    ensures other.Foreign? ==> r == Err(NotAChartVersion(other.typeName))
    ensures other.Chart? && !SameChart(self, other.v) ==>
      r == Err(DifferentCharts(self.repo, self.chart, other.v.repo, other.v.chart))
  {
    match other
    case Foreign(name) => Err(NotAChartVersion(name))
    case Chart(o) =>
      if self.repo != o.repo || self.chart != o.chart then
        Err(DifferentCharts(self.repo, self.chart, o.repo, o.chart))
      else Ok(o)
  }

  /** `==`: equal comparison keys. */
  function Eq(self: ChartVersion, other: Operand): Result<bool>
  {
    var o :- EnsureComparable(self, other);
    Ok(Pep440.Key(self.versionInfo) == Pep440.Key(o.versionInfo))
  }

  /** `<` */
  function Lt(self: ChartVersion, other: Operand): Result<bool>
  {
    var o :- EnsureComparable(self, other);
    Ok(Pep440.Compare(self.versionInfo, o.versionInfo) == Pep440.Smaller)
  }

  /** `<=` */
  function Le(self: ChartVersion, other: Operand): Result<bool>
  {
    var o :- EnsureComparable(self, other);
    Ok(Pep440.Compare(self.versionInfo, o.versionInfo) != Pep440.Larger)
  }

  /** `>` */
  function Gt(self: ChartVersion, other: Operand): Result<bool>
  {
    var o :- EnsureComparable(self, other);
    Ok(Pep440.Compare(self.versionInfo, o.versionInfo) == Pep440.Larger)
  }

  /** `>=` */
  function Ge(self: ChartVersion, other: Operand): Result<bool>
  {
    var o :- EnsureComparable(self, other);
    Ok(Pep440.Compare(self.versionInfo, o.versionInfo) != Pep440.Smaller)
  }

  /* ---------------------------------------------------------------- */
  /* Properties of the comparisons                                     */
  /* ---------------------------------------------------------------- */

  /** Every comparison between versions of different charts fails, even
      when the version strings are identical. */
  lemma DifferentChartsFail(a: ChartVersion, b: ChartVersion)
    requires !SameChart(a, b)
    ensures var e := Err(DifferentCharts(a.repo, a.chart, b.repo, b.chart));
      Eq(a, Chart(b)) == e && Lt(a, Chart(b)) == e && Le(a, Chart(b)) == e
      && Gt(a, Chart(b)) == e && Ge(a, Chart(b)) == e
  {
  }

  /** Every comparison with an object that is not a chart version fails
      with a type error. */
  lemma ForeignOperandFails(a: ChartVersion, typeName: string)
    ensures var e := Err(NotAChartVersion(typeName));
      Eq(a, Foreign(typeName)) == e && Lt(a, Foreign(typeName)) == e && Le(a, Foreign(typeName)) == e
      && Gt(a, Foreign(typeName)) == e && Ge(a, Foreign(typeName)) == e
  {
  }

  /** Within one chart the five operators agree with each other: exactly
      one of `<`, `==`, `>` holds, `<=` is `<` or `==`, `>=` is `>` or `==`,
      and `a > b` is `b < a`. */
  lemma {:induction false} OperatorsConsistent(a: ChartVersion, b: ChartVersion)
    requires SameChart(a, b)
    ensures Eq(a, Chart(b)).Ok? && Lt(a, Chart(b)).Ok? && Le(a, Chart(b)).Ok?
    ensures Gt(a, Chart(b)).Ok? && Ge(a, Chart(b)).Ok?
    ensures var lt, eq, gt := Lt(a, Chart(b)).value, Eq(a, Chart(b)).value, Gt(a, Chart(b)).value;
      (if lt then 1 else 0) + (if eq then 1 else 0) + (if gt then 1 else 0) == 1
    ensures Le(a, Chart(b)).value == (Lt(a, Chart(b)).value || Eq(a, Chart(b)).value)
    ensures Ge(a, Chart(b)).value == (Gt(a, Chart(b)).value || Eq(a, Chart(b)).value)
    ensures Gt(a, Chart(b)) == Lt(b, Chart(a))
    ensures Eq(a, Chart(b)) == Eq(b, Chart(a))
  {
    Pep440.CompareSame(a.versionInfo, b.versionInfo);
    Pep440.CompareSame(b.versionInfo, a.versionInfo);
    Pep440.CompareFlip(a.versionInfo, b.versionInfo);
  }

  /** Within one chart `<=` is a total preorder. */
  lemma {:induction false} TotalPreorder(a: ChartVersion, b: ChartVersion, c: ChartVersion)
    requires SameChart(a, b) && SameChart(b, c)
    ensures Le(a, Chart(a)) == Ok(true)
    ensures Le(a, Chart(b)) == Ok(true) || Le(b, Chart(a)) == Ok(true)
    ensures Le(a, Chart(b)) == Ok(true) && Le(b, Chart(c)) == Ok(true) ==> Le(a, Chart(c)) == Ok(true)
  {
    var va, vb, vc := a.versionInfo, b.versionInfo, c.versionInfo;
    Pep440.CompareSame(va, va);
    Pep440.CompareFlip(va, vb);
    if Pep440.LessEq(va, vb) && Pep440.LessEq(vb, vc) {
      Pep440.CompareTrans(va, vb, vc);
    }
  }

  /** Equality is on the parsed value and the raw string is kept: `v1.2.3`
      equals `1.2.3`, prints as `v1.2.3`, and both have major, minor and
      micro parts 1, 2 and 3. */
  lemma RawStringKept(repo: string, chart: string)
    ensures New("1.2.3", repo, chart).Ok? && New("v1.2.3", repo, chart).Ok?
    ensures var plain, prefixed := New("1.2.3", repo, chart).value, New("v1.2.3", repo, chart).value;
      Str(plain) == "1.2.3" && Str(prefixed) == "v1.2.3"
      && Eq(prefixed, Chart(plain)) == Ok(true)
      && Pep440.Major(prefixed.versionInfo) == 1 && Pep440.Minor(prefixed.versionInfo) == 2
      && Pep440.Micro(prefixed.versionInfo) == 3
  {
    Pep440.ParseExample();
    Pep440.PrefixedExample();
  }

  /** A leading `v` never changes the value: `vX == X` whenever `X` is a
      version that starts with a digit, while the raw strings differ. */
  lemma LeadingVEqual(c: char, s: string, repo: string, chart: string)
    requires c == 'v' || c == 'V'
    requires |s| > 0 && Pep440.IsDigit(s[0]) && Pep440.Parse(s).Some?
    ensures New([c] + s, repo, chart).Ok? && New(s, repo, chart).Ok?
    ensures var plain, prefixed := New(s, repo, chart).value, New([c] + s, repo, chart).value;
      Eq(prefixed, Chart(plain)) == Ok(true) && Str(prefixed) != Str(plain)
  {
    Pep440.LeadingVIgnored(c, s);
    assert |[c] + s| != |s|;
  }

  /* ---------------------------------------------------------------- */
  /* max(): Python's left fold that replaces the best item only when a   */
  /* later item compares greater                                       */
  /* ---------------------------------------------------------------- */

  predicate AllSameChart(vs: seq<ChartVersion>)
  {
    forall i :: 0 <= i < |vs| ==> SameChart(vs[i], vs[0])
  }

  /** `vs[k]` is the first element of maximal value in `vs`. */
  predicate FirstMaximumAt(vs: seq<ChartVersion>, k: nat)
  {
    k < |vs|
    && (forall j :: 0 <= j < |vs| ==> Pep440.LessEq(vs[j].versionInfo, vs[k].versionInfo))
    && (forall j :: 0 <= j < k ==> Pep440.Less(vs[j].versionInfo, vs[k].versionInfo))
  }

  /** The fold from position `i` on, with `best` the position of the current
      maximum; it fails at the first item of another chart. */
  function MaxFrom(vs: seq<ChartVersion>, best: nat, i: nat): Result<nat>
    requires best < i <= |vs|
    decreases |vs| - i
  {
    if i == |vs| then Ok(best)
    else
      var greater :- Gt(vs[i], Chart(vs[best]));
      MaxFrom(vs, if greater then i else best, i + 1)
  }

  /** `max(vs)` */
  function Max(vs: seq<ChartVersion>): Result<ChartVersion>
  {
    if |vs| == 0 then Err(EmptyMax)
    else
      var k :- MaxFrom(vs, 0, 1);
      if k < |vs| then Ok(vs[k]) else Err(EmptyMax)
  }

  lemma {:induction false} MaxFromFirstMaximum(vs: seq<ChartVersion>, best: nat, i: nat)
    requires best < i <= |vs|
    requires FirstMaximumAt(vs[..i], best)
    requires forall j :: 0 <= j < i ==> SameChart(vs[j], vs[best])
    ensures MaxFrom(vs, best, i).Ok? <==> forall j :: i <= j < |vs| ==> SameChart(vs[j], vs[best])
    ensures MaxFrom(vs, best, i).Ok? ==> FirstMaximumAt(vs, MaxFrom(vs, best, i).value)
    ensures MaxFrom(vs, best, i).Err? ==>
      MaxFrom(vs, best, i).error.DifferentCharts?
      && MaxFrom(vs, best, i).error.otherRepo == vs[best].repo
      && MaxFrom(vs, best, i).error.otherChart == vs[best].chart
    decreases |vs| - i
  {
    if i == |vs| {
      assert vs[..i] == vs;
    } else if SameChart(vs[i], vs[best]) {
      var vb, vi := vs[best].versionInfo, vs[i].versionInfo;
      var next := if Pep440.Compare(vi, vb) == Pep440.Larger then i else best;
      MaxStep(vs, best, i);
      MaxFromFirstMaximum(vs, next, i + 1);
    }
  }

  /** One step of the fold keeps "first maximum so far". */
  lemma MaxStep(vs: seq<ChartVersion>, best: nat, i: nat)
    requires best < i < |vs|
    requires FirstMaximumAt(vs[..i], best)
    ensures var next := if Pep440.Compare(vs[i].versionInfo, vs[best].versionInfo) == Pep440.Larger then i else best;
      FirstMaximumAt(vs[..i + 1], next)
  {
    var vb, vi := vs[best].versionInfo, vs[i].versionInfo;
    var pre, post := vs[..i], vs[..i + 1];
    assert forall j :: 0 <= j < i ==> post[j] == pre[j] == vs[j];
    assert post[i] == vs[i];
    if Pep440.Compare(vi, vb) == Pep440.Larger {
      Pep440.CompareFlip(vi, vb);
      Pep440.CompareSame(vi, vi);
      forall j | 0 <= j < i
        ensures Pep440.Less(post[j].versionInfo, vi)
      {
        Pep440.CompareTrans(vs[j].versionInfo, vb, vi);
      }
    }
  }

  /** `max` returns the first element of maximal value when all elements
      belong to one chart, fails on the empty sequence, and otherwise fails
      with the error of the first comparison across charts. */
  lemma MaxIsFirstMaximum(vs: seq<ChartVersion>)
    ensures |vs| == 0 ==> Max(vs) == Err(EmptyMax)
    ensures |vs| > 0 ==> (Max(vs).Ok? <==> AllSameChart(vs))
    ensures Max(vs).Ok? ==> exists k: nat :: FirstMaximumAt(vs, k) && Max(vs).value == vs[k]
    ensures |vs| > 0 && Max(vs).Err? ==>
      Max(vs).error.DifferentCharts? && Max(vs).error.otherRepo == vs[0].repo
      && Max(vs).error.otherChart == vs[0].chart
  {
    if |vs| > 0 {
      assert FirstMaximumAt(vs[..1], 0) by {
        Pep440.CompareSame(vs[0].versionInfo, vs[0].versionInfo);
      }
      MaxFromFirstMaximum(vs, 0, 1);
      var r := MaxFrom(vs, 0, 1);
      if r.Ok? {
        assert FirstMaximumAt(vs, r.value);
      }
    }
  }

  /** Among `1.0.0`, `1.2.0`, `v3.0.0` and `v2.3.0` of one chart the
      greatest is the one written `v3.0.0`. */
  lemma MaxExample(s1: string, s2: string, s3: string, s4: string, repo: string, chart: string)
    returns (vs: seq<ChartVersion>)
    requires s1 == "1.0.0" && s2 == "1.2.0" && s3 == "v3.0.0" && s4 == "v2.3.0"
    ensures New(s1, repo, chart).Ok? && New(s2, repo, chart).Ok?
    ensures New(s3, repo, chart).Ok? && New(s4, repo, chart).Ok?
    ensures vs == [New(s1, repo, chart).value, New(s2, repo, chart).value,
                   New(s3, repo, chart).value, New(s4, repo, chart).value]
    ensures Max(vs).Ok? && Str(Max(vs).value) == s3
  {
    var a, b, c, d := ExampleVersions(s1, s2, s3, s4, repo, chart);
    vs := [a, b, c, d];
    MaxOfFour(a, b, c, d);
  }

  /** The four chart versions of the example. */
  lemma ExampleVersions(s1: string, s2: string, s3: string, s4: string, repo: string, chart: string)
    returns (a: ChartVersion, b: ChartVersion, c: ChartVersion, d: ChartVersion)
    requires s1 == "1.0.0" && s2 == "1.2.0" && s3 == "v3.0.0" && s4 == "v2.3.0"
    ensures New(s1, repo, chart) == Ok(a) && a.versionInfo == Pep440.Version([1, 0, 0], None, None)
    ensures New(s2, repo, chart) == Ok(b) && b.versionInfo == Pep440.Version([1, 2, 0], None, None)
    ensures New(s3, repo, chart) == Ok(c) && c.versionInfo == Pep440.Version([3, 0, 0], None, None)
    ensures New(s4, repo, chart) == Ok(d) && d.versionInfo == Pep440.Version([2, 3, 0], None, None)
  {
    ExampleSpellings();
    a := ExampleVersion(s1, 1, 0, 0, repo, chart);
    b := ExampleVersion(s2, 1, 2, 0, repo, chart);
    c := ExampleVersion(s3, 3, 0, 0, repo, chart);
    d := ExampleVersion(s4, 2, 3, 0, repo, chart);
  }

  /** `1.2.0 > 1.0.0` for two versions of one chart. */
  lemma ComparisonExample(s1: string, s2: string, repo: string, chart: string)
    requires s1 == "1.0.0" && s2 == "1.2.0"
    ensures New(s1, repo, chart).Ok? && New(s2, repo, chart).Ok?
    ensures Gt(New(s2, repo, chart).value, Chart(New(s1, repo, chart).value)) == Ok(true)
  {
    ExampleSpellings();
    var a := ExampleVersion(s1, 1, 0, 0, repo, chart);
    var b := ExampleVersion(s2, 1, 2, 0, repo, chart);
    GtOneTwo(a, b);
  }

  lemma GtOneTwo(a: ChartVersion, b: ChartVersion)
    requires SameChart(b, a)
    requires a.versionInfo == Pep440.Version([1, 0, 0], None, None)
    requires b.versionInfo == Pep440.Version([1, 2, 0], None, None)
    ensures Gt(b, Chart(a)) == Ok(true)
  {
    assert [1, 0, 0][..2] == [1, 0] && [1, 0][..1] == [1] && [1, 2, 0][..2] == [1, 2];
    assert Pep440.TrimZeros([1, 0, 0]) == [1] && Pep440.TrimZeros([1, 2, 0]) == [1, 2];
  }

  /** The spellings of the example versions, digit by digit. */
  lemma ExampleSpellings()
    ensures "1.0.0" == [Pep440.DigitChar(1), '.', Pep440.DigitChar(0), '.', Pep440.DigitChar(0)]
    ensures "1.2.0" == [Pep440.DigitChar(1), '.', Pep440.DigitChar(2), '.', Pep440.DigitChar(0)]
    ensures "v3.0.0" == ['v'] + [Pep440.DigitChar(3), '.', Pep440.DigitChar(0), '.', Pep440.DigitChar(0)]
    ensures "v2.3.0" == ['v'] + [Pep440.DigitChar(2), '.', Pep440.DigitChar(3), '.', Pep440.DigitChar(0)]
  {
  }

  /** The chart version of `x.y.z` or `vx.y.z` for single digits. */
  lemma ExampleVersion(s: string, x: nat, y: nat, z: nat, repo: string, chart: string) returns (v: ChartVersion)
    requires x < 10 && y < 10 && z < 10
    requires var digits := [Pep440.DigitChar(x), '.', Pep440.DigitChar(y), '.', Pep440.DigitChar(z)];
      s == digits || s == ['v'] + digits
    ensures New(s, repo, chart) == Ok(v) && v.versionInfo == Pep440.Version([x, y, z], None, None)
    ensures v.version == s && v.repo == repo && v.chart == chart
  {
    var digits := [Pep440.DigitChar(x), '.', Pep440.DigitChar(y), '.', Pep440.DigitChar(z)];
    Pep440.ParseDigits3(x, y, z);
    if s != digits {
      Pep440.LeadingVIgnored('v', digits);
    }
    v := ChartVersion(s, repo, chart, Pep440.Version([x, y, z], None, None));
  }

  /** `max` over versions 1.0.0, 1.2.0, 3.0.0 and 2.3.0 of one chart. */
  lemma MaxOfFour(a: ChartVersion, b: ChartVersion, c: ChartVersion, d: ChartVersion)
    requires SameChart(b, a) && SameChart(c, b) && SameChart(d, c)
    requires a.versionInfo == Pep440.Version([1, 0, 0], None, None)
    requires b.versionInfo == Pep440.Version([1, 2, 0], None, None)
    requires c.versionInfo == Pep440.Version([3, 0, 0], None, None)
    requires d.versionInfo == Pep440.Version([2, 3, 0], None, None)
    ensures Max([a, b, c, d]) == Ok(c)
  {
    var vs := [a, b, c, d];
    GtOneTwo(a, b);
    assert [3, 0, 0][..2] == [3, 0] && [3, 0][..1] == [3] && [2, 3, 0][..2] == [2, 3];
    assert Pep440.TrimZeros([3, 0, 0]) == [3] && Pep440.TrimZeros([2, 3, 0]) == [2, 3];
    assert Gt(c, Chart(b)) == Ok(true);
    assert Gt(d, Chart(c)) == Ok(false);
    assert MaxFrom(vs, 2, 4) == Ok(2);
    assert MaxFrom(vs, 2, 3) == Ok(2);
    assert MaxFrom(vs, 1, 2) == Ok(2);
    assert MaxFrom(vs, 0, 1) == Ok(2);
  }

  /* ---------------------------------------------------------------- */
  /* parse_versions                                                     */
  /* ---------------------------------------------------------------- */

  /** `f` applied to every element of `xs`, in order. */
  function MapSeq<T, U>(f: T -> U, xs: seq<T>): (ys: seq<U>)
    ensures |ys| == |xs|
    ensures forall i :: 0 <= i < |xs| ==> ys[i] == f(xs[i])
  {
    seq(|xs|, i requires 0 <= i < |xs| => f(xs[i]))
  }

  lemma MapSeqAppend<T, U>(f: T -> U, a: seq<T>, b: seq<T>)
    ensures MapSeq(f, a + b) == MapSeq(f, a) + MapSeq(f, b)
  {
  }

  /** The validator for the entries of `repo`/`chart`. */
  function Validator(repo: string, chart: string): string -> Result<ChartVersion>
  {
    version => New(version, repo, chart)
  }

  /** What the validator makes of each entry, in order. */
  function Candidates(raw: seq<string>, repo: string, chart: string): (cs: seq<Result<ChartVersion>>)
  {
    MapSeq(Validator(repo, chart), raw)
  }

  /** The successful results among `cs`, in order. */
  function Successes(cs: seq<Result<ChartVersion>>): (vs: seq<ChartVersion>)
    ensures |vs| <= |cs|
    decreases |cs|
  {
    if |cs| == 0 then []
    else Successes(cs[..|cs| - 1]) + (if cs[|cs| - 1].Ok? then [cs[|cs| - 1].value] else [])
  }

  /** The versions among `raw` that parse, in their order, as chart
      versions of `repo`/`chart`. */
  function Parsed(raw: seq<string>, repo: string, chart: string): seq<ChartVersion>
  {
    Successes(Candidates(raw, repo, chart))
  }

  /** The result `parse_versions` promises. */
  function ParseVersionsResult(raw: seq<string>, repo: string, chart: string): Result<seq<ChartVersion>>
  {
    if |raw| == 0 then Ok([])
    else if |Parsed(raw, repo, chart)| == 0 then Err(AllEntriesInvalid(repo, chart))
    else Ok(Parsed(raw, repo, chart))
  }

  /** `parse_versions`: builds the list entry by entry, skipping the entries
      the validator rejects, and fails when it ends up empty. */
  method ParseVersions(raw: seq<string>, repo: string, chart: string) returns (r: Result<seq<ChartVersion>>)
    ensures r == ParseVersionsResult(raw, repo, chart)
  {
    if |raw| == 0 {
      return Ok([]);
    }
    var result: seq<ChartVersion> := [];
    for i := 0 to |raw|
      invariant result == Parsed(raw[..i], repo, chart)
    {
      ParsedStep(raw, i, repo, chart);
      var candidate := Validator(repo, chart)(raw[i]);
      if candidate.Ok? {
        result := result + [candidate.value];
      }
    }
    assert raw[..|raw|] == raw;
    if |result| == 0 {
      return Err(AllEntriesInvalid(repo, chart));
    }
    return Ok(result);
  }

  lemma CandidatesStep(raw: seq<string>, i: nat, repo: string, chart: string)
    requires i < |raw|
    ensures Candidates(raw[..i + 1], repo, chart) == Candidates(raw[..i], repo, chart) + [Validator(repo, chart)(raw[i])]
  {
    assert raw[..i + 1] == raw[..i] + [raw[i]];
    MapSeqAppend(Validator(repo, chart), raw[..i], [raw[i]]);
  }

  /** One more entry adds its version when it parses. */
  lemma ParsedStep(raw: seq<string>, i: nat, repo: string, chart: string)
    requires i < |raw|
    ensures var c := Validator(repo, chart)(raw[i]);
      Parsed(raw[..i + 1], repo, chart) == Parsed(raw[..i], repo, chart) + (if c.Ok? then [c.value] else [])
  {
    CandidatesStep(raw, i, repo, chart);
    var cs := Candidates(raw[..i], repo, chart);
    var c := Validator(repo, chart)(raw[i]);
    assert (cs + [c])[..|cs + [c]| - 1] == cs;
  }

  lemma {:induction false} SuccessesAppend(a: seq<Result<ChartVersion>>, b: seq<Result<ChartVersion>>)
    ensures Successes(a + b) == Successes(a) + Successes(b)
    decreases |b|
  {
    if |b| > 0 {
      var b' := b[..|b| - 1];
      assert (a + b)[..|a + b| - 1] == a + b';
      SuccessesAppend(a, b');
    } else {
      assert a + b == a;
    }
  }

  /** Parsing a concatenation parses each part: the order of the entries is
      kept. */
  lemma ParsedAppend(a: seq<string>, b: seq<string>, repo: string, chart: string)
    ensures Parsed(a + b, repo, chart) == Parsed(a, repo, chart) + Parsed(b, repo, chart)
  {
    MapSeqAppend(Validator(repo, chart), a, b);
    SuccessesAppend(Candidates(a, repo, chart), Candidates(b, repo, chart));
  }

  lemma {:induction false} SuccessesExactly(cs: seq<Result<ChartVersion>>, v: ChartVersion)
    ensures v in Successes(cs) <==> Ok(v) in cs
    decreases |cs|
  {
    if |cs| > 0 {
      SuccessesExactly(cs[..|cs| - 1], v);
      assert cs == cs[..|cs| - 1] + [cs[|cs| - 1]];
    }
  }

  /** Exactly the entries that parse are kept, each as the chart version
      the validator builds from it. */
  lemma ParsedExactly(raw: seq<string>, repo: string, chart: string, v: ChartVersion)
    ensures v in Parsed(raw, repo, chart) <==> exists i :: 0 <= i < |raw| && New(raw[i], repo, chart) == Ok(v)
  {
    var cs := Candidates(raw, repo, chart);
    SuccessesExactly(cs, v);
    if Ok(v) in cs {
      var i :| 0 <= i < |cs| && cs[i] == Ok(v);
      assert New(raw[i], repo, chart) == Ok(v);
    }
  }

  /** A kept entry is a valid version of `repo`/`chart` whose raw string is
      one of the entries. */
  lemma ParsedScoped(raw: seq<string>, repo: string, chart: string, v: ChartVersion)
    requires v in Parsed(raw, repo, chart)
    ensures v.repo == repo && v.chart == chart && Valid(v) && v.version in raw
  {
    ParsedExactly(raw, repo, chart, v);
    var i :| 0 <= i < |raw| && New(raw[i], repo, chart) == Ok(v);
  }

  lemma {:induction false} SuccessesEmptyIff(cs: seq<Result<ChartVersion>>)
    ensures |Successes(cs)| == 0 <==> forall i :: 0 <= i < |cs| ==> cs[i].Err?
    decreases |cs|
  {
    if |cs| > 0 {
      SuccessesEmptyIff(cs[..|cs| - 1]);
    }
  }

  /** `parse_versions([])` is `[]`; otherwise it fails exactly when no entry
      parses, and on success every entry is a version of `repo`/`chart`. */
  lemma ParseVersionsOutcome(raw: seq<string>, repo: string, chart: string)
    ensures |raw| == 0 ==> ParseVersionsResult(raw, repo, chart) == Ok([])
    ensures |raw| > 0 ==>
      (ParseVersionsResult(raw, repo, chart).Err? <==> forall i :: 0 <= i < |raw| ==> Pep440.Parse(raw[i]).None?)
    ensures ParseVersionsResult(raw, repo, chart).Err? ==>
      ParseVersionsResult(raw, repo, chart).error == AllEntriesInvalid(repo, chart)
    ensures ParseVersionsResult(raw, repo, chart).Ok? ==>
      forall v :: v in ParseVersionsResult(raw, repo, chart).value ==> v.repo == repo && v.chart == chart && Valid(v)
  {
    var cs := Candidates(raw, repo, chart);
    SuccessesEmptyIff(cs);
    assert forall i :: 0 <= i < |raw| ==> (cs[i].Err? <==> Pep440.Parse(raw[i]).None?);
    forall v | v in Parsed(raw, repo, chart)
      ensures v.repo == repo && v.chart == chart && Valid(v)
    {
      ParsedScoped(raw, repo, chart, v);
    }
  }
}
