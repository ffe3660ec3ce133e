/** A Helm repository served over HTTP(S) in the ChartMuseum layout: one
    `index.yaml` whose `entries` map each chart to its release entries. */
module HttpRegistries {
  import opened Outcomes
  import opened Keywords
  import PyStr
  import ChartVersions

  /** One release entry of the index: its string-valued keys. */
  type Entry = map<string, string>

  /** The decoded `index.yaml`: its `entries` mapping when the key is
      present; a chart whose value is YAML null maps to `None`. */
  datatype Index = Index(entries: Option<map<string, Option<seq<Entry>>>>)

  /** Fetching a URL with a timeout; the network and YAML decoding are
      outside the model. */
  type Fetch = (string, Arg) -> Result<Index>

  /** The registry's fields, set once by the constructor. */
  datatype HttpRegistry = HttpRegistry(baseUrl: string, name: string, timeout: Arg)

  /** `HTTPRegistry(base_url, name, timeout)` */
  function New(baseUrl: string, name: string, timeout: Arg): HttpRegistry
  {
    HttpRegistry(PyStr.RStripChar(baseUrl, '/') + "/", name, timeout)
  }

  /** `registry_type` */
  function RegistryType(r: HttpRegistry): string { "http" }

  /** `registry_url`: the normalised base URL. */
  function RegistryUrl(r: HttpRegistry): string { r.baseUrl }

  /** The URL the index is fetched from. */
  function IndexUrl(r: HttpRegistry): string
  {
    r.baseUrl + "index.yaml"
  }

  /** `[entry["version"] for entry in entries]`: fails at the first entry
      without a version. */
  function RawVersions(entries: seq<Entry>): Result<seq<string>>
  {
    if |entries| == 0 then Ok([])
    else if "version" !in entries[0] then Err(MissingKey("version"))
    else
      var rest :- RawVersions(entries[1..]);
      Ok([entries[0]["version"]] + rest)
  }

  /** `_fetch_raw_versions(chart)` */
  function FetchRawVersions(r: HttpRegistry, chart: string, fetch: Fetch): Result<seq<string>>
  {
    var index :- fetch(IndexUrl(r), r.timeout);
    var entries := if index.entries.Some? then index.entries.value else map[];
    if chart !in entries || entries[chart].None? then Err(ChartNotFound(chart))
    else RawVersions(entries[chart].value)
  }

  /** `[v for v in versions if v.is_stable]` */
  function StableOnly(vs: seq<ChartVersions.ChartVersion>): (stable: seq<ChartVersions.ChartVersion>)
    ensures |stable| <= |vs|
    decreases |vs|
  {
    if |vs| == 0 then []
    else StableOnly(vs[..|vs| - 1]) + (if ChartVersions.IsStable(vs[|vs| - 1]) then [vs[|vs| - 1]] else [])
  }

  /** `get_versions(chart)` */
  function GetVersions(r: HttpRegistry, chart: string, fetch: Fetch): Result<seq<ChartVersions.ChartVersion>>
  {
    var raw :- FetchRawVersions(r, chart, fetch);
    var versions :- ChartVersions.ParseVersionsResult(raw, r.name, chart);
    Ok(StableOnly(versions))
  }

  /* ---------------------------------------------------------------- */
  /* Properties                                                        */
  /* ---------------------------------------------------------------- */

  /** The base URL is the given URL with every trailing `/` removed and
      exactly one put back. */
  lemma NewNormalises(baseUrl: string, name: string, timeout: Arg)
    ensures var b := New(baseUrl, name, timeout).baseUrl;
      |b| > 0 && b[|b| - 1] == '/' && (|b| == 1 || b[|b| - 2] != '/')
      && b[..|b| - 1] == baseUrl[..|b| - 1]
      && (forall i :: |b| - 1 <= i < |baseUrl| ==> baseUrl[i] == '/')
    ensures RegistryUrl(New(baseUrl, name, timeout)) == New(baseUrl, name, timeout).baseUrl
  {
    var stem := PyStr.RStripChar(baseUrl, '/');
    var b := stem + "/";
    assert b[..|b| - 1] == stem;
    if |b| > 1 {
      assert b[|b| - 2] == stem[|stem| - 1];
    }
  }

  /** Normalising a normalised URL changes nothing. */
  lemma NewIdempotent(baseUrl: string, name: string, timeout: Arg)
    ensures New(New(baseUrl, name, timeout).baseUrl, name, timeout) == New(baseUrl, name, timeout)
  {
    var stem := PyStr.RStripChar(baseUrl, '/');
    var b := stem + "/";
    assert b[..|b| - 1] == stem;
    assert PyStr.RStripChar(stem, '/') == stem;
  }

  /** A trailing `/` makes no difference. */
  lemma NewTrailingSlash(baseUrl: string, name: string, timeout: Arg)
    ensures New(baseUrl + "/", name, timeout) == New(baseUrl, name, timeout)
  {
    var s := baseUrl + "/";
    assert s[..|s| - 1] == baseUrl;
  }

  /** The raw versions are the entries' `version` values in index order;
      an entry without one fails the whole lookup. */
  lemma {:induction false} RawVersionsSpec(entries: seq<Entry>)
    ensures RawVersions(entries).Ok? <==> forall i :: 0 <= i < |entries| ==> "version" in entries[i]
    ensures RawVersions(entries).Ok? ==>
      |RawVersions(entries).value| == |entries|
      && forall i :: 0 <= i < |entries| ==> RawVersions(entries).value[i] == entries[i]["version"]
    ensures RawVersions(entries).Err? ==> RawVersions(entries).error == MissingKey("version")
    decreases |entries|
  {
    if |entries| > 0 {
      RawVersionsSpec(entries[1..]);
      if "version" in entries[0] && RawVersions(entries[1..]).Ok? {
        var rest := RawVersions(entries[1..]).value;
        assert forall i :: 1 <= i < |entries| ==> ([entries[0]["version"]] + rest)[i] == rest[i - 1];
      }
    }
  }

  /** The index is fetched from `<base>index.yaml` with the registry's
      timeout; a chart that is absent (or has no entries list) is reported
      as not found, also when the index has no `entries` at all. */
  lemma FetchRawVersionsSpec(r: HttpRegistry, chart: string, fetch: Fetch)
    ensures fetch(IndexUrl(r), r.timeout).Err? ==>
      FetchRawVersions(r, chart, fetch) == Err(fetch(IndexUrl(r), r.timeout).error)
    ensures fetch(IndexUrl(r), r.timeout).Ok? ==>
      var index := fetch(IndexUrl(r), r.timeout).value;
      (index.entries.None? ==> FetchRawVersions(r, chart, fetch) == Err(ChartNotFound(chart)))
      && (index.entries.Some? && (chart !in index.entries.value || index.entries.value[chart].None?) ==>
           FetchRawVersions(r, chart, fetch) == Err(ChartNotFound(chart)))
      && (index.entries.Some? && chart in index.entries.value && index.entries.value[chart].Some? ==>
           FetchRawVersions(r, chart, fetch) == RawVersions(index.entries.value[chart].value))
    ensures IndexUrl(r) == r.baseUrl + "index.yaml"
  {
  }

  lemma {:induction false} StableOnlyExactly(vs: seq<ChartVersions.ChartVersion>, v: ChartVersions.ChartVersion)
    ensures v in StableOnly(vs) <==> v in vs && ChartVersions.IsStable(v)
    decreases |vs|
  {
    if |vs| > 0 {
      StableOnlyExactly(vs[..|vs| - 1], v);
      assert vs == vs[..|vs| - 1] + [vs[|vs| - 1]];
    }
  }

  /** The filter keeps the order: filtering a concatenation filters each
      part. */
  lemma {:induction false} StableOnlyAppend(a: seq<ChartVersions.ChartVersion>, b: seq<ChartVersions.ChartVersion>)
    ensures StableOnly(a + b) == StableOnly(a) + StableOnly(b)
    decreases |b|
  {
    if |b| > 0 {
      var b' := b[..|b| - 1];
      assert (a + b)[..|a + b| - 1] == a + b';
      StableOnlyAppend(a, b');
    } else {
      assert a + b == a;
    }
  }

  /** `get_versions` returns exactly the stable versions among the entries
      that parse, in index order, each scoped to this registry and chart;
      when no entry parses the error of `parse_versions` comes through, and
      when all parse but none is stable the result is empty. */
  lemma GetVersionsSpec(r: HttpRegistry, chart: string, fetch: Fetch)
    requires FetchRawVersions(r, chart, fetch).Ok?
    ensures var raw := FetchRawVersions(r, chart, fetch).value;
      GetVersions(r, chart, fetch)
      == (if |raw| > 0 && |ChartVersions.Parsed(raw, r.name, chart)| == 0 then Err(AllEntriesInvalid(r.name, chart))
          else Ok(StableOnly(ChartVersions.Parsed(raw, r.name, chart))))
    ensures GetVersions(r, chart, fetch).Ok? ==>
      var raw := FetchRawVersions(r, chart, fetch).value;
      forall v :: v in GetVersions(r, chart, fetch).value <==>
        v in ChartVersions.Parsed(raw, r.name, chart) && ChartVersions.IsStable(v)
    ensures GetVersions(r, chart, fetch).Ok? ==>
      forall v :: v in GetVersions(r, chart, fetch).value ==>
        v.repo == r.name && v.chart == chart && ChartVersions.Valid(v) && ChartVersions.IsStable(v)
  {
    var raw := FetchRawVersions(r, chart, fetch).value;
    var parsed := ChartVersions.Parsed(raw, r.name, chart);
    if |raw| == 0 {
      assert parsed == [];
    }
    forall v
      ensures v in StableOnly(parsed) <==> v in parsed && ChartVersions.IsStable(v)
    {
      StableOnlyExactly(parsed, v);
    }
    forall v | v in parsed
      ensures v.repo == r.name && v.chart == chart && ChartVersions.Valid(v)
    {
      ChartVersions.ParsedScoped(raw, r.name, chart, v);
    }
  }
}
