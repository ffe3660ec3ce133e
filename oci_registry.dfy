/** A Helm chart registry that speaks the OCI distribution protocol: the
    URL names a host and a repository path under which each chart is a
    repository whose tags are its versions. */
module OciRegistries {
  import opened Outcomes
  import opened Keywords
  import PyStr
  import Urls
  import ChartVersions
  import Pep440

  /** Listing the tags of a repository on a host, with the client options
      and the timeout; the OCI client is outside the model. */
  type ListTags = (string, Kwargs, string, Arg) -> Result<seq<string>>

  /** The registry's fields, set once by the constructor. */
  datatype OciRegistry = OciRegistry(
    name: string, registryHost: string, repositoryPath: string, baseUrl: Urls.ParseResult,
    timeout: Arg, options: Kwargs)

  /** `OCIRegistry(registry_url, name, timeout, **options)` once the keyword
      arguments are bound. */
  function New(registryUrl: string, name: string, timeout: Arg, options: Kwargs): Result<OciRegistry>
  {
    var parsed :- Urls.UrlParse(registryUrl);
    var path := PyStr.LStripChar(parsed.path, '/');
    Ok(OciRegistry(name, parsed.netloc, path, parsed.(path := path), timeout, options))
  }

  /** `registry_type` */
  function RegistryType(r: OciRegistry): string { "oci" }

  /** `registry_url`: the URL with its path replaced by the stripped one. */
  function RegistryUrl(r: OciRegistry): string
  {
    Urls.GetUrl(r.baseUrl)
  }

  /** The repository whose tags are the chart's versions. */
  function Repository(r: OciRegistry, chart: string): string
  {
    r.repositoryPath + "/" + chart
  }

  /** The values of `cs` when every one is a success, else the first error. */
  function AllOk<T>(cs: seq<Result<T>>): Result<seq<T>>
  {
    if |cs| == 0 then Ok([])
    else
      var first :- cs[0];
      var rest :- AllOk(cs[1..]);
      Ok([first] + rest)
  }

  /** `[ChartVersion(version=tag, ...) for tag in tags]`: fails at the first
      tag that is not a version. */
  function TagVersions(tags: seq<string>, repo: string, chart: string): Result<seq<ChartVersions.ChartVersion>>
  {
    AllOk(ChartVersions.Candidates(tags, repo, chart))
  }

  /** `get_versions(chart)` */
  function GetVersions(r: OciRegistry, chart: string, listTags: ListTags): Result<seq<ChartVersions.ChartVersion>>
  {
    var tags :- listTags(r.registryHost, r.options, Repository(r, chart), r.timeout);
    TagVersions(tags, r.name, chart)
  }

  /* ---------------------------------------------------------------- */
  /* Properties                                                        */
  /* ---------------------------------------------------------------- */

  /** The host is the URL's network location and the repository path is the
      URL's path without its leading slashes. The registry is made for
      `oci://` URLs; the scheme is left general here, since the constructor
      does not look at it. */
  lemma NewWellFormed(scheme: string, host: string, path: string, name: string, timeout: Arg, options: Kwargs)
    requires Urls.WellFormed(scheme, host, path) && scheme !in Urls.UsesParams
    ensures var stripped := PyStr.LStripChar(path, '/');
      New(scheme + "://" + host + path, name, timeout, options)
      == Ok(OciRegistry(name, host, stripped, Urls.ParseResult(scheme, host, stripped, "", "", ""), timeout, options))
  {
    Urls.UrlParseWellFormed(scheme, host, path);
  }

  /** `registry_url` of a well-formed URL with a host: `scheme://host`
      followed by the path with its leading slashes collapsed to one (none
      when the path is only slashes). */
  lemma RegistryUrlWellFormed(scheme: string, host: string, path: string, name: string, timeout: Arg,
                              options: Kwargs)
    requires Urls.WellFormed(scheme, host, path) && scheme !in Urls.UsesParams && host != ""
    ensures New(scheme + "://" + host + path, name, timeout, options).Ok?
    ensures var stripped := PyStr.LStripChar(path, '/');
      RegistryUrl(New(scheme + "://" + host + path, name, timeout, options).value)
      == scheme + "://" + host + (if stripped == "" then "" else "/" + stripped)
  {
    var stripped := PyStr.LStripChar(path, '/');
    var r := OciRegistry(name, host, stripped, Urls.ParseResult(scheme, host, stripped, "", "", ""), timeout, options);
    assert RegistryUrl(r) == scheme + "://" + host + (if stripped == "" then "" else "/" + stripped) by {
      UnsplitStripped(scheme, host, stripped);
    }
    NewWellFormed(scheme, host, path, name, timeout, options);
  }

  lemma UnsplitStripped(scheme: string, host: string, stripped: string)
    requires scheme != "" && host != "" && (stripped == [] || stripped[0] != '/')
    ensures Urls.GetUrl(Urls.ParseResult(scheme, host, stripped, "", "", ""))
      == scheme + "://" + host + (if stripped == "" then "" else "/" + stripped)
  {
    var rest := if stripped == "" then "" else "/" + stripped;
    assert scheme + ":" + ("//" + host + rest) == scheme + "://" + host + rest;
  }

  lemma {:induction false} AllOkSpec<T>(cs: seq<Result<T>>)
    ensures AllOk(cs).Ok? <==> forall i :: 0 <= i < |cs| ==> cs[i].Ok?
    ensures AllOk(cs).Ok? ==>
      |AllOk(cs).value| == |cs| && forall i :: 0 <= i < |cs| ==> AllOk(cs).value[i] == cs[i].value
    ensures AllOk(cs).Err? ==>
      exists i :: 0 <= i < |cs| && cs[i].Err? && (forall j :: 0 <= j < i ==> cs[j].Ok?)
        && AllOk(cs).error == cs[i].error
    decreases |cs|
  {
    if |cs| > 0 {
      AllOkSpec(cs[1..]);
      var rest := AllOk(cs[1..]);
      if cs[0].Ok? && rest.Ok? {
        assert forall i :: 1 <= i < |cs| ==> ([cs[0].value] + rest.value)[i] == rest.value[i - 1];
      } else if cs[0].Ok? {
        var i :| 0 <= i < |cs[1..]| && cs[1..][i].Err? && (forall j :: 0 <= j < i ==> cs[1..][j].Ok?)
          && rest.error == cs[1..][i].error;
        assert cs[i + 1].Err?;
      }
    }
  }

  /** Every tag becomes, in order, a version of this registry's chart; no
      tag is filtered out (pre-releases included), and one tag that is not a
      version fails the whole call with that tag's error. */
  lemma TagVersionsSpec(tags: seq<string>, repo: string, chart: string)
    ensures TagVersions(tags, repo, chart).Ok? <==> forall i :: 0 <= i < |tags| ==> Pep440.Parse(tags[i]).Some?
    ensures TagVersions(tags, repo, chart).Ok? ==>
      var vs := TagVersions(tags, repo, chart).value;
      |vs| == |tags|
      && forall i :: 0 <= i < |tags| ==> Ok(vs[i]) == ChartVersions.New(tags[i], repo, chart)
    ensures TagVersions(tags, repo, chart).Err? ==>
      exists i :: 0 <= i < |tags| && Pep440.Parse(tags[i]).None?
        && (forall j :: 0 <= j < i ==> Pep440.Parse(tags[j]).Some?)
        && TagVersions(tags, repo, chart).error == InvalidVersion(tags[i], repo, chart)
  {
    var cs := ChartVersions.Candidates(tags, repo, chart);
    AllOkSpec(cs);
    assert forall i :: 0 <= i < |tags| ==> cs[i] == ChartVersions.New(tags[i], repo, chart);
  }

  /** The versions are requested for `<repository path>/<chart>` on the
      registry's host, with its options and timeout, and depend on nothing
      else. */
  lemma GetVersionsAsks(r: OciRegistry, chart: string, a: ListTags, b: ListTags)
    requires a(r.registryHost, r.options, r.repositoryPath + "/" + chart, r.timeout)
          == b(r.registryHost, r.options, r.repositoryPath + "/" + chart, r.timeout)
    ensures GetVersions(r, chart, a) == GetVersions(r, chart, b)
  {
  }

  /** Unlike `parse_versions`, which drops an entry that is not a version,
      the OCI registry fails on it. */
  lemma OneBadTagFails(good: string, bad: string, repo: string, chart: string)
    requires Pep440.Parse(good).Some? && Pep440.Parse(bad).None?
    ensures TagVersions([good, bad], repo, chart) == Err(InvalidVersion(bad, repo, chart))
    ensures ChartVersions.ParseVersionsResult([good, bad], repo, chart).Ok?
  {
    var tags := [good, bad];
    TagVersionsSpec(tags, repo, chart);
    assert tags[0] == good && tags[1] == bad;
    var v := ChartVersions.New(good, repo, chart).value;
    assert |ChartVersions.Parsed(tags, repo, chart)| > 0 by {
      ChartVersions.ParsedExactly(tags, repo, chart, v);
      assert ChartVersions.New(tags[0], repo, chart) == Ok(v);
    }
  }
}
