/** The registry factory: the scheme of the repository URL picks the
    registry variant. */
module Registries {
  import opened Outcomes
  import opened Keywords
  import Urls
  import PyStr
  import HttpRegistries
  import OciRegistries
  import ChartVersions

  /** The two kinds of registry behind the common registry interface. */
  datatype Registry = Http(http: HttpRegistries.HttpRegistry) | Oci(oci: OciRegistries.OciRegistry)

  /** What the registries reach over the network. */
  datatype Network = Network(fetchIndex: HttpRegistries.Fetch, listTags: OciRegistries.ListTags)

  /** Positional parameters of `HTTPRegistry.__init__` and of
      `OCIRegistry.__init__` besides `timeout`. */
  const HttpPositional: set<string> := {"self", "base_url", "name"}
  const OciPositional: set<string> := {"self", "registry_url", "name"}

  /** The parameters of `create` itself besides `**kwargs`. */
  const CreateParams: set<string> := {"url", "name"}

  /** Keyword arguments that `create`'s own signature accepts into
      `**kwargs`. */
  predicate OwnParamFree(kwargs: Kwargs)
  {
    forall i :: 0 <= i < |kwargs| ==> kwargs[i].0 !in CreateParams
  }

  /** `create(url, name, **kwargs)`: the call binds its own parameters
      first, then parses the URL and dispatches on its scheme. */
  function Create(url: string, name: string, kwargs: Kwargs): Result<Registry>
  {
    var passed :- Collect(kwargs, CreateParams);
    var parsed :- Urls.UrlParse(url);
    CreateFor(parsed.scheme, url, name, passed)
  }

  /** The dispatch on the scheme `urlparse` found. */
  function CreateFor(scheme: string, url: string, name: string, kwargs: Kwargs): Result<Registry>
  {
    if scheme == "oci" then
      var bound :- Bind(kwargs, OciPositional, true, DefaultTimeout);
      var r :- OciRegistries.New(url, name, bound.0, bound.1);
      Ok(Oci(r))
    else if scheme == "http" || scheme == "https" then
      var bound :- Bind(kwargs, HttpPositional, false, DefaultTimeout);
      Ok(Http(HttpRegistries.New(url, name, bound.0)))
    else Err(UnsupportedScheme(scheme))
  }

  function GetVersions(r: Registry, chart: string, net: Network): Result<seq<ChartVersions.ChartVersion>>
  {
    match r
    case Http(h) => HttpRegistries.GetVersions(h, chart, net.fetchIndex)
    case Oci(o) => OciRegistries.GetVersions(o, chart, net.listTags)
  }

  function RegistryType(r: Registry): string
  {
    match r
    case Http(h) => HttpRegistries.RegistryType(h)
    case Oci(o) => OciRegistries.RegistryType(o)
  }

  function RegistryUrl(r: Registry): string
  {
    match r
    case Http(h) => HttpRegistries.RegistryUrl(h)
    case Oci(o) => OciRegistries.RegistryUrl(o)
  }

  function Name(r: Registry): string
  {
    match r
    case Http(h) => h.name
    case Oci(o) => o.name
  }

  /* ---------------------------------------------------------------- */
  /* Properties                                                        */
  /* ---------------------------------------------------------------- */

  /** The variant is chosen by the scheme alone: `oci` gives an OCI
      registry, `http` and `https` an HTTP registry, and every other scheme
      (the empty one included) is rejected naming it; a supported scheme
      fails only on the keyword arguments or the URL itself. The registry
      carries the given name, and its type names its variant. */
  lemma CreateForSpec(scheme: string, url: string, name: string, kwargs: Kwargs)
    ensures scheme != "oci" && scheme != "http" && scheme != "https" ==>
      CreateFor(scheme, url, name, kwargs) == Err(UnsupportedScheme(scheme))
    ensures CreateFor(scheme, url, name, kwargs).Err? && (scheme == "oci" || scheme == "http" || scheme == "https") ==>
      CreateFor(scheme, url, name, kwargs).error.DuplicateArgument?
      || CreateFor(scheme, url, name, kwargs).error.UnexpectedKeyword?
      || CreateFor(scheme, url, name, kwargs).error.InvalidUrl?
    ensures CreateFor(scheme, url, name, kwargs).Ok? ==>
      var r := CreateFor(scheme, url, name, kwargs).value;
      (r.Oci? <==> scheme == "oci") && (r.Http? <==> scheme == "http" || scheme == "https")
      && Name(r) == name && RegistryType(r) == (if r.Oci? then "oci" else "http")
  {
    if scheme == "oci" {
      BindSpec(kwargs, OciPositional, true, DefaultTimeout);
      UrlParseErrors(url);
    } else if scheme == "http" || scheme == "https" {
      BindSpec(kwargs, HttpPositional, false, DefaultTimeout);
    }
  }

  /** `urlparse` only ever fails on the network location's brackets. */
  lemma UrlParseErrors(url: string)
    ensures Urls.UrlParse(url).Err? ==> Urls.UrlParse(url).error == InvalidUrl(url)
  {
  }

  /** A keyword `url` or `name` is a type error of the call itself, raised
      for the first such keyword before the URL is looked at. Otherwise
      `create` parses the URL and dispatches on its scheme, passing the
      keywords on unchanged; a URL that does not parse is rejected before
      any registry is built. */
  lemma CreateSpec(url: string, name: string, kwargs: Kwargs)
    ensures !OwnParamFree(kwargs) ==>
      exists i :: 0 <= i < |kwargs| && kwargs[i].0 in CreateParams
        && (forall j :: 0 <= j < i ==> kwargs[j].0 !in CreateParams)
        && Create(url, name, kwargs) == Err(DuplicateArgument(kwargs[i].0))
    ensures OwnParamFree(kwargs) && Urls.UrlParse(url).Err? ==> Create(url, name, kwargs) == Err(InvalidUrl(url))
    ensures OwnParamFree(kwargs) && Urls.UrlParse(url).Ok? ==>
      Create(url, name, kwargs) == CreateFor(Urls.UrlParse(url).value.scheme, url, name, kwargs)
  {
    var passed := Collect(kwargs, CreateParams);
    if passed.Err? {
      assert Create(url, name, kwargs) == Err(passed.error);
    } else {
      UrlParseErrors(url);
    }
  }

  /** `url=` or `name=` among the keywords fails for every URL, whether or
      not it parses and whatever its scheme. */
  lemma CreateRejectsOwnParams(url: string, name: string, value: Arg, kwargs: Kwargs)
    requires OwnParamFree(kwargs)
    ensures Create(url, name, kwargs + [("url", value)]) == Err(DuplicateArgument("url"))
    ensures Create(url, name, kwargs + [("name", value)] + [("url", value)]) == Err(DuplicateArgument("name"))
  {
    var k1 := kwargs + [("url", value)];
    assert k1[|kwargs|].0 == "url";
    CreateSpec(url, name, k1);
    var k2 := kwargs + [("name", value)] + [("url", value)];
    assert k2[|kwargs|].0 == "name";
    CreateSpec(url, name, k2);
    var i :| 0 <= i < |k2| && k2[i].0 in CreateParams
      && (forall j :: 0 <= j < i ==> k2[j].0 !in CreateParams)
      && Create(url, name, k2) == Err(DuplicateArgument(k2[i].0));
    assert i == |kwargs|;
  }

  /** Two URLs with the same scheme get the same variant. */
  lemma CreateDependsOnScheme(url1: string, url2: string, name: string, kwargs: Kwargs)
    requires Urls.UrlParse(url1).Ok? && Urls.UrlParse(url2).Ok?
    requires Urls.UrlParse(url1).value.scheme == Urls.UrlParse(url2).value.scheme
    requires Create(url1, name, kwargs).Ok? && Create(url2, name, kwargs).Ok?
    ensures Create(url1, name, kwargs).value.Oci? == Create(url2, name, kwargs).value.Oci?
  {
    var scheme := Urls.UrlParse(url1).value.scheme;
    CreateSpec(url1, name, kwargs);
    CreateSpec(url2, name, kwargs);
    CreateForSpec(scheme, url1, name, kwargs);
    CreateForSpec(scheme, url2, name, kwargs);
  }

  /** Without keyword arguments an HTTP(S) URL always gives an HTTP
      registry, with the default timeout. */
  lemma CreateHttp(scheme: string, url: string, name: string)
    requires scheme == "http" || scheme == "https"
    ensures CreateFor(scheme, url, name, []) == Ok(Http(HttpRegistries.New(url, name, DefaultTimeout)))
  {
  }

  /** A keyword that repeats a positional parameter, or an unknown keyword
      for an HTTP registry, is a type error. */
  lemma CreateRejectsKeywords(scheme: string, url: string, name: string, value: Arg)
    ensures scheme == "http" || scheme == "https" ==>
      CreateFor(scheme, url, name, [("verify", value)]) == Err(UnexpectedKeyword("verify"))
      && CreateFor(scheme, url, name, [("name", value)]) == Err(DuplicateArgument("name"))
    ensures scheme == "oci" ==>
      CreateFor(scheme, url, name, [("name", value)]) == Err(DuplicateArgument("name"))
  {
  }

  /** A well-formed URL with another scheme, such as `ftp://host/path`, is
      rejected naming that scheme. */
  lemma OtherSchemeRejected(scheme: string, host: string, path: string, name: string, kwargs: Kwargs)
    requires Urls.WellFormed(scheme, host, path) && ';' !in path
    requires scheme != "oci" && scheme != "http" && scheme != "https"
    requires OwnParamFree(kwargs)
    ensures Create(scheme + "://" + host + path, name, kwargs) == Err(UnsupportedScheme(scheme))
  {
    Urls.UrlParseWellFormed(scheme, host, path);
    CreateSpec(scheme + "://" + host + path, name, kwargs);
    CreateForSpec(scheme, scheme + "://" + host + path, name, kwargs);
  }

  /** A URL without `:` (such as `charts.example.com`) has no scheme and is
      rejected. */
  lemma NoSchemeRejected(url: string, name: string, kwargs: Kwargs)
    requires Urls.Unmarked(url) && OwnParamFree(kwargs)
    ensures Create(url, name, kwargs) == Err(UnsupportedScheme(""))
  {
    Urls.SplitWithoutColon(url);
    Urls.ParseKeepsScheme(url);
    CreateSpec(url, name, kwargs);
    CreateForSpec("", url, name, kwargs);
  }

  /** A registry made by `create` carries the name it was given. */
  lemma CreateNamed(url: string, name: string, kwargs: Kwargs)
    requires Create(url, name, kwargs).Ok?
    ensures Name(Create(url, name, kwargs).value) == name
  {
    CreateSpec(url, name, kwargs);
    CreateForSpec(Urls.UrlParse(url).value.scheme, url, name, kwargs);
  }

  /** Every version a registry lists belongs to the registry's name and the
      requested chart. */
  lemma GetVersionsScoped(r: Registry, chart: string, net: Network)
    requires GetVersions(r, chart, net).Ok?
    ensures forall v :: v in GetVersions(r, chart, net).value ==>
      v.repo == Name(r) && v.chart == chart && ChartVersions.Valid(v)
  {
    match r
    case Http(h) =>
      HttpRegistries.GetVersionsSpec(h, chart, net.fetchIndex);
    case Oci(o) =>
      var tags := net.listTags(o.registryHost, o.options, OciRegistries.Repository(o, chart), o.timeout).value;
      OciRegistries.TagVersionsSpec(tags, o.name, chart);
      var vs := GetVersions(r, chart, net).value;
      forall v | v in vs
        ensures v.repo == o.name && v.chart == chart && ChartVersions.Valid(v)
      {
        var i :| 0 <= i < |vs| && vs[i] == v;
        assert Ok(vs[i]) == ChartVersions.New(tags[i], o.name, chart);
      }
  }
}
