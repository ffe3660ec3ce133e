# helmupdater core, modelled in Dafny

helmupdater keeps the Helm charts of a Nix flake up to date. Each chart is
pinned in `charts/<repo>/<chart>/default.nix`, a four-line Nix record:

- `repo`: the repository URL;
- `chart`: the chart name;
- `version`: the version;
- `chartHash`: the hash of the fetched chart.

To update a chart, the tool reads the record through Nix and builds a
registry for the repository URL. The registry is an HTTP(S) `index.yaml`
repository or an OCI registry, chosen by the URL's scheme. The tool then
asks the registry for the chart's versions, picks the greatest, and
compares it with the current one. When they differ it writes the new
version with a placeholder hash, builds the chart with Nix, and reads the
correct hash from the build's complaint. It then writes the record a
second time.

This project models that pipeline and proves what each step promises:

- **Chart versions.** A version is parsed as PEP 440 (the subset with an
  optional leading `v`, a numeric release, a pre-release and a development
  release) and scoped to one repository and chart. Comparisons across
  charts or with foreign objects fail. Within a chart the five operators
  are consistent and form a total preorder. `max` returns the first
  greatest element. `parse_versions` keeps exactly the entries that parse,
  in order, and fails when none does.
- **The metadata record.** It is built from a mapping, ignoring extra
  keys and failing with one error that names every missing field. An
  update is a copy in which only the named fields change.
- **`repo/chart` names.** They split at their single `/`.
- **The registry factory and the two registries.** The factory rejects a
  keyword that repeats its own `url` or `name`, then dispatches on the
  scheme `urlparse` finds. The HTTP registry normalises its base
  URL, looks the chart up in the index and keeps only stable versions. The
  OCI registry splits the URL into host and repository path and maps every
  tag, unfiltered, to a version.
- **Nix.** The current system is normalised and cached in a memo cell. The
  build target is a string. Hash discovery returns the derivation's hash
  when the build succeeds, and otherwise scans the build's standard error
  for `got: sha256-…`.
- **Orchestration.** `rehash`, `update` and `create` are imperative
  methods over a chart-file store, a class holding directories and file
  contents. Each method's effect is pinned to a function of the old state
  and the outside world, and the lemmas are about those functions.

The outside world is a set of parameters:

- the output of `nix eval`;
- `nix build` and `nix derivation show`, as functions from the chart files
  and a target to what they report;
- the HTTP index fetch and the OCI tag listing, as functions from a
  request to a result.

Exceptions become `Result` values, with one error constructor per raise
site.

Writing a record renders the template with the template engine's HTML
escaping. Nix reads the quoted values back as they stand. So a value
holding `&`, `<`, `>` or `"` is read back escaped, and it is escaped once
more by every later rehash. `ChartFiles.DecodeRender` and
`Chart.RehashEscapesAgain` state this.

The test suite of the OCI registry expects stable-only filtering. The
code does no filtering, and the model follows the code:
`OciRegistries.OneBadTagFails` and `OciRegistries.TagVersionsSpec` state
what the code does.

Modules, one per file:

- `Outcomes`: `Option`, `Result` and the errors.
- `PyStr`: the Python string methods used.
- `Pep440`: the version scheme.
- `Urls`: `urllib.parse`.
- `Keywords`: keyword-argument binding.
- `ChartMetadatas`
- `ChartVersions`
- `Utils`
- `HttpRegistries`
- `OciRegistries`
- `Registries`
- `Nix`
- `ChartFiles`: paths, template and store.
- `Chart`: create, update and rehash.

## Model

| member | source | states |
|---|---|---|
| ChartVersions.New | src/helmupdater/chart/chart_version.py:24-40 | construction succeeds exactly when the string parses; the result keeps the raw string and scope and its `version_info` is the parse; otherwise the error names the string, repo and chart |
| ChartVersions.EnsureComparable | src/helmupdater/chart/chart_version.py:42-52 | returns the other operand exactly when it is a chart version of the same repo and chart; a foreign operand is a type error naming its type; another chart is a value error naming both scopes |
| ChartVersions.DifferentChartsFail | src/helmupdater/chart/chart_version.py:42-72 | all five comparisons between versions of different charts fail with the different-charts error, whatever the strings |
| ChartVersions.ForeignOperandFails | src/helmupdater/chart/chart_version.py:43-44 | all five comparisons with a non-version fail with the type error |
| ChartVersions.OperatorsConsistent | src/helmupdater/chart/chart_version.py:54-72 | within one chart exactly one of `<`, `==`, `>` holds, `<=` is `<` or `==`, `>=` is `>` or `==`, `a > b` equals `b < a`, and `==` is symmetric |
| ChartVersions.TotalPreorder | src/helmupdater/chart/chart_version.py:62-64 | within one chart `<=` is reflexive, total and transitive |
| ChartVersions.RawStringKept | src/helmupdater/chart/chart_version.py:74-76 | `1.2.3` and `v1.2.3` print as given, compare equal, and both have major, minor and micro 1, 2, 3 |
| ChartVersions.LeadingVEqual | src/helmupdater/chart/chart_version.py:54-56 | a version and the same version prefixed with `v`/`V` compare equal while their raw strings differ |
| ChartVersions.MaxIsFirstMaximum | src/helmupdater/chart/__init__.py:212 | `max` fails on an empty list, succeeds exactly when all versions belong to one chart, and then returns the first element of maximal value; otherwise it fails with the different-charts error against the first element |
| ChartVersions.MaxFromFirstMaximum | src/helmupdater/chart/__init__.py:212 | the fold of `max` from any position keeps the first maximum so far and fails exactly at an element of another chart |
| ChartVersions.MaxStep | src/helmupdater/chart/__init__.py:212 | one step of the fold, replacing the best only on a strictly greater item, keeps the first maximum |
| ChartVersions.MaxExample | src/helmupdater/chart/chart_version.py:15-40 | the four versions `1.0.0`, `1.2.0`, `v3.0.0`, `v2.3.0` of one chart all parse and their maximum is the one written `v3.0.0` |
| ChartVersions.ComparisonExample | src/helmupdater/chart/chart_version.py:66-68 | `1.2.0 > 1.0.0` for two versions of one chart |
| ChartVersions.ExampleVersions | src/helmupdater/chart/chart_version.py:24-40 | each of the four example strings constructs a version whose parsed release is its digits |
| ChartVersions.ExampleVersion | src/helmupdater/chart/chart_version.py:24-40 | `x.y.z` and `vx.y.z` of single digits construct a version with release `[x, y, z]`, the raw string kept |
| ChartVersions.MaxOfFour | src/helmupdater/chart/__init__.py:212 | for versions with releases 1.0.0, 1.2.0, 3.0.0, 2.3.0 of one chart, `max` returns the third |
| ChartVersions.GtOneTwo | src/helmupdater/chart/chart_version.py:66-68 | release 1.2.0 is greater than release 1.0.0 within one chart |
| ChartVersions.ParseVersions | src/helmupdater/chart/chart_version.py:79-102 | the loop returns `[]` for no entries, else the versions of the entries that parse, in order, or the all-entries-invalid error when that list is empty |
| ChartVersions.ParseVersionsOutcome | src/helmupdater/chart/chart_version.py:84-100 | `parse_versions([])` is `[]`; on a non-empty list it fails exactly when no entry parses, with the error naming the chart; every returned version is a valid version of that repo and chart |
| ChartVersions.ParsedExactly | src/helmupdater/chart/chart_version.py:88-95 | a version is kept exactly when some entry constructs it |
| ChartVersions.ParsedAppend | src/helmupdater/chart/chart_version.py:88-95 | the kept versions of a concatenation are those of each part, in order |
| ChartVersions.ParsedStep | src/helmupdater/chart/chart_version.py:88-95 | one more entry appends its version exactly when it parses |
| ChartVersions.ParsedScoped | src/helmupdater/chart/chart_version.py:88-95 | each kept version is valid, of the given repo and chart, and its raw string is one of the entries |
| ChartVersions.SuccessesExactly | src/helmupdater/chart/chart_version.py:89-95 | the successes of the validator are exactly its `Ok` results |
| ChartVersions.SuccessesEmptyIff | src/helmupdater/chart/chart_version.py:97-100 | no success exactly when every entry failed |
| Pep440.ParseFormat | src/helmupdater/chart/chart_version.py:37-40 | parsing the normalised spelling of any version with a release gives the version back |
| Pep440.LeadingVIgnored | src/helmupdater/chart/chart_version.py:37-40 | a leading `v` or `V` before a digit does not change the parse |
| Pep440.ParseExample | src/helmupdater/chart/chart_version.py:37-40 | `1.2.3` parses to release 1.2.3 with major 1, minor 2, micro 3 |
| Pep440.PrefixedExample | src/helmupdater/chart/chart_version.py:37-40 | `v1.2.3` parses like `1.2.3` |
| Pep440.ParseDigits3 | src/helmupdater/chart/chart_version.py:37-40 | a three-part release of single digits parses to those numbers |
| Pep440.CompareFlip | src/helmupdater/chart/chart_version.py:58-72 | comparing the other way round flips the ordering |
| Pep440.CompareSame | src/helmupdater/chart/chart_version.py:54-56 | two versions compare the same exactly when their comparison keys are equal |
| Pep440.CompareTrans | src/helmupdater/chart/chart_version.py:58-72 | `<=` is transitive, strictly when either step is strict |
| Pep440.TrailingZeroInsignificant | src/helmupdater/chart/chart_version.py:54-56 | appending a zero release segment gives an equal version |
| Pep440.SuffixOrdering | src/helmupdater/chart/chart_version.py:58-72 | within one release, `devN < aN < bN < rcN <` final, whatever the numbers |
| Pep440.StableIffFinal | src/helmupdater/registry/http.py:79 | a version is stable exactly when it equals the final release of its segments; otherwise it is below it |
| ChartMetadatas.ToMapping | src/helmupdater/chart/chart_metadata.py:4-14 | a record has exactly the four keys repo, chart, version, chartHash, each holding its field |
| ChartMetadatas.FromMappingSpec | src/helmupdater/chart/chart_metadata.py:4-16 | building from a mapping succeeds exactly when all four fields are present and takes them verbatim; otherwise its one error names exactly the missing fields |
| ChartMetadatas.ExtraKeysIgnored | src/helmupdater/chart/chart_metadata.py:16 | adding a key that is not a field does not change the result |
| ChartMetadatas.FromToMapping | src/helmupdater/chart/chart_metadata.py:4-16 | building from a record's own mapping gives the record back |
| ChartMetadatas.ModelCopyFields | src/helmupdater/chart/__init__.py:226-228 | after `model_copy(update=…)` a field has its update value when named, else its old value |
| ChartMetadatas.ModelCopyEmpty | src/helmupdater/chart/chart_metadata.py:16 | an empty update copies the record unchanged |
| ChartMetadatas.ModelCopyCompose | src/helmupdater/chart/__init__.py:226-228 | two successive copies equal one copy with the merged update, later values winning |
| ChartMetadatas.EqualityFieldwise | src/helmupdater/chart/chart_metadata.py:4-16 | records are equal exactly when all four fields are |
| Utils.ParseChartNameSpec | src/helmupdater/utils.py:39-57 | the name is accepted exactly when it holds one `/`; then `repo + "/" + chart` is the name and neither part holds `/`; otherwise the error names the input |
| Utils.ParseJoinedName | src/helmupdater/utils.py:52-57 | any two `/`-free parts joined by `/` parse back to those parts |
| Utils.EmptyComponentsAccepted | src/helmupdater/utils.py:53 | `a/` gives `("a", "")` and `/` gives `("", "")` |
| Keywords.BindSpec | src/helmupdater/registry/__init__.py:39-41 | binding `**kwargs` to a registry constructor fails exactly when some keyword repeats a positional parameter or is unknown to a constructor without `**options`, with the error for the first; otherwise the options are the non-timeout keywords in order and the timeout the last given |
| Keywords.BindNone | src/helmupdater/registry/http.py:17 | without keywords the timeout is the default 5 and there are no options |
| Registries.CreateSpec | src/helmupdater/registry/__init__.py:12-43 | a keyword `url` or `name` is the call's own "multiple values" error for the first such keyword, before the URL is parsed; otherwise `create` parses the URL and dispatches on its scheme with the keywords unchanged, and a URL `urlparse` rejects is rejected |
| Registries.CreateRejectsOwnParams | src/helmupdater/registry/__init__.py:12 | `url=` or `name=` among the keywords fails for every URL, parsable or not, whatever its scheme |
| Keywords.Collect | src/helmupdater/registry/__init__.py:12 | binding to a signature `(<positional>, **kwargs)` fails exactly when a keyword names a positional parameter, with the error for the first such keyword; otherwise all keywords are collected in order |
| Registries.CreateForSpec | src/helmupdater/registry/__init__.py:38-43 | `oci` gives the OCI variant, `http`/`https` the HTTP variant, any other scheme the unsupported-scheme error naming it; a supported scheme fails only on keywords or the URL; the registry carries the name and its type names its variant |
| Registries.CreateDependsOnScheme | src/helmupdater/registry/__init__.py:36-43 | two URLs with the same scheme give the same variant |
| Registries.CreateHttp | src/helmupdater/registry/__init__.py:40-41 | an `http`/`https` URL without keywords gives the HTTP registry with the default timeout |
| Registries.CreateRejectsKeywords | src/helmupdater/registry/__init__.py:39-41 | an unknown keyword for HTTP, or a keyword repeating `name`, is a type error |
| Registries.OtherSchemeRejected | src/helmupdater/registry/__init__.py:42-43 | a well-formed URL with another scheme, such as `ftp`, is rejected naming the scheme when no keyword is `url` or `name` |
| Registries.NoSchemeRejected | src/helmupdater/registry/__init__.py:42-43 | a URL without `:` (such as `charts.example.com`) is rejected with the empty scheme when no keyword is `url` or `name` |
| Registries.CreateNamed | src/helmupdater/registry/__init__.py:39-41 | the registry `create` returns carries the given name |
| Registries.GetVersionsScoped | src/helmupdater/registry/base.py:16-30 | every version either registry lists is valid and belongs to the registry's name and the requested chart |
| Registries.UrlParseErrors | src/helmupdater/registry/__init__.py:36 | `urlparse` fails only with the invalid-URL error |
| HttpRegistries.NewNormalises | src/helmupdater/registry/http.py:28-30 | the base URL is the input without its trailing `/`s plus exactly one `/`, and `registry_url` returns it |
| HttpRegistries.NewIdempotent | src/helmupdater/registry/http.py:28 | normalising a normalised URL changes nothing |
| HttpRegistries.NewTrailingSlash | src/helmupdater/registry/http.py:28 | a trailing `/` makes no difference |
| HttpRegistries.FetchRawVersionsSpec | src/helmupdater/registry/http.py:45-56 | the index is fetched from `<base>index.yaml` with the timeout; a fetch error propagates; no `entries`, no chart or a null chart is chart-not-found; else the raw versions of its entries |
| HttpRegistries.RawVersionsSpec | src/helmupdater/registry/http.py:56 | the raw versions are the entries' `version` values in index order; an entry without one is a key error |
| HttpRegistries.StableOnly | src/helmupdater/registry/http.py:79 | the filter is no longer than its input |
| HttpRegistries.StableOnlyExactly | src/helmupdater/registry/http.py:79 | a version is kept exactly when it is in the input and stable |
| HttpRegistries.StableOnlyAppend | src/helmupdater/registry/http.py:79 | the filter keeps the order: filtering a concatenation filters each part |
| HttpRegistries.GetVersionsSpec | src/helmupdater/registry/http.py:73-79 | `get_versions` is the stable part of `parse_versions` of the raw versions, in order; all entries invalid gives that error, all valid but none stable gives `[]`; each version is valid, stable and of this registry and chart |
| OciRegistries.NewWellFormed | src/helmupdater/registry/oci.py:54-63 | the host is the URL's network location and the repository path its path without leading `/`s; the base URL is the parse with that path |
| OciRegistries.RegistryUrlWellFormed | src/helmupdater/registry/oci.py:98-101 | `registry_url` is `scheme://host` followed by `/` and the stripped path, or nothing when that is empty |
| OciRegistries.GetVersionsAsks | src/helmupdater/registry/oci.py:81-87 | the tags are asked for `<repository path>/<chart>` on the host with the options and timeout, and the result depends on nothing else |
| OciRegistries.TagVersionsSpec | src/helmupdater/registry/oci.py:89-91 | every tag becomes, in order, the version the validator builds for this name and chart, none filtered; one unparsable tag fails the call with the error for the first such tag |
| OciRegistries.AllOkSpec | src/helmupdater/registry/oci.py:89-91 | the list comprehension succeeds exactly when every element does, with the values in order, and otherwise raises the first error |
| OciRegistries.OneBadTagFails | src/helmupdater/registry/oci.py:89-91 | a good and a bad tag fail the OCI call while `parse_versions` of the same list succeeds |
| Urls.UrlSplitComponents | src/helmupdater/registry/oci.py:57 | each `urlsplit` component is free of the characters that end it, and the scheme is a lower-case run of scheme characters starting with a letter |
| Urls.UrlSplitWellFormed | src/helmupdater/registry/oci.py:57-59 | `urlsplit("scheme://host/path")` of a well-formed URL gives scheme, host and path back with no query or fragment |
| Urls.UrlParseWellFormed | src/helmupdater/registry/__init__.py:36 | `urlparse` of a well-formed URL without parameters gives its parts back |
| Urls.UnsplitSplit | src/helmupdater/registry/oci.py:98-101 | `urlunsplit` undoes `urlsplit` on a well-formed URL with a host |
| Urls.UnsplitRelativePath | src/helmupdater/registry/oci.py:60 | with a host, a relative path is written after a `/` |
| Urls.SplitWithoutColon | src/helmupdater/registry/__init__.py:36 | a URL without `:` or brackets splits with the empty scheme |
| Urls.ParseKeepsScheme | src/helmupdater/registry/__init__.py:36 | `urlparse` keeps the scheme `urlsplit` finds |
| Nix.NormaliseQuoted | src/helmupdater/nix.py:32 | a quoted system name followed by whitespace, as `nix eval` prints it, normalises to the name |
| Nix.NixEnv.CurrentSystem | src/helmupdater/nix.py:12-32 | returns the normalised output and fills the memo cell; `nix eval` runs only when the cell was empty |
| Nix.NixEnv.CacheClear | src/helmupdater/nix.py:12 | empties the memo cell without running anything |
| Nix.NixEnv.constructor | src/helmupdater/nix.py:12 | a process starts with an empty memo cell and no `nix eval` run |
| Nix.TargetParts | src/helmupdater/nix.py:57 | split at `.`, the target gives back the system, repo and chart when none holds a `.` |
| Nix.TargetInjective | src/helmupdater/nix.py:57 | different systems, repos or charts (without `.`) have different targets |
| Nix.NixEnv.BuildChart | src/helmupdater/nix.py:35-59 | builds the target `.#chartsDerivations.<system>.<repo>.<chart>` for the cached system |
| Nix.NixEnv.GetHashDerivation | src/helmupdater/nix.py:117-135 | asks for the derivation hash of the same target |
| Nix.NixEnv.GetHash | src/helmupdater/nix.py:62-95 | the result is `HashOf` of what the build and the derivation report for the one target |
| Nix.HashOfSpec | src/helmupdater/nix.py:80-95 | exit 0 gives the derivation's hash whatever the output; otherwise the derivation is never consulted and the result is the hash scanned from stderr, or the error naming the chart and carrying the whole stderr |
| Nix.ParseBuildMismatchHashSpec | src/helmupdater/nix.py:98-114 | without `hash mismatch` there is no hash; a hash found occurs in the output, starts with `sha256-`, holds no whitespace and is the group of the leftmost match; none is found only when the pattern matches nowhere |
| Nix.SearchSpec | src/helmupdater/nix.py:109 | `re.search` finds the leftmost match at or after a position, and nothing when there is none |
| Nix.MatchAtSound | src/helmupdater/nix.py:109 | what the matcher returns at a position is a match of `got:\s+(sha256-\S+)` there |
| Nix.MatchAtComplete | src/helmupdater/nix.py:109 | every match at a position is what the matcher returns there |
| Nix.SpaceRun | src/helmupdater/nix.py:109 | `\s+` is greedy: the run ends at the first non-whitespace |
| Nix.WordRun | src/helmupdater/nix.py:109 | `\S+` is greedy: the run ends at the first whitespace |
| Nix.GetChartWritten | src/helmupdater/nix.py:167-181 | after a record is written, `get_chart` reads back its escaped form |
| ChartFiles.ChartPath | src/helmupdater/chart/__init__.py:27-42 | the path is the chart's directory followed by `default.nix`, and for names other than empty and `.` it is `charts/<repo>/<chart>/default.nix` |
| ChartFiles.ChartPathInjective | src/helmupdater/chart/__init__.py:27-42 | distinct charts whose names are neither empty nor `.` have distinct files |
| ChartFiles.ChartPathCollision | src/helmupdater/chart/__init__.py:42 | because pathlib drops empty and `.` segments, `("", x)`, `(x, "")` and `(".", x)` all name `charts/x/default.nix` |
| ChartFiles.Repeat | src/helmupdater/chart/__init__.py:23 | `n` copies of a character, as the 43 `A`s of the placeholder hash |
| ChartFiles.EscapeHtmlNoQuote | src/helmupdater/chart/__init__.py:105-113 | escaped values hold no `"`, `<` or `>` |
| ChartFiles.EscapeHtmlPlain | src/helmupdater/chart/__init__.py:105-113 | a value without `&`, `"`, `<`, `>` is written unchanged |
| ChartFiles.EscapeHtmlTwice | src/helmupdater/chart/__init__.py:105-113 | escaping is not idempotent: `&` becomes `&amp;` and then `&amp;amp;` |
| ChartFiles.FieldOf | src/helmupdater/chart/__init__.py:15-21 | a quoted value without `"` is read back between its prefix and the closing quote |
| ChartFiles.DecodeRender | src/helmupdater/chart/__init__.py:15-21 | reading a rendered file gives the escaped record, and the record itself when its values are plain |
| ChartFiles.ChartStore.constructor | src/helmupdater/chart/__init__.py:45-66 | a store of directories and files in which every file sits in an existing directory |
| ChartFiles.ChartStore.CreateChartDirectory | src/helmupdater/chart/__init__.py:45-66 | adds `charts`, `charts/<repo>` and `charts/<repo>/<chart>`, keeps the other directories and all files, and returns the chart directory, the parent of the chart's file |
| ChartFiles.ChartStore.WriteChartFile | src/helmupdater/chart/__init__.py:83-115 | replaces the file's content with the rendered record exactly when its directory exists, else fails naming the path; nothing else changes |
| Chart.Placeholder | src/helmupdater/chart/__init__.py:225-228 | the placeholder record has the latest version's raw string, the placeholder hash, and repo and chart unchanged |
| Chart.RehashSpec | src/helmupdater/chart/__init__.py:258-266 | `rehash` succeeds exactly when reading the chart and finding the hash do; it keeps repo, chart and version, takes the found hash, writes exactly that record, and writes nothing on failure |
| Chart.RehashEscapesAgain | src/helmupdater/chart/__init__.py:258-266 | a repo URL `&` is read as `&amp;` and, after a rehash, as `&amp;amp;` |
| Chart.DecideSpec | src/helmupdater/chart/__init__.py:209-218 | no versions fails with "no versions available"; otherwise the record is kept when the current version equals the first greatest version, and bumped to it in every other case, downgrades included |
| Chart.UpdatePlanSpec | src/helmupdater/chart/__init__.py:199-218 | the record given is used, else the stored one; the first failing step (reading the record, parsing its version, creating the registry, fetching the versions) gives the result; with versions fetched, an empty list fails with "no versions available" and a non-empty one always yields a decision: keep exactly when the first greatest version equals the current one, else bump to it |
| Chart.InvalidCurrentVersionFirst | src/helmupdater/chart/__init__.py:202-207 | an unparsable current version fails with the invalid-version error, whatever the network answers |
| Chart.UpdateEffectSpec | src/helmupdater/chart/__init__.py:209-232 | a failure before the decision and a kept record write nothing; a bump fails with nothing written when the chart's directory is missing, and otherwise writes the placeholder, which Nix reads back, and then behaves as `rehash` over it |
| Chart.UpdateBumpPlain | src/helmupdater/chart/__init__.py:217-232 | for plain values a successful bump ends with repo and chart unchanged, the latest version's raw string, and that record in the file |
| Chart.CreateSpec | src/helmupdater/chart/__init__.py:147-180 | an existing chart fails with nothing changed; otherwise the directories are made, lacking both record and URL fails with nothing written, and else the result is the updated record, or the first record when there is no update or the update fails, whose writes stay |
| Chart.CreateFromUrl | src/helmupdater/chart/__init__.py:154-161 | with only a URL and no update the record is the URL, the chart, `0.0.0` and the placeholder hash, written to the chart's file |
| Chart.Rehash | src/helmupdater/chart/__init__.py:235-266 | the method's result and the store's files afterwards are those `RehashSpec` describes; the directories are unchanged and `nix eval` runs at most once |
| Chart.PlanUpdate | src/helmupdater/chart/__init__.py:199-218 | the method computes the decision `UpdatePlanSpec` describes, writing nothing |
| Chart.Apply | src/helmupdater/chart/__init__.py:225-232 | the writes after the decision are those `UpdateEffectSpec` describes |
| Chart.Update | src/helmupdater/chart/__init__.py:183-232 | the method's result and the files afterwards are those `UpdatePlanSpec` and `UpdateEffectSpec` describe |
| Chart.Create | src/helmupdater/chart/__init__.py:118-180 | the method's result, files and directories afterwards are those `CreateSpec` describes |

## Left out

- Subprocesses (`run_cmd`), JSON decoding of Nix output, `requests`,
  `yaml.safe_load` and the OCI client are not modelled. Their results are
  parameters: the `nix eval` output, the build and derivation functions,
  the index fetch and the tag listing.
- `get_chart` is modelled as Nix reading the chart's file in the store.
  A missing file, or one not of the template's shape, is a failed command
  with exit code 1. The exit code is a chosen value, and Nix string
  escapes are not interpreted.
- The SIGALRM timeout around the OCI tag listing is not modelled: signals
  and wall-clock time are out of scope. The timeout is passed to the tag
  listing.
- `get_charts`, `git.staged_file`, the command-line interface and logging
  are plumbing around the modelled functions. Log output is not
  modelled: the downgrade warning, the warning when `create`'s update
  fails (the failure itself is swallowed, as in the code) and all log
  wording.
- The registry protocol is not an interface here: a registry is a tagged
  union of the two variants, with the protocol's members as functions by
  cases.
- PEP 440 epochs, post-releases and local labels are not modelled. Strings
  using them do not parse here, while `packaging` would accept them.
- `urllib.parse` is modelled without validating the network location
  beyond its brackets (no port or IPv6 check).
- Case-insensitive parsing lower-cases ASCII letters only.
- `Path.cwd()` is not modelled: paths are segment lists relative to the
  working directory.
- `is_stable` is not defined in the chart-version file. It is taken to
  mean "no pre-release and no development release", which is what the
  HTTP registry's tests expect.
- `update` is modelled as a decision step (`Chart.PlanUpdate`) and a
  writing step (`Chart.Apply`).
- An index whose `entries` is YAML null is not representable: `Index`
  only distinguishes a missing `entries` key from a mapping, while the
  code raises `AttributeError` on the null value.
- Release entries are string-to-string maps, so an entry whose `version`
  is not a string (which `ChartVersion` rejects and `parse_versions` then
  drops) is not representable.
- Keyword arguments are a sequence of pairs, which may repeat a key; a
  Python call cannot. Binding such a sequence processes the repeats in
  order (the last `timeout` wins), a case the code never meets.
- Repository and chart names containing `/` are not modelled as pathlib
  would split them (or, for a leading `/`, leave the working tree). Names
  reaching the code through `parse_chart_name` hold no `/`. Empty and `.`
  names are modelled: pathlib drops them.
- OciRegistries.NewWellFormed: stated for any scheme, because the
  constructor does not look at the scheme.
- HttpRegistries.StableOnlyExactly: the six-version list of the HTTP
  registry's test is covered by this general statement, not as a concrete
  example.
- OciRegistries.TagVersionsSpec: the test that expects stable-only
  filtering from the OCI registry contradicts the code. The model follows
  the code and does not filter.
