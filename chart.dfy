/** Creating, updating and rehashing a chart: the steps that read the chart
    file through Nix, ask the chart's registry for its versions, and write
    the file back, first with a placeholder hash and then with the hash the
    build reports. Each method's effect is pinned to a function of the
    store's files, the current system and the outside world; the lemmas are
    about those functions. */
module Chart {
  import opened Outcomes
  import opened ChartMetadatas
  import opened ChartFiles
  import ChartVersions
  import Registries
  import Nix
  import Pep440

  /** What the commands and registries outside the process answer. */
  datatype World = World(net: Registries.Network, build: Nix.Build, show: Nix.ShowHash)

  /* ---------------------------------------------------------------- */
  /* Rehash                                                            */
  /* ---------------------------------------------------------------- */

  /** `rehash(repo, chart)`: the stored record with the hash the build
      reports. */
  function RehashResult(files: map<Path, string>, system: string, repo: string, chart: string, world: World)
    : Result<ChartMetadata>
  {
    var current :- Nix.GetChart(files, repo, chart);
    var target := Nix.Target(system, repo, chart);
    var hash :- Nix.HashOf(repo, chart, world.build(files, target), world.show(files, target));
    Ok(ModelCopy(current, map["chartHash" := hash]))
  }

  /** The result of `rehash` and the chart files after it. */
  function RehashEffect(files: map<Path, string>, system: string, repo: string, chart: string, world: World)
    : (Result<ChartMetadata>, map<Path, string>)
  {
    var r := RehashResult(files, system, repo, chart, world);
    (r, if r.Ok? then files[ChartPath(repo, chart) := Render(r.value)] else files)
  }

  /** Rehashing keeps the stored repository, chart and version and replaces
      the hash with the one the build reports, writing exactly that record;
      when reading the chart or finding the hash fails, nothing is
      written. */
  lemma RehashSpec(files: map<Path, string>, system: string, repo: string, chart: string, world: World)
    ensures var (r, after) := RehashEffect(files, system, repo, chart, world);
      var target := Nix.Target(system, repo, chart);
      (r.Ok? <==> Nix.GetChart(files, repo, chart).Ok?
                  && Nix.HashOf(repo, chart, world.build(files, target), world.show(files, target)).Ok?)
      && (r.Ok? ==>
            var stored := Nix.GetChart(files, repo, chart).value;
            r.value.repo == stored.repo && r.value.chart == stored.chart && r.value.version == stored.version
            && Ok(r.value.chartHash) == Nix.HashOf(repo, chart, world.build(files, target), world.show(files, target))
            && after == files[ChartPath(repo, chart) := Render(r.value)]
            && Nix.GetChart(after, repo, chart) == Ok(Escaped(r.value)))
      && (r.Err? ==> after == files)
  {
    var r := RehashResult(files, system, repo, chart, world);
    if r.Ok? {
      var stored := Nix.GetChart(files, repo, chart).value;
      var target := Nix.Target(system, repo, chart);
      var hash := Nix.HashOf(repo, chart, world.build(files, target), world.show(files, target)).value;
      ModelCopyFields(stored, map["chartHash" := hash], "repo");
      Nix.GetChartWritten(files, repo, chart, r.value);
    }
  }

  /** Values the template engine escapes are escaped once more by every
      rehash: a repository URL holding `&` is stored as `&amp;`, and after
      a rehash as `&amp;amp;`. */
  lemma RehashEscapesAgain(files: map<Path, string>, system: string, repo: string, chart: string, world: World,
                           m: ChartMetadata)
    requires m.repo == "&"
    requires ChartPath(repo, chart) in files && files[ChartPath(repo, chart)] == Render(m)
    requires RehashResult(files, system, repo, chart, world).Ok?
    ensures Nix.GetChart(files, repo, chart).Ok? && Nix.GetChart(files, repo, chart).value.repo == "&amp;"
    ensures var after := RehashEffect(files, system, repo, chart, world).1;
      Nix.GetChart(after, repo, chart).Ok? && Nix.GetChart(after, repo, chart).value.repo == "&amp;amp;"
  {
    DecodeRender(m);
    EscapeHtmlTwice();
    RehashSpec(files, system, repo, chart, world);
  }

  /* ---------------------------------------------------------------- */
  /* Update                                                            */
  /* ---------------------------------------------------------------- */

  /** What `update` decides before writing: keep the record, or move it to
      `latest`. */
  datatype Plan = Keep(info: ChartMetadata) | Bump(info: ChartMetadata, latest: ChartVersions.ChartVersion)

  /** The decision once the registry's versions are known. A downgrade is
      only logged, so any other latest version is a bump. */
  function Decide(info: ChartMetadata, current: ChartVersions.ChartVersion, available: seq<ChartVersions.ChartVersion>,
                  repo: string, chart: string): Result<Plan>
  {
    if |available| == 0 then Err(NoVersionsAvailable(repo, chart))
    else
      var latest :- ChartVersions.Max(available);
      var same :- ChartVersions.Eq(current, ChartVersions.Chart(latest));
      if same then Ok(Keep(info))
      else
        var downgrade :- ChartVersions.Gt(current, ChartVersions.Chart(latest));
        Ok(Bump(info, latest))
  }

  /** The steps of `update` up to its decision. The record given is used;
      only without one is the stored record read. */
  function UpdatePlan(files: map<Path, string>, repo: string, chart: string, chartInfo: Option<ChartMetadata>,
                      net: Registries.Network): Result<Plan>
  {
    var info :- StartingRecord(files, repo, chart, chartInfo);
    var current :- ChartVersions.New(info.version, repo, chart);
    var registry :- Registries.Create(info.repo, repo, []);
    var available :- Registries.GetVersions(registry, chart, net);
    Decide(info, current, available, repo, chart)
  }

  /** The placeholder record: the latest version's own string and the
      placeholder hash, with repository and chart unchanged. */
  function Placeholder(info: ChartMetadata, latest: ChartVersions.ChartVersion): (p: ChartMetadata)
    ensures p.repo == info.repo && p.chart == info.chart
    ensures p.version == latest.version && p.chartHash == PlaceholderHash
  {
    ModelCopy(info, map["version" := latest.version, "chartHash" := PlaceholderHash])
  }

  /** The result of `update` once the plan is known, and the chart files
      after it. */
  function ApplyPlan(plan: Result<Plan>, files: map<Path, string>, dirs: set<Path>, system: string, repo: string,
                     chart: string, world: World): (Result<ChartMetadata>, map<Path, string>)
  {
    match plan
    case Err(e) => (Err(e), files)
    case Ok(Keep(info)) => (Ok(info), files)
    case Ok(Bump(info, latest)) =>
      var path := ChartPath(repo, chart);
      if Parent(path) !in dirs then (Err(FileNotFound(path)), files)
      else RehashEffect(files[path := Render(Placeholder(info, latest))], system, repo, chart, world)
  }

  /** The result of `update` and the chart files after it. */
  function UpdateEffect(files: map<Path, string>, dirs: set<Path>, system: string, repo: string, chart: string,
                        chartInfo: Option<ChartMetadata>, world: World): (Result<ChartMetadata>, map<Path, string>)
  {
    ApplyPlan(UpdatePlan(files, repo, chart, chartInfo, world.net), files, dirs, system, repo, chart, world)
  }

  /** With versions of this chart on offer, the decision compares the
      current version with the first of the greatest ones: equal (as
      versions, not as strings) keeps the record, anything else moves to
      it; with none on offer `update` fails. */
  lemma DecideSpec(info: ChartMetadata, current: ChartVersions.ChartVersion, available: seq<ChartVersions.ChartVersion>,
                   repo: string, chart: string)
    requires current.repo == repo && current.chart == chart
    requires forall v :: v in available ==> v.repo == repo && v.chart == chart
    ensures |available| == 0 <==> Decide(info, current, available, repo, chart).Err?
    ensures |available| == 0 ==> Decide(info, current, available, repo, chart) == Err(NoVersionsAvailable(repo, chart))
    ensures |available| > 0 ==>
      exists k: nat :: ChartVersions.FirstMaximumAt(available, k)
        && Decide(info, current, available, repo, chart)
           == Ok(if Pep440.Compare(current.versionInfo, available[k].versionInfo) == Pep440.Same
                 then Keep(info) else Bump(info, available[k]))
  {
    if |available| > 0 {
      ChartVersions.MaxIsFirstMaximum(available);
      assert ChartVersions.AllSameChart(available);
      var latest := ChartVersions.Max(available).value;
      var k: nat :| ChartVersions.FirstMaximumAt(available, k) && latest == available[k];
      assert ChartVersions.SameChart(current, latest);
      ChartVersions.OperatorsConsistent(current, latest);
      Pep440.CompareSame(current.versionInfo, latest.versionInfo);
    }
  }

  /** The record `update` starts from. */
  function StartingRecord(files: map<Path, string>, repo: string, chart: string, chartInfo: Option<ChartMetadata>)
    : Result<ChartMetadata>
  {
    if chartInfo.Some? then Ok(chartInfo.value) else Nix.GetChart(files, repo, chart)
  }

  /** A current version that does not parse fails `update` before any
      registry is asked: the outcome is the same whatever the network
      answers. */
  lemma InvalidCurrentVersionFirst(files: map<Path, string>, repo: string, chart: string,
                                   chartInfo: Option<ChartMetadata>, net1: Registries.Network, net2: Registries.Network)
    requires StartingRecord(files, repo, chart, chartInfo).Ok?
    requires Pep440.Parse(StartingRecord(files, repo, chart, chartInfo).value.version).None?
    ensures UpdatePlan(files, repo, chart, chartInfo, net1) == UpdatePlan(files, repo, chart, chartInfo, net2)
    ensures var version := StartingRecord(files, repo, chart, chartInfo).value.version;
      UpdatePlan(files, repo, chart, chartInfo, net1) == Err(InvalidVersion(version, repo, chart))
  {
    var info := StartingRecord(files, repo, chart, chartInfo).value;
    assert ChartVersions.New(info.version, repo, chart).Err?;
  }

  /** `update` starts from the record given, or else the stored one, and
      each step's failure is its result: reading the stored record, parsing
      its version, creating the registry, fetching the versions. With the
      versions fetched it fails with "no versions available" on an empty
      list, and otherwise keeps the record exactly when the first of the
      greatest versions equals the current one and bumps it to that
      version in every other case. */
  lemma UpdatePlanSpec(files: map<Path, string>, repo: string, chart: string, chartInfo: Option<ChartMetadata>,
                       net: Registries.Network)
    ensures StartingRecord(files, repo, chart, chartInfo).Err? ==>
      UpdatePlan(files, repo, chart, chartInfo, net) == Err(StartingRecord(files, repo, chart, chartInfo).error)
    ensures UpdatePlan(files, repo, chart, chartInfo, net).Ok? ==>
      UpdatePlan(files, repo, chart, chartInfo, net).value.info == StartingRecord(files, repo, chart, chartInfo).value
    ensures StartingRecord(files, repo, chart, chartInfo).Ok? ==>
      var info := StartingRecord(files, repo, chart, chartInfo).value;
      var plan := UpdatePlan(files, repo, chart, chartInfo, net);
      (Pep440.Parse(info.version).None? ==> plan == Err(InvalidVersion(info.version, repo, chart)))
      && (Pep440.Parse(info.version).Some? ==>
            var registry := Registries.Create(info.repo, repo, []);
            (registry.Err? ==> plan == Err(registry.error))
            && (registry.Ok? ==>
                  var available := Registries.GetVersions(registry.value, chart, net);
                  (available.Err? ==> plan == Err(available.error))
                  && (available.Ok? && |available.value| == 0 ==> plan == Err(NoVersionsAvailable(repo, chart)))
                  && (available.Ok? && |available.value| > 0 ==>
                        exists k: nat :: ChartVersions.FirstMaximumAt(available.value, k)
                          && plan == Ok(if Pep440.Compare(Pep440.Parse(info.version).value, available.value[k].versionInfo)
                                           == Pep440.Same
                                        then Keep(info) else Bump(info, available.value[k])))))
  {
    var start := StartingRecord(files, repo, chart, chartInfo);
    if start.Ok? {
      var info := start.value;
      var cv := ChartVersions.New(info.version, repo, chart);
      if cv.Ok? {
        var reg := Registries.Create(info.repo, repo, []);
        if reg.Ok? {
          var av := Registries.GetVersions(reg.value, chart, net);
          if av.Ok? {
            Registries.CreateNamed(info.repo, repo, []);
            Registries.GetVersionsScoped(reg.value, chart, net);
            DecideSpec(info, cv.value, av.value, repo, chart);
          }
        }
      }
    }
  }

  /** Before the decision nothing is written, and keeping the record writes
      nothing either; a bump fails without writing when the chart's
      directory is missing, and otherwise writes the placeholder and then
      the rehashed record. */
  lemma UpdateEffectSpec(files: map<Path, string>, dirs: set<Path>, system: string, repo: string, chart: string,
                         chartInfo: Option<ChartMetadata>, world: World)
    ensures var plan := UpdatePlan(files, repo, chart, chartInfo, world.net);
      var (r, after) := UpdateEffect(files, dirs, system, repo, chart, chartInfo, world);
      (plan.Err? ==> r == Err(plan.error) && after == files)
      && (plan.Ok? && plan.value.Keep? ==> r == Ok(plan.value.info) && after == files)
      && (plan.Ok? && plan.value.Bump? && Parent(ChartPath(repo, chart)) !in dirs ==>
            r == Err(FileNotFound(ChartPath(repo, chart))) && after == files)
      && (plan.Ok? && plan.value.Bump? && Parent(ChartPath(repo, chart)) in dirs ==>
            var placeholder := Placeholder(plan.value.info, plan.value.latest);
            var written := files[ChartPath(repo, chart) := Render(placeholder)];
            Nix.GetChart(written, repo, chart) == Ok(Escaped(placeholder))
            && (r, after) == RehashEffect(written, system, repo, chart, world))
  {
    var plan := UpdatePlan(files, repo, chart, chartInfo, world.net);
    if plan.Ok? && plan.value.Bump? {
      var placeholder := Placeholder(plan.value.info, plan.value.latest);
      Nix.GetChartWritten(files, repo, chart, placeholder);
    }
  }

  /** For records without characters the template escapes, a bump ends
      with the record at the latest version, the hash the build reported,
      and repository and chart unchanged. */
  lemma UpdateBumpPlain(files: map<Path, string>, dirs: set<Path>, system: string, repo: string, chart: string,
                        chartInfo: Option<ChartMetadata>, world: World)
    requires UpdatePlan(files, repo, chart, chartInfo, world.net).Ok?
    requires UpdatePlan(files, repo, chart, chartInfo, world.net).value.Bump?
    requires PlainRecord(Placeholder(UpdatePlan(files, repo, chart, chartInfo, world.net).value.info,
                                     UpdatePlan(files, repo, chart, chartInfo, world.net).value.latest))
    requires UpdateEffect(files, dirs, system, repo, chart, chartInfo, world).0.Ok?
    ensures var plan := UpdatePlan(files, repo, chart, chartInfo, world.net).value;
      var r := UpdateEffect(files, dirs, system, repo, chart, chartInfo, world).0.value;
      r.repo == plan.info.repo && r.chart == plan.info.chart && r.version == plan.latest.version
      && UpdateEffect(files, dirs, system, repo, chart, chartInfo, world).1[ChartPath(repo, chart)] == Render(r)
  {
    var plan := UpdatePlan(files, repo, chart, chartInfo, world.net).value;
    var placeholder := Placeholder(plan.info, plan.latest);
    var written := files[ChartPath(repo, chart) := Render(placeholder)];
    UpdateEffectSpec(files, dirs, system, repo, chart, chartInfo, world);
    DecodeRender(placeholder);
    RehashSpec(written, system, repo, chart, world);
  }

  /* ---------------------------------------------------------------- */
  /* Create                                                            */
  /* ---------------------------------------------------------------- */

  /** The record `create` writes first: the one given, or else one for the
      repository URL at the placeholder version and hash; an empty URL
      counts as none. */
  function Initial(chart: string, repoUrl: Option<string>, chartInfo: Option<ChartMetadata>): Option<ChartMetadata>
  {
    if chartInfo.Some? then chartInfo
    else if repoUrl.Some? && repoUrl.value != "" then
      Some(ChartMetadata(repoUrl.value, chart, PlaceholderVersion, PlaceholderHash))
    else None
  }

  /** The result of `create`, and the chart files and directories after
      it. */
  function CreateEffect(files: map<Path, string>, dirs: set<Path>, system: string, repo: string, chart: string,
                        repoUrl: Option<string>, updateToLatest: bool, chartInfo: Option<ChartMetadata>, world: World)
    : (Result<ChartMetadata>, map<Path, string>, set<Path>)
  {
    if ChartPath(repo, chart) in files then (Err(ChartExists(repo, chart)), files, dirs)
    else
      var dirs' := dirs + {["charts"], RepoDir(repo), ChartDir(repo, chart)};
      match Initial(chart, repoUrl, chartInfo)
      case None => (Err(NoChartSource), files, dirs')
      case Some(info) =>
        var written := files[ChartPath(repo, chart) := Render(info)];
        if !updateToLatest then (Ok(info), written, dirs')
        else
          var (u, after) := UpdateEffect(written, dirs', system, repo, chart, Some(info), world);
          (Ok(if u.Ok? then u.value else info), after, dirs')
  }

  /** `create` fails only for a chart that exists, with nothing changed,
      or for lack of both a record and a URL, after making the chart's
      directory; otherwise it returns the updated record, or the record it
      first wrote when there is no update or the update fails, whose
      writes stay. */
  lemma CreateSpec(files: map<Path, string>, dirs: set<Path>, system: string, repo: string, chart: string,
                   repoUrl: Option<string>, updateToLatest: bool, chartInfo: Option<ChartMetadata>, world: World)
    ensures var (r, files', dirs') := CreateEffect(files, dirs, system, repo, chart, repoUrl, updateToLatest, chartInfo, world);
      (ChartPath(repo, chart) in files ==> r == Err(ChartExists(repo, chart)) && files' == files && dirs' == dirs)
      && (ChartPath(repo, chart) !in files ==>
            dirs' == dirs + {["charts"], RepoDir(repo), ChartDir(repo, chart)}
            && (r.Ok? <==> Initial(chart, repoUrl, chartInfo).Some?)
            && (r.Err? ==> r == Err(NoChartSource) && files' == files))
    ensures var (r, files', dirs') := CreateEffect(files, dirs, system, repo, chart, repoUrl, updateToLatest, chartInfo, world);
      ChartPath(repo, chart) !in files && Initial(chart, repoUrl, chartInfo).Some? ==>
        var info := Initial(chart, repoUrl, chartInfo).value;
        var written := files[ChartPath(repo, chart) := Render(info)];
        var (u, after) := UpdateEffect(written, dirs', system, repo, chart, Some(info), world);
        (!updateToLatest ==> r == Ok(info) && files' == written)
        && (updateToLatest && u.Err? ==> r == Ok(info) && files' == after)
        && (updateToLatest && u.Ok? ==> r == u && files' == after)
  {
  }

  /** With only a repository URL, `create` without an update writes the
      URL, the chart name, version `0.0.0` and the placeholder hash. */
  lemma CreateFromUrl(files: map<Path, string>, dirs: set<Path>, system: string, repo: string, chart: string,
                      url: string, world: World)
    requires ChartPath(repo, chart) !in files && url != ""
    ensures var (r, files', _) := CreateEffect(files, dirs, system, repo, chart, Some(url), false, None, world);
      var m := ChartMetadata(url, chart, "0.0.0", PlaceholderHash);
      r == Ok(m) && files' == files[ChartPath(repo, chart) := Render(m)]
      && Nix.GetChart(files', repo, chart) == Ok(Escaped(m))
  {
    var m := ChartMetadata(url, chart, "0.0.0", PlaceholderHash);
    Nix.GetChartWritten(files, repo, chart, m);
  }

  /* ---------------------------------------------------------------- */
  /* The operations                                                    */
  /* ---------------------------------------------------------------- */

  /** The memo cell of `current_system` was filled at most once. */
  twostate predicate AtMostOneEval(nix: Nix.NixEnv)
    reads nix
  {
    nix.evalRuns <= old(nix.evalRuns) + 1
    && (old(nix.systemCache).Some? ==> nix.evalRuns == old(nix.evalRuns))
  }

  /** `rehash(repo, chart)` */
  method Rehash(store: ChartStore, nix: Nix.NixEnv, repo: string, chart: string, world: World)
    returns (r: Result<ChartMetadata>)
    requires store.Valid() && nix.Valid()
    modifies store, nix
    ensures store.Valid() && nix.Valid() && store.dirs == old(store.dirs) && AtMostOneEval(nix)
    ensures (r, store.files) == RehashEffect(old(store.files), Nix.NormaliseSystem(nix.evalOutput), repo, chart, world)
  {
    var current :- Nix.GetChart(store.files, repo, chart);
    var hash :- nix.GetHash(store.files, repo, chart, world.build, world.show);
    var corrected := ModelCopy(current, map["chartHash" := hash]);
    var path := ChartPath(repo, chart);
    assert Parent(path) in store.dirs;
    var written := store.WriteChartFile(path, corrected);
    r := Ok(corrected);
  }

  /** The part of `update(repo, chart, chart_info)` that reads and asks
      but writes nothing. */
  method PlanUpdate(store: ChartStore, repo: string, chart: string, chartInfo: Option<ChartMetadata>,
                    net: Registries.Network) returns (plan: Result<Plan>)
    ensures plan == UpdatePlan(store.files, repo, chart, chartInfo, net)
  {
    var info: ChartMetadata;
    if chartInfo.Some? {
      info := chartInfo.value;
    } else {
      info :- Nix.GetChart(store.files, repo, chart);
    }
    var current :- ChartVersions.New(info.version, repo, chart);
    var registry :- Registries.Create(info.repo, repo, []);
    var available :- Registries.GetVersions(registry, chart, net);
    if |available| == 0 {
      return Err(NoVersionsAvailable(repo, chart));
    }
    var latest :- ChartVersions.Max(available);
    var same :- ChartVersions.Eq(current, ChartVersions.Chart(latest));
    if same {
      return Ok(Keep(info));
    }
    var downgrade :- ChartVersions.Gt(current, ChartVersions.Chart(latest));
    return Ok(Bump(info, latest));
  }

  /** The part of `update(repo, chart, chart_info)` that writes: nothing
      for a failure or a kept record, else the placeholder record and then
      the rehashed one. */
  method Apply(store: ChartStore, nix: Nix.NixEnv, plan: Result<Plan>, repo: string, chart: string, world: World)
    returns (r: Result<ChartMetadata>)
    requires store.Valid() && nix.Valid()
    modifies store, nix
    ensures store.Valid() && nix.Valid() && store.dirs == old(store.dirs) && AtMostOneEval(nix)
    ensures (r, store.files) == ApplyPlan(plan, old(store.files), old(store.dirs), Nix.NormaliseSystem(nix.evalOutput),
                                          repo, chart, world)
  {
    var bump :- plan;
    if bump.Keep? {
      return Ok(bump.info);
    }
    var path := ChartPath(repo, chart);
    var written := store.WriteChartFile(path, Placeholder(bump.info, bump.latest));
    if written.Err? {
      return Err(written.error);
    }
    r := Rehash(store, nix, repo, chart, world);
  }

  /** `update(repo, chart, chart_info)` */
  method Update(store: ChartStore, nix: Nix.NixEnv, repo: string, chart: string, chartInfo: Option<ChartMetadata>,
                world: World) returns (r: Result<ChartMetadata>)
    requires store.Valid() && nix.Valid()
    modifies store, nix
    ensures store.Valid() && nix.Valid() && store.dirs == old(store.dirs) && AtMostOneEval(nix)
    ensures (r, store.files) == UpdateEffect(old(store.files), old(store.dirs), Nix.NormaliseSystem(nix.evalOutput),
                                             repo, chart, chartInfo, world)
  {
    var plan := PlanUpdate(store, repo, chart, chartInfo, world.net);
    r := Apply(store, nix, plan, repo, chart, world);
  }

  /** `create(repo, chart, repo_url, update_to_latest, chart_info)` */
  method Create(store: ChartStore, nix: Nix.NixEnv, repo: string, chart: string, repoUrl: Option<string>,
                updateToLatest: bool, chartInfo: Option<ChartMetadata>, world: World) returns (r: Result<ChartMetadata>)
    requires store.Valid() && nix.Valid()
    modifies store, nix
    ensures store.Valid() && nix.Valid() && AtMostOneEval(nix)
    ensures (r, store.files, store.dirs) == CreateEffect(old(store.files), old(store.dirs),
                                                         Nix.NormaliseSystem(nix.evalOutput),
                                                         repo, chart, repoUrl, updateToLatest, chartInfo, world)
  {
    if store.Exists(repo, chart) {
      return Err(ChartExists(repo, chart));
    }
    var dir := store.CreateChartDirectory(repo, chart);
    var path := dir + ["default.nix"];
    var info: ChartMetadata;
    if chartInfo.Some? {
      info := chartInfo.value;
    } else if repoUrl.Some? && repoUrl.value != "" {
      info := ChartMetadata(repoUrl.value, chart, PlaceholderVersion, PlaceholderHash);
    } else {
      return Err(NoChartSource);
    }
    var written := store.WriteChartFile(path, info);
    assert written.Ok?;
    if updateToLatest {
      var updated := Update(store, nix, repo, chart, Some(info), world);
      if updated.Ok? {
        info := updated.value;
      }
    }
    r := Ok(info);
  }
}
