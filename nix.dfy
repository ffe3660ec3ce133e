/** The Nix side of the updater: the current system (asked once and
    remembered), the build target of a chart, and how the hash of a chart is
    discovered from a build. The `nix` commands themselves are oracles: the
    output of `nix eval`, and functions from the chart files and a target to
    what `nix build` and `nix derivation show` report. */
module Nix {
  import opened Outcomes
  import opened ChartMetadatas
  import opened ChartFiles
  import PyStr

  /** Exit code and standard error of a finished command. */
  datatype Process = Process(exitCode: int, stderr: string)

  /** `nix build <target>` over the given chart files. */
  type Build = (map<Path, string>, string) -> Process

  /** The output hash `nix derivation show <target>` reports, or the failure
      of the command. */
  type ShowHash = (map<Path, string>, string) -> Result<string>

  /* ---------------------------------------------------------------- */
  /* The current system                                                */
  /* ---------------------------------------------------------------- */

  /** The system name in the output of `nix eval`: surrounding whitespace
      removed, then every leading and trailing `"`. */
  function NormaliseSystem(output: string): string
  {
    PyStr.StripChar(PyStr.Strip(output), '"')
  }

  lemma {:induction false} RStripSpaceTrailing(t: string, ws: string)
    requires |t| > 0 && !PyStr.IsSpace(t[|t| - 1])
    requires forall i :: 0 <= i < |ws| ==> PyStr.IsSpace(ws[i])
    ensures PyStr.RStripSpace(t + ws) == t
    decreases |ws|
  {
    if |ws| > 0 {
      assert (t + ws)[..|t + ws| - 1] == t + ws[..|ws| - 1];
      RStripSpaceTrailing(t, ws[..|ws| - 1]);
    } else {
      assert t + ws == t;
    }
  }

  /** A quoted system name followed by whitespace, as `nix eval` prints it,
      normalises to the name. */
  lemma NormaliseQuoted(name: string, ws: string)
    requires |name| > 0 && name[0] != '"' && name[|name| - 1] != '"'
    requires forall i :: 0 <= i < |ws| ==> PyStr.IsSpace(ws[i])
    ensures NormaliseSystem("\"" + name + "\"" + ws) == name
  {
    var quoted := "\"" + name + "\"";
    var unquoted := name + "\"";
    assert PyStr.Strip(quoted + ws) == quoted by {
      assert (quoted + ws)[0] == '"';
      assert PyStr.LStripSpace(quoted + ws) == quoted + ws;
      RStripSpaceTrailing(quoted, ws);
    }
    assert PyStr.LStripChar(quoted, '"') == unquoted by {
      assert quoted[1..] == unquoted;
      assert PyStr.LStripChar(unquoted, '"') == unquoted;
    }
    assert PyStr.RStripChar(unquoted, '"') == name by {
      assert unquoted[..|name|] == name;
      assert PyStr.RStripChar(name, '"') == name;
    }
    assert quoted + ws == "\"" + name + "\"" + ws;
  }

  /* ---------------------------------------------------------------- */
  /* Build targets                                                     */
  /* ---------------------------------------------------------------- */

  /** The flake attribute built for a chart on a system. */
  function Target(system: string, repo: string, chart: string): string
  {
    ".#chartsDerivations." + system + "." + repo + "." + chart
  }

  /** The flake attribute holding a chart's metadata. */
  function MetadataTarget(repo: string, chart: string): string
  {
    ".#chartsMetadata." + repo + "." + chart
  }

  /** Split at `.`, a target gives back its system, repository and chart
      when none of them contains a `.`. */
  lemma TargetParts(system: string, repo: string, chart: string)
    requires '.' !in system && '.' !in repo && '.' !in chart
    ensures PyStr.Split(Target(system, repo, chart), '.') == ["", "#chartsDerivations"] + [system, repo, chart]
  {
    var r2 := system + "." + (repo + "." + chart);
    var r1 := "#chartsDerivations" + "." + r2;
    var p2 := PyStr.Split(r2, '.');
    var p1 := PyStr.Split(r1, '.');
    assert p2 == [system, repo, chart] by {
      SystemRepoChart(system, repo, chart);
    }
    assert p1 == ["#chartsDerivations"] + p2 by {
      PyStr.SplitCons("#chartsDerivations", '.', r2);
    }
    assert PyStr.Split(Target(system, repo, chart), '.') == [""] + p1 by {
      TargetShape(system, repo, chart);
      PyStr.SplitCons("", '.', r1);
    }
    TwoInFront("", "#chartsDerivations", p2);
  }

  lemma TwoInFront<T>(a: T, b: T, rest: seq<T>)
    ensures [a] + ([b] + rest) == [a, b] + rest
  {
  }

  lemma TargetShape(system: string, repo: string, chart: string)
    ensures Target(system, repo, chart)
      == "" + ['.'] + ("#chartsDerivations" + "." + (system + "." + (repo + "." + chart)))
  {
  }

  lemma SystemRepoChart(system: string, repo: string, chart: string)
    requires '.' !in system && '.' !in repo && '.' !in chart
    ensures PyStr.Split(system + "." + (repo + "." + chart), '.') == [system, repo, chart]
  {
    var r3 := repo + "." + chart;
    PyStr.SplitCons(system, '.', r3);
    PyStr.SplitCons(repo, '.', chart);
    assert PyStr.IndexOf(chart, '.') == |chart|;
    assert [system] + ([repo] + [chart]) == [system, repo, chart];
  }

  /** Different charts, or different systems, are built from different
      targets. */
  lemma TargetInjective(s1: string, r1: string, c1: string, s2: string, r2: string, c2: string)
    requires '.' !in s1 && '.' !in r1 && '.' !in c1
    requires '.' !in s2 && '.' !in r2 && '.' !in c2
    requires Target(s1, r1, c1) == Target(s2, r2, c2)
    ensures s1 == s2 && r1 == r2 && c1 == c2
  {
    TargetParts(s1, r1, c1);
    TargetParts(s2, r2, c2);
    var parts := PyStr.Split(Target(s1, r1, c1), '.');
    assert parts[2] == s1 && parts[3] == r1 && parts[4] == c1;
    assert parts[2] == s2 && parts[3] == r2 && parts[4] == c2;
  }

  /* ---------------------------------------------------------------- */
  /* The hash in a failed build's output                               */
  /* ---------------------------------------------------------------- */

  const GotTag: string := "got:"
  const HashTag: string := "sha256-"
  const MismatchMarker: string := "hash mismatch"

  /** The end of the whitespace run that starts at `i`. */
  function SpaceRun(s: string, i: nat): (j: nat)
    requires i <= |s|
    ensures i <= j <= |s|
    ensures forall k :: i <= k < j ==> PyStr.IsSpace(s[k])
    ensures j < |s| ==> !PyStr.IsSpace(s[j])
    decreases |s| - i
  {
    if i < |s| && PyStr.IsSpace(s[i]) then SpaceRun(s, i + 1) else i
  }

  /** The end of the non-whitespace run that starts at `i`. */
  function WordRun(s: string, i: nat): (j: nat)
    requires i <= |s|
    ensures i <= j <= |s|
    ensures forall k :: i <= k < j ==> !PyStr.IsSpace(s[k])
    ensures j < |s| ==> PyStr.IsSpace(s[j])
    decreases |s| - i
  {
    if i < |s| && !PyStr.IsSpace(s[i]) then WordRun(s, i + 1) else i
  }

  /** A whitespace run from `i` that ends at `r` is the one `SpaceRun`
      finds. */
  lemma SpaceRunEnds(s: string, i: nat, r: nat)
    requires i <= r < |s| && !PyStr.IsSpace(s[r])
    requires forall k :: i <= k < r ==> PyStr.IsSpace(s[k])
    ensures SpaceRun(s, i) == r
  {
  }

  /** A word from `i` that ends at `e`, at the end of the text or at a
      whitespace character, is the one `WordRun` finds. */
  lemma WordRunEnds(s: string, i: nat, e: nat)
    requires i <= e <= |s| && (e == |s| || PyStr.IsSpace(s[e]))
    requires forall k :: i <= k < e ==> !PyStr.IsSpace(s[k])
    ensures WordRun(s, i) == e
  {
  }

  /** The `hash` group of `got:\s+(?P<hash>sha256-\S+)` matched at `p`, if
      the pattern matches there. */
  function MatchAt(s: string, p: nat): Option<string>
    requires p <= |s|
  {
    if !PyStr.OccursAt(s, GotTag, p) then None
    else
      var r := SpaceRun(s, p + |GotTag|);
      if r == p + |GotTag| || !PyStr.OccursAt(s, HashTag, r) then None
      else
        var e := WordRun(s, r + |HashTag|);
        if e == r + |HashTag| then None else Some(s[r..e])
  }

  /** The group of the leftmost match at or after `p`. */
  function Search(s: string, p: nat): Option<string>
    requires p <= |s|
    decreases |s| - p
  {
    var m := MatchAt(s, p);
    if m.Some? then m else if p == |s| then None else Search(s, p + 1)
  }

  /** `_parse_build_mismatch_hash(output)` */
  function ParseBuildMismatchHash(output: string): Option<string>
  {
    if PyStr.Contains(output, MismatchMarker) then Search(output, 0) else None
  }

  /** What the pattern means: at `p` stands `got:`, then at least one
      whitespace character, then `h`, which is `sha256-` followed by a
      non-empty run of non-whitespace that the end of the text or a
      whitespace character ends. */
  ghost predicate MatchesAt(s: string, p: nat, h: string)
  {
    PyStr.OccursAt(s, GotTag, p) && exists r: nat :: MatchesWith(s, p, h, r)
  }

  /** `MatchesAt` with the position `r` of `h` given. */
  ghost predicate MatchesWith(s: string, p: nat, h: string, r: nat)
  {
    p + |GotTag| < r && PyStr.OccursAt(s, h, r)
    && (forall k :: p + |GotTag| <= k < r ==> PyStr.IsSpace(s[k]))
    && |h| > |HashTag| && h[..|HashTag|] == HashTag && PyStr.NoSpace(h)
    && (r + |h| == |s| || PyStr.IsSpace(s[r + |h|]))
  }

  /** The positions `MatchAt` computes: the end `r` of the whitespace after
      `got:` and the end `e` of the word after `sha256-`. */
  lemma MatchAtParts(s: string, p: nat)
    requires p <= |s| && PyStr.OccursAt(s, GotTag, p)
    ensures var r := SpaceRun(s, p + |GotTag|);
      var e := if r + |HashTag| <= |s| then WordRun(s, r + |HashTag|) else r;
      MatchAt(s, p).Some?
      <==> r > p + |GotTag| && PyStr.OccursAt(s, HashTag, r) && e > r + |HashTag|
    ensures var r := SpaceRun(s, p + |GotTag|);
      MatchAt(s, p).Some? ==> MatchAt(s, p).value == s[r..WordRun(s, r + |HashTag|)]
  {
  }

  /** `MatchAt` with its positions given. */
  lemma MatchAtOf(s: string, p: nat, r: nat, e: nat)
    requires p <= |s| && PyStr.OccursAt(s, GotTag, p)
    requires r == SpaceRun(s, p + |GotTag|) && r > p + |GotTag| && PyStr.OccursAt(s, HashTag, r)
    requires e == WordRun(s, r + |HashTag|) && e > r + |HashTag|
    ensures MatchAt(s, p) == Some(s[r..e])
  {
  }

  /** `sha256-` holds no whitespace. */
  lemma HashTagNoSpace()
    ensures PyStr.NoSpace(HashTag)
  {
    assert forall k :: 0 <= k < |HashTag| ==> HashTag[k] in "sha256-";
  }

  /** `MatchAt` finds exactly the matches at `p`. */
  lemma MatchAtSound(s: string, p: nat)
    requires p <= |s| && MatchAt(s, p).Some?
    ensures MatchesAt(s, p, MatchAt(s, p).value)
  {
    MatchAtParts(s, p);
    var r := SpaceRun(s, p + |GotTag|);
    var e := WordRun(s, r + |HashTag|);
    var h := s[r..e];
    assert h[..|HashTag|] == HashTag by {
      assert h[..|HashTag|] == s[r..r + |HashTag|];
    }
    assert PyStr.NoSpace(h) by {
      HashTagNoSpace();
      forall k | 0 <= k < |h|
        ensures !PyStr.IsSpace(h[k])
      {
        if k < |HashTag| {
          assert h[k] == h[..|HashTag|][k];
        } else {
          assert h[k] == s[r + k];
        }
      }
    }
    assert PyStr.OccursAt(s, h, r);
    assert MatchesWith(s, p, h, r);
  }

  lemma MatchAtComplete(s: string, p: nat, h: string)
    requires p <= |s| && MatchesAt(s, p, h)
    ensures MatchAt(s, p) == Some(h)
  {
    var r: nat :| MatchesWith(s, p, h, r);
    MatchAtWith(s, p, h, r);
  }

  lemma MatchAtWith(s: string, p: nat, h: string, r: nat)
    requires p <= |s| && PyStr.OccursAt(s, GotTag, p) && MatchesWith(s, p, h, r)
    ensures MatchAt(s, p) == Some(h)
  {
    PyStr.OccursAtChars(s, h, r, |HashTag|);
    assert !PyStr.IsSpace(s[r]) by {
      assert s[r] == h[0];
    }
    SpaceRunEnds(s, p + |GotTag|, r);
    forall k | r + |HashTag| <= k < r + |h|
      ensures !PyStr.IsSpace(s[k])
    {
      assert s[r + (k - r)] == h[k - r];
    }
    WordRunEnds(s, r + |HashTag|, r + |h|);
    MatchAtOf(s, p, r, r + |h|);
  }

  /** `Search` finds the leftmost match at or after `p`, and nothing when
      there is none. */
  lemma {:induction false} SearchSpec(s: string, p: nat)
    requires p <= |s|
    ensures Search(s, p).Some? ==>
      exists q :: p <= q <= |s| && MatchesAt(s, q, Search(s, p).value)
        && forall q', h' :: p <= q' < q ==> !MatchesAt(s, q', h')
    ensures Search(s, p).None? ==> forall q, h :: p <= q <= |s| ==> !MatchesAt(s, q, h)
    decreases |s| - p
  {
    if MatchAt(s, p).Some? {
      MatchAtSound(s, p);
    } else {
      forall h | MatchesAt(s, p, h)
        ensures false
      {
        MatchAtComplete(s, p, h);
      }
      if p < |s| {
        SearchSpec(s, p + 1);
        if Search(s, p).Some? {
          var q :| p + 1 <= q <= |s| && MatchesAt(s, q, Search(s, p).value)
            && forall q', h' :: p + 1 <= q' < q ==> !MatchesAt(s, q', h');
          assert forall q', h' :: p <= q' < q ==> !MatchesAt(s, q', h');
        }
      }
    }
  }

  /** Without `hash mismatch` in the output there is no hash, whatever else
      it holds; with it, the hash is the group of the leftmost match of the
      pattern, `sha256-` and a maximal run of non-whitespace that occurs in
      the output, and there is none only when the pattern matches nowhere. */
  lemma ParseBuildMismatchHashSpec(output: string)
    ensures !PyStr.Contains(output, MismatchMarker) ==> ParseBuildMismatchHash(output).None?
    ensures ParseBuildMismatchHash(output).Some? ==>
      var h := ParseBuildMismatchHash(output).value;
      PyStr.Contains(output, MismatchMarker) && PyStr.Contains(output, h)
      && |h| > |HashTag| && h[..|HashTag|] == HashTag && PyStr.NoSpace(h)
      && (exists q :: 0 <= q <= |output| && MatchesAt(output, q, h)
            && forall q', h' :: 0 <= q' < q ==> !MatchesAt(output, q', h'))
    ensures PyStr.Contains(output, MismatchMarker) && ParseBuildMismatchHash(output).None? ==>
      forall q, h :: 0 <= q <= |output| ==> !MatchesAt(output, q, h)
  {
    if PyStr.Contains(output, MismatchMarker) {
      SearchSpec(output, 0);
      if Search(output, 0).Some? {
        var h := Search(output, 0).value;
        var q :| 0 <= q <= |output| && MatchesAt(output, q, h)
          && forall q', h' :: 0 <= q' < q ==> !MatchesAt(output, q', h');
        var r: nat :| q + |GotTag| < r && PyStr.OccursAt(output, h, r)
          && |h| > |HashTag| && h[..|HashTag|] == HashTag && PyStr.NoSpace(h);
        assert PyStr.Contains(output, h);
      }
    }
  }

  /* ---------------------------------------------------------------- */
  /* Hash discovery                                                    */
  /* ---------------------------------------------------------------- */

  /** `get_hash`, given what the build reported and what `nix derivation
      show` reports: a build that succeeded means the current hash is
      right, and a failed one should name the right hash in its output. */
  function HashOf(repo: string, chart: string, build: Process, derivationHash: Result<string>): Result<string>
  {
    if build.exitCode == 0 then derivationHash
    else
      match ParseBuildMismatchHash(build.stderr)
      case Some(h) => Ok(h)
      case None => Err(HashExtractionFailed(repo, chart, build.stderr))
  }

  /** A successful build yields the derivation's hash whatever its output;
      a failed one never looks at the derivation and yields the hash found
      in its output, or an error naming the chart and carrying the whole
      output. */
  lemma HashOfSpec(repo: string, chart: string, build: Process, derivationHash: Result<string>)
    ensures build.exitCode == 0 ==> HashOf(repo, chart, build, derivationHash) == derivationHash
    ensures build.exitCode != 0 ==>
      forall other :: HashOf(repo, chart, build, derivationHash) == HashOf(repo, chart, build, other)
    ensures build.exitCode != 0 && HashOf(repo, chart, build, derivationHash).Ok? ==>
      Some(HashOf(repo, chart, build, derivationHash).value) == ParseBuildMismatchHash(build.stderr)
    ensures build.exitCode != 0 && HashOf(repo, chart, build, derivationHash).Err? ==>
      ParseBuildMismatchHash(build.stderr).None?
      && HashOf(repo, chart, build, derivationHash).error == HashExtractionFailed(repo, chart, build.stderr)
  {
  }

  /** `get_chart(repo, chart)`: the metadata Nix evaluates from the chart's
      file; evaluation fails when the file is missing or not of the
      template's shape. */
  function GetChart(files: map<Path, string>, repo: string, chart: string): Result<ChartMetadata>
  {
    var path := ChartPath(repo, chart);
    if path !in files then Err(CommandFailed(MetadataTarget(repo, chart), 1))
    else
      match Decode(files[path])
      case Some(m) => Ok(m)
      case None => Err(CommandFailed(MetadataTarget(repo, chart), 1))
  }

  /** After a record is written, Nix reads back its escaped form. */
  lemma GetChartWritten(files: map<Path, string>, repo: string, chart: string, m: ChartMetadata)
    ensures GetChart(files[ChartPath(repo, chart) := Render(m)], repo, chart) == Ok(Escaped(m))
  {
    DecodeRender(m);
  }

  /** The Nix commands of one process, with the memo cell of
      `current_system`. */
  class NixEnv {
    /** What `nix eval --impure --expr builtins.currentSystem` prints. */
    const evalOutput: string
    /** The cached `current_system()` result. */
    var systemCache: Option<string>
    /** How often `nix eval` has been run for the system. */
    ghost var evalRuns: nat

    predicate Valid()
      reads this
    {
      systemCache.Some? ==> systemCache.value == NormaliseSystem(evalOutput)
    }

    constructor(evalOutput: string)
      ensures Valid() && this.evalOutput == evalOutput && systemCache.None? && evalRuns == 0
    {
      this.evalOutput := evalOutput;
      systemCache := None;
      evalRuns := 0;
    }

    /** `current_system()`: runs `nix eval` on the first call only. */
    method CurrentSystem() returns (system: string)
      requires Valid()
      modifies this
      ensures Valid() && system == NormaliseSystem(evalOutput) && systemCache == Some(system)
      ensures evalRuns == old(evalRuns) + (if old(systemCache).None? then 1 else 0)
    {
      if systemCache.None? {
        evalRuns := evalRuns + 1;
        systemCache := Some(NormaliseSystem(evalOutput));
      }
      system := systemCache.value;
    }

    /** `current_system.cache_clear()` */
    method CacheClear()
      modifies this
      ensures Valid() && systemCache.None? && evalRuns == old(evalRuns)
    {
      systemCache := None;
    }

    /** `build_chart(repo, chart, raise_on_error=False)` */
    method BuildChart(files: map<Path, string>, repo: string, chart: string, build: Build) returns (p: Process)
      requires Valid()
      modifies this
      ensures Valid() && systemCache == Some(NormaliseSystem(evalOutput))
      ensures evalRuns == old(evalRuns) + (if old(systemCache).None? then 1 else 0)
      ensures p == build(files, Target(NormaliseSystem(evalOutput), repo, chart))
    {
      var system := CurrentSystem();
      p := build(files, Target(system, repo, chart));
    }

    /** `get_hash_derivation(repo, chart)` */
    method GetHashDerivation(files: map<Path, string>, repo: string, chart: string, show: ShowHash)
      returns (r: Result<string>)
      requires Valid()
      modifies this
      ensures Valid() && systemCache == Some(NormaliseSystem(evalOutput))
      ensures evalRuns == old(evalRuns) + (if old(systemCache).None? then 1 else 0)
      ensures r == show(files, Target(NormaliseSystem(evalOutput), repo, chart))
    {
      var system := CurrentSystem();
      r := show(files, Target(system, repo, chart));
    }

    /** `get_hash(repo, chart)`: build, and on success ask the derivation
        for its hash, on failure read the hash from the build's output.
        Both commands use the same target. */
    method GetHash(files: map<Path, string>, repo: string, chart: string, build: Build, show: ShowHash)
      returns (r: Result<string>)
      requires Valid()
      modifies this
      ensures Valid() && systemCache == Some(NormaliseSystem(evalOutput))
      ensures evalRuns == old(evalRuns) + (if old(systemCache).None? then 1 else 0)
      ensures var target := Target(NormaliseSystem(evalOutput), repo, chart);
        r == HashOf(repo, chart, build(files, target), show(files, target))
    {
      var result := BuildChart(files, repo, chart, build);
      if result.exitCode == 0 {
        r := GetHashDerivation(files, repo, chart, show);
        return;
      }
      var hash := ParseBuildMismatchHash(result.stderr);
      if hash.None? {
        return Err(HashExtractionFailed(repo, chart, result.stderr));
      }
      r := Ok(hash.value);
    }
  }
}
