/** The chart files of the repository: one `charts/<repo>/<chart>/default.nix`
    per chart, written from a four-line template whose values are
    HTML-escaped by the template engine, and read back by Nix. */
module ChartFiles {
  import opened Outcomes
  import opened ChartMetadatas
  import PyStr

  /** A path, as its segments relative to the working directory. */
  type Path = seq<string>

  const PlaceholderVersion: string := "0.0.0"

  /** `p / name` for a name without `/`: pathlib drops an empty name and a
      `.` name, leaving the path as it was. */
  function Child(p: Path, name: string): Path
  {
    if name == "" || name == "." then p else p + [name]
  }

  /** A name that adds a segment of its own. */
  predicate ProperName(name: string)
  {
    name != "" && name != "."
  }

  function RepoDir(repo: string): Path { Child(["charts"], repo) }

  function ChartDir(repo: string, chart: string): Path { Child(RepoDir(repo), chart) }

  /** `get_chart_path(repo, chart)`: the chart's directory, then
      `default.nix`; for proper names, `charts/<repo>/<chart>/default.nix`. */
  function ChartPath(repo: string, chart: string): (p: Path)
    ensures |p| > 0 && Parent(p) == ChartDir(repo, chart) && p[|p| - 1] == "default.nix"
    ensures ProperName(repo) && ProperName(chart) ==> p == ["charts", repo, chart, "default.nix"]
    ensures 2 <= |p| <= 4 && p[0] == "charts"
  {
    ChartDir(repo, chart) + ["default.nix"]
  }

  /** The directory a file is written into. */
  function Parent(p: Path): Path
  {
    if |p| == 0 then [] else p[..|p| - 1]
  }

  /** Distinct charts with proper names have distinct files. */
  lemma ChartPathInjective(repo1: string, chart1: string, repo2: string, chart2: string)
    requires ProperName(repo1) && ProperName(chart1) && ProperName(repo2) && ProperName(chart2)
    requires ChartPath(repo1, chart1) == ChartPath(repo2, chart2)
    ensures repo1 == repo2 && chart1 == chart2
  {
    assert ChartPath(repo1, chart1)[1] == repo1 && ChartPath(repo1, chart1)[2] == chart1;
  }

  /** Without proper names distinct charts share a file: an empty or `.`
      repository name and an empty chart name both leave one segment out. */
  lemma ChartPathCollision(name: string)
    requires ProperName(name)
    ensures ChartPath("", name) == ChartPath(name, "") == ChartPath(".", name) == ["charts", name, "default.nix"]
  {
  }

  /** `n` copies of `c`. */
  function Repeat(c: char, n: nat): (s: string)
    ensures |s| == n && forall i :: 0 <= i < n ==> s[i] == c
  {
    if n == 0 then [] else [c] + Repeat(c, n - 1)
  }

  /** The hash written before the real one is known: `sha256-` and 43 `A`
      and `=`, the shape of a real SHA-256 hash in base 64. */
  const PlaceholderHash: string := "sha256-" + Repeat('A', 43) + "="

  /* ---------------------------------------------------------------- */
  /* Rendering                                                         */
  /* ---------------------------------------------------------------- */

  /** The template engine's escaping of one character: `&`, `"`, `<` and
      `>` become entities. Replacing `&` first and then the other three, as
      the engine does, escapes each character of the input exactly once. */
  function EscapeChar(c: char): string
  {
    if c == '&' then "&amp;"
    else if c == '"' then "&quot;"
    else if c == '<' then "&lt;"
    else if c == '>' then "&gt;"
    else [c]
  }

  function EscapeHtml(s: string): string
  {
    if |s| == 0 then "" else EscapeChar(s[0]) + EscapeHtml(s[1..])
  }

  /** A value the escaping leaves alone. */
  predicate Plain(s: string)
  {
    forall i :: 0 <= i < |s| ==> s[i] != '&' && s[i] != '"' && s[i] != '<' && s[i] != '>'
  }

  predicate PlainRecord(m: ChartMetadata)
  {
    Plain(m.repo) && Plain(m.chart) && Plain(m.version) && Plain(m.chartHash)
  }

  /** The escaped text holds no `"`, `<` or `>`, and no `&` that does not
      start an entity. */
  lemma {:induction false} EscapeHtmlNoQuote(s: string)
    ensures '"' !in EscapeHtml(s) && '<' !in EscapeHtml(s) && '>' !in EscapeHtml(s)
    decreases |s|
  {
    if |s| > 0 {
      EscapeHtmlNoQuote(s[1..]);
    }
  }

  /** A plain value is written unchanged. */
  lemma {:induction false} EscapeHtmlPlain(s: string)
    requires Plain(s)
    ensures EscapeHtml(s) == s
    decreases |s|
  {
    if |s| > 0 {
      EscapeHtmlPlain(s[1..]);
      assert s == [s[0]] + s[1..];
    }
  }

  /** Escaping is not idempotent: an `&` is escaped again on every write. */
  lemma EscapeHtmlTwice()
    ensures EscapeHtml("&") == "&amp;"
    ensures EscapeHtml(EscapeHtml("&")) == "&amp;amp;"
  {
    assert EscapeHtml("&") == "&amp;" + EscapeHtml("");
    assert "&amp;" == ['&'] + "amp;";
    EscapeHtmlPlain("amp;");
    assert EscapeHtml("&amp;") == "&amp;" + EscapeHtml("amp;");
  }

  /** The record as the escaping turns it into. */
  function Escaped(m: ChartMetadata): ChartMetadata
  {
    ChartMetadata(EscapeHtml(m.repo), EscapeHtml(m.chart), EscapeHtml(m.version), EscapeHtml(m.chartHash))
  }

  const RepoPrefix: string := "{\n  repo = \""
  const ChartPrefix: string := "\";\n  chart = \""
  const VersionPrefix: string := "\";\n  version = \""
  const HashPrefix: string := "\";\n  chartHash = \""
  const Ending: string := "\";\n}\n"

  /** The template rendered with the record's escaped values: the lines
      `repo = "…";`, `chart = "…";`, `version = "…";` and
      `chartHash = "…";`, in that order, inside braces. */
  function Render(m: ChartMetadata): string
  {
    RepoPrefix + (EscapeHtml(m.repo) + (ChartPrefix + (EscapeHtml(m.chart) + (VersionPrefix
      + (EscapeHtml(m.version) + (HashPrefix + (EscapeHtml(m.chartHash) + Ending)))))))
  }

  /* ---------------------------------------------------------------- */
  /* Reading back                                                      */
  /* ---------------------------------------------------------------- */

  /** The value after `prefix` up to the next `"`, and the text from that
      `"` on. */
  function Field(text: string, prefix: string): Option<(string, string)>
  {
    if |prefix| <= |text| && text[..|prefix|] == prefix then
      var rest := text[|prefix|..];
      var k := PyStr.IndexOf(rest, '"');
      if k < |rest| then Some((rest[..k], rest[k..])) else None
    else None
  }

  /** The record Nix evaluates from a chart file of the template's shape;
      the quoted values are read as they stand. */
  function Decode(text: string): Option<ChartMetadata>
  {
    var repo :- Field(text, RepoPrefix);
    var chart :- Field(repo.1, ChartPrefix);
    var version :- Field(chart.1, VersionPrefix);
    var hash :- Field(version.1, HashPrefix);
    if hash.1 == Ending then Some(ChartMetadata(repo.0, chart.0, version.0, hash.0)) else None
  }

  lemma FieldOf(prefix: string, value: string, rest: string)
    requires '"' !in value && |rest| > 0 && rest[0] == '"'
    ensures Field(prefix + (value + rest), prefix) == Some((value, rest))
  {
    var text := prefix + (value + rest);
    assert text[..|prefix|] == prefix;
    assert text[|prefix|..] == value + rest;
    PyStr.IndexOfConcat(value, rest, '"');
    assert (value + rest)[..|value|] == value;
    assert (value + rest)[|value|..] == rest;
  }

  /** What Nix reads back from a written file is the escaped record; for
      plain values, the record itself. */
  lemma DecodeRender(m: ChartMetadata)
    ensures Decode(Render(m)) == Some(Escaped(m))
    ensures PlainRecord(m) ==> Decode(Render(m)) == Some(m)
  {
    var e := Escaped(m);
    EscapeHtmlNoQuote(m.repo);
    EscapeHtmlNoQuote(m.chart);
    EscapeHtmlNoQuote(m.version);
    EscapeHtmlNoQuote(m.chartHash);
    var t4 := HashPrefix + (e.chartHash + Ending);
    var t3 := VersionPrefix + (e.version + t4);
    var t2 := ChartPrefix + (e.chart + t3);
    assert Render(m) == RepoPrefix + (e.repo + t2);
    FieldOf(RepoPrefix, e.repo, t2);
    FieldOf(ChartPrefix, e.chart, t3);
    FieldOf(VersionPrefix, e.version, t4);
    FieldOf(HashPrefix, e.chartHash, Ending);
    if PlainRecord(m) {
      EscapeHtmlPlain(m.repo);
      EscapeHtmlPlain(m.chart);
      EscapeHtmlPlain(m.version);
      EscapeHtmlPlain(m.chartHash);
    }
  }

  /* ---------------------------------------------------------------- */
  /* The working tree                                                  */
  /* ---------------------------------------------------------------- */

  /** The directories and chart files of the working tree. */
  class ChartStore {
    var dirs: set<Path>
    var files: map<Path, string>

    /** Every file sits in an existing directory. */
    predicate Valid()
      reads this
    {
      forall p :: p in files ==> |p| > 0 && Parent(p) in dirs
    }

    constructor(dirs: set<Path>, files: map<Path, string>)
      requires forall p :: p in files ==> |p| > 0 && Parent(p) in dirs
      ensures Valid() && this.dirs == dirs && this.files == files
    {
      this.dirs := dirs;
      this.files := files;
    }

    /** `exists(repo, chart)` */
    predicate Exists(repo: string, chart: string)
      reads this
    {
      ChartPath(repo, chart) in files
    }

    /** `create_chart_directory(repo, chart)`: makes `charts/<repo>` (with
        its parents) and `charts/<repo>/<chart>`, keeping what exists. */
    method CreateChartDirectory(repo: string, chart: string) returns (dir: Path)
      requires Valid()
      modifies this
      ensures Valid()
      ensures dir == ChartDir(repo, chart) && Parent(ChartPath(repo, chart)) == dir
      ensures dirs == old(dirs) + {["charts"], RepoDir(repo), ChartDir(repo, chart)}
      ensures files == old(files)
    {
      dirs := dirs + {["charts"], RepoDir(repo)};
      dir := ChartDir(repo, chart);
      dirs := dirs + {dir};
    }

    /** `write_chart_file(path, m)`: replaces the file's content with the
        rendered record; fails when the directory does not exist. */
    method WriteChartFile(path: Path, m: ChartMetadata) returns (r: Result<()>)
      requires Valid()
      modifies this
      ensures Valid()
      ensures r.Ok? <==> |path| > 0 && Parent(path) in old(dirs)
      ensures r.Err? ==> r.error == FileNotFound(path)
      ensures files == (if r.Ok? then old(files)[path := Render(m)] else old(files))
      ensures dirs == old(dirs)
    {
      if |path| == 0 || Parent(path) !in dirs {
        return Err(FileNotFound(path));
      }
      files := files[path := Render(m)];
      return Ok(());
    }
  }
}
