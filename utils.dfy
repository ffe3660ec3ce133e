/** Chart identities written `repo/chart`. */
module Utils {
  import opened Outcomes
  import PyStr

  /** `parse_chart_name`: split at `/` and insist on exactly two parts. */
  function ParseChartName(name: string): Result<(string, string)>
  {
    var parts := PyStr.Split(name, '/');
    if |parts| != 2 then Err(InvalidChartName(name))
    else Ok((parts[0], parts[1]))
  }

  /** The name is accepted exactly when it holds one `/`; the two parts are
      what comes before and after it, so joining them with `/` gives the
      name back; otherwise the name is reported. */
  lemma ParseChartNameSpec(name: string)
    ensures ParseChartName(name).Ok? <==> PyStr.Count(name, '/') == 1
    ensures ParseChartName(name).Ok? ==>
      var (repo, chart) := ParseChartName(name).value;
      repo + "/" + chart == name && '/' !in repo && '/' !in chart
    ensures ParseChartName(name).Err? ==> ParseChartName(name).error == InvalidChartName(name)
  {
    var parts := PyStr.Split(name, '/');
    PyStr.SplitLength(name, '/');
    if |parts| == 2 {
      PyStr.JoinSplit(name, '/');
      PyStr.SplitPartsFree(name, '/');
      assert PyStr.Join(parts, '/') == parts[0] + ['/'] + PyStr.Join(parts[1..], '/');
      assert parts[1..] == [parts[1]];
      assert "/" == ['/'];
    }
  }

  /** Any two components without `/` round-trip, empty ones included. */
  lemma ParseJoinedName(repo: string, chart: string)
    requires '/' !in repo && '/' !in chart
    ensures ParseChartName(repo + "/" + chart) == Ok((repo, chart))
  {
    var name := repo + "/" + chart;
    assert name[..|repo|] == repo && name[|repo|] == '/' && name[|repo| + 1..] == chart;
    PyStr.IndexOfConcat(repo, "/" + chart, '/');
    assert PyStr.IndexOf(chart, '/') == |chart|;
    assert PyStr.Split(chart, '/') == [chart];
    assert PyStr.Split(name, '/') == [repo] + PyStr.Split(chart, '/');
  }

  /** `"a/"` gives `("a", "")` and `"/"` gives `("", "")`: only the number
      of parts is checked. */
  lemma EmptyComponentsAccepted()
    ensures ParseChartName("a/") == Ok(("a", ""))
    ensures ParseChartName("/") == Ok(("", ""))
  {
    assert "a/" == "a" + "/" + "";
    assert "/" == "" + "/" + "";
    ParseJoinedName("a", "");
    ParseJoinedName("", "");
  }
}
