/** The metadata a chart file records: the repository URL, the chart name,
    the pinned version and the hash of the fetched chart. The record is
    frozen, unknown keys are ignored when it is built from a mapping, and an
    update is a copy in which only the named fields change. */
module ChartMetadatas {
  import opened Outcomes

  datatype ChartMetadata = ChartMetadata(repo: string, chart: string, version: string, chartHash: string)

  /** The field names, in declaration order. */
  const FieldNames: seq<string> := ["repo", "chart", "version", "chartHash"]

  /** The field called `name`, if the record has one. */
  function Get(m: ChartMetadata, name: string): Option<string>
  {
    if name == "repo" then Some(m.repo)
    else if name == "chart" then Some(m.chart)
    else if name == "version" then Some(m.version)
    else if name == "chartHash" then Some(m.chartHash)
    else None
  }

  /** The record as a mapping from field name to value. */
  function ToMapping(m: ChartMetadata): (data: map<string, string>)
    ensures data.Keys == {"repo", "chart", "version", "chartHash"}
    ensures forall name :: name in data ==> Get(m, name) == Some(data[name])
  {
    map["repo" := m.repo, "chart" := m.chart, "version" := m.version, "chartHash" := m.chartHash]
  }

  /** The fields `data` lacks, in declaration order. */
  function Missing(data: map<string, string>): seq<string>
  {
    (if "repo" in data then [] else ["repo"]) + (if "chart" in data then [] else ["chart"])
    + (if "version" in data then [] else ["version"]) + (if "chartHash" in data then [] else ["chartHash"])
  }

  /** `ChartMetadata(**data)`: fails naming every missing field, and
      ignores every key that is not a field. */
  function FromMapping(data: map<string, string>): Result<ChartMetadata>
  {
    var missing := Missing(data);
    if |missing| > 0 then Err(MissingFields(missing))
    else Ok(ChartMetadata(data["repo"], data["chart"], data["version"], data["chartHash"]))
  }

  /** Construction succeeds exactly when every field is present and takes
      each field verbatim; otherwise the one error names exactly the
      missing fields. */
  lemma FromMappingSpec(data: map<string, string>)
    ensures FromMapping(data).Ok? <==> forall i :: 0 <= i < |FieldNames| ==> FieldNames[i] in data
    ensures FromMapping(data).Ok? ==>
      forall name :: name in FieldNames ==> Get(FromMapping(data).value, name) == Some(data[name])
    ensures FromMapping(data).Err? ==>
      FromMapping(data).error.MissingFields?
      && forall name :: name in FromMapping(data).error.fields <==> name in FieldNames && name !in data
  {
    assert FieldNames == ["repo", "chart", "version", "chartHash"];
    assert FieldNames[0] == "repo" && FieldNames[1] == "chart";
    assert FieldNames[2] == "version" && FieldNames[3] == "chartHash";
  }

  /** Keys that are not fields make no difference. */
  lemma ExtraKeysIgnored(data: map<string, string>, key: string, value: string)
    requires key !in FieldNames
    ensures FromMapping(data[key := value]) == FromMapping(data)
  {
    assert key != "repo" && key != "chart" && key != "version" && key != "chartHash" by {
      assert FieldNames[0] == "repo" && FieldNames[1] == "chart";
      assert FieldNames[2] == "version" && FieldNames[3] == "chartHash";
    }
  }

  /** Reading a record's own mapping gives the record back. */
  lemma FromToMapping(m: ChartMetadata)
    ensures FromMapping(ToMapping(m)) == Ok(m)
  {
    var data := ToMapping(m);
    assert "repo" in data && "chart" in data && "version" in data && "chartHash" in data;
  }

  /** The value of field `name` after an update that may name it. */
  function Updated(update: map<string, string>, name: string, current: string): string
  {
    if name in update then update[name] else current
  }

  /** `m.model_copy(update=update)`: a new record in which the named fields
      take their new values. */
  function ModelCopy(m: ChartMetadata, update: map<string, string>): ChartMetadata
  {
    ChartMetadata(
      Updated(update, "repo", m.repo),
      Updated(update, "chart", m.chart),
      Updated(update, "version", m.version),
      Updated(update, "chartHash", m.chartHash))
  }

  /** Only the fields named in the update change. */
  lemma ModelCopyFields(m: ChartMetadata, update: map<string, string>, name: string)
    requires name in FieldNames
    ensures Get(ModelCopy(m, update), name) == (if name in update then Some(update[name]) else Get(m, name))
  {
    assert FieldNames == ["repo", "chart", "version", "chartHash"];
  }

  /** An empty update copies the record unchanged. */
  lemma ModelCopyEmpty(m: ChartMetadata)
    ensures ModelCopy(m, map[]) == m
  {
    var empty: map<string, string> := map[];
    assert "repo" !in empty && "chart" !in empty && "version" !in empty && "chartHash" !in empty;
  }

  /** Two successive copies are one copy with the merged update, the later
      values winning. */
  lemma ModelCopyCompose(m: ChartMetadata, first: map<string, string>, second: map<string, string>)
    ensures ModelCopy(ModelCopy(m, first), second) == ModelCopy(m, first + second)
  {
  }

  /** Records are equal exactly when all four fields are. */
  lemma EqualityFieldwise(a: ChartMetadata, b: ChartMetadata)
    ensures a == b <==> forall name :: name in FieldNames ==> Get(a, name) == Get(b, name)
  {
    if forall name :: name in FieldNames ==> Get(a, name) == Get(b, name) {
      assert FieldNames == ["repo", "chart", "version", "chartHash"];
      assert Get(a, "repo") == Get(b, "repo") && Get(a, "chart") == Get(b, "chart");
      assert Get(a, "version") == Get(b, "version") && Get(a, "chartHash") == Get(b, "chartHash");
    }
  }
}
