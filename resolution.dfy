/**
 * Resolution of the selected candidate positions into output records with
 * exactly the fields of the recommendation schema.
 */
module Resolution {
  import opened Wrappers
  import opened Json
  import opened Seqs
  import opened Catalog
  import opened FieldNormalizer
  import opened TestTypes

  /** One recommendation as returned by the service. */
  datatype Recommendation = Recommendation(
    name: Value,
    url: Value,
    description: Value,
    duration: int,
    remoteSupport: string,
    adaptiveSupport: string,
    testType: seq<string>)

  /** The remote-support flag: `remote_testing_support`, else `remote_support`, else "No". */
  function RemoteFlag(m: Entry): Value {
    Get(m, "remote_testing_support", Get(m, "remote_support", Str("No")))
  }

  /** The adaptive-support flag: `adaptive_irt_support`, else `adaptive_support`, else "No". */
  function AdaptiveFlag(m: Entry): Value {
    Get(m, "adaptive_irt_support", Get(m, "adaptive_support", Str("No")))
  }

  /** The record of one candidate's metadata, given the codes of its test types. */
  function Assemble(m: Entry, codes: seq<string>): Recommendation {
    Recommendation(
      Get(m, "name", Str("")),
      Get(m, "url", Str("")),
      Get(m, "description", Str("")),
      ParseDurationMinutes(Get(m, "duration", Null)),
      NormalizeYesNo(RemoteFlag(m)),
      NormalizeYesNo(AdaptiveFlag(m)),
      codes)
  }

  /** The record of one candidate's metadata; fails when its test types cannot be iterated. */
  function RecordOf(m: Entry): (r: Result<Recommendation>)
    ensures r.Err? <==> TestTypeCodes(Get(m, "test_types", List([]))).Err?
    ensures r.Ok? ==> r.value.url == Get(m, "url", Str("")) && r.value.name == Get(m, "name", Str(""))
  {
    match TestTypeCodes(Get(m, "test_types", List([])))
    case Err(e) => Err(e)
    case Ok(codes) => Ok(Assemble(m, codes))
  }

  /**
   * A record's flags are "Yes" or "No", its test types are distinct one-letter
   * codes, and a missing duration is reported as 0.
   */
  lemma RecordShape(m: Entry)
    ensures RecordOf(m).Ok? ==> RecordOf(m).value.remoteSupport in {"Yes", "No"}
    ensures RecordOf(m).Ok? ==> RecordOf(m).value.adaptiveSupport in {"Yes", "No"}
    ensures RecordOf(m).Ok? ==> Distinct(RecordOf(m).value.testType)
    ensures RecordOf(m).Ok? ==> forall c :: c in RecordOf(m).value.testType ==> IsCode(c)
    ensures RecordOf(m).Ok? && "duration" !in m ==> RecordOf(m).value.duration == 0
  {
  }

  /** The remote flag prefers `remote_testing_support`, then `remote_support`, then "No"; likewise the adaptive flag. */
  lemma FlagFallbacks(m: Entry)
    ensures "remote_testing_support" in m ==> RemoteFlag(m) == m["remote_testing_support"]
    ensures "remote_testing_support" !in m && "remote_support" in m ==> RemoteFlag(m) == m["remote_support"]
    ensures "remote_testing_support" !in m && "remote_support" !in m ==> NormalizeYesNo(RemoteFlag(m)) == "No"
    ensures "adaptive_irt_support" in m ==> AdaptiveFlag(m) == m["adaptive_irt_support"]
    ensures "adaptive_irt_support" !in m && "adaptive_support" in m ==> AdaptiveFlag(m) == m["adaptive_support"]
    ensures "adaptive_irt_support" !in m && "adaptive_support" !in m ==> NormalizeYesNo(AdaptiveFlag(m)) == "No"
  {
    YesNoOfNo();
  }

  /** The record of one candidate, computing its test-type codes with the loop. */
  method ToRecord(m: Entry) returns (r: Result<Recommendation>)
    ensures r == RecordOf(m)
  {
    var codes := MapTestTypesToCodes(Get(m, "test_types", List([])));
    if codes.Err? {
      return Err(codes.error);
    }
    r := Ok(Assemble(m, codes.value));
  }

  /** The keys of a record as a JSON object. */
  const OutputFields: set<string> :=
    {"name", "url", "description", "duration", "remote_support", "adaptive_support", "test_type"}

  /** A record as the JSON object the service returns. */
  function AsObject(rec: Recommendation): (r: map<string, Value>)
    ensures r.Keys == OutputFields
  {
    map[
      "name" := rec.name,
      "url" := rec.url,
      "description" := rec.description,
      "duration" := Int(rec.duration),
      "remote_support" := Str(rec.remoteSupport),
      "adaptive_support" := Str(rec.adaptiveSupport),
      "test_type" := List(seq(|rec.testType|, i requires 0 <= i < |rec.testType| => Str(rec.testType[i])))]
  }

  /** The output schema has seven fields, none of them the catalog's solution type. */
  lemma OutputFieldCount()
    ensures |OutputFields| == 7
    ensures SolutionTypeKey !in OutputFields
  {
    var first: set<string> := {"name", "url", "description"};
    var second: set<string> := {"duration", "remote_support"};
    var third: set<string> := {"adaptive_support", "test_type"};
    assert |first| == 3;
    assert |second| == 2;
    assert |third| == 2;
    assert OutputFields == first + second + third;
  }

  /** Every record has exactly seven fields, and the catalog's solution type is never one of them. */
  lemma SevenFields(rec: Recommendation)
    ensures |AsObject(rec).Keys| == 7
    ensures SolutionTypeKey !in AsObject(rec)
  {
    OutputFieldCount();
  }

  /**
   * One resolution step with record builder `recordOf`: the record at 1-based
   * position `idx` appended, skipped when out of range; the first failure sticks.
   */
  function Extend<R>(recordOf: Entry -> Result<R>, acc: Result<seq<R>>, cands: seq<Document>, idx: int): Result<seq<R>> {
    match acc
    case Err(e) => Err(e)
    case Ok(recs) =>
      if 1 <= idx <= |cands| then
        match recordOf(cands[idx - 1].metadata)
        case Err(e) => Err(e)
        case Ok(rec) => Ok(recs + [rec])
      else
        Ok(recs)
  }

  /** The records of the candidates at the given 1-based positions, built by `recordOf`. */
  function PickAll<R>(recordOf: Entry -> Result<R>, cands: seq<Document>, indices: seq<int>): (r: Result<seq<R>>)
    ensures r.Ok? ==> |r.value| <= |indices|
  {
    if indices == [] then Ok([])
    else Extend(recordOf, PickAll(recordOf, cands, indices[..|indices| - 1]), cands, indices[|indices| - 1])
  }

  /** The records of the candidates at the given 1-based positions; positions out of range are skipped. */
  function ResolveAll(cands: seq<Document>, indices: seq<int>): (r: Result<seq<Recommendation>>)
    ensures r.Ok? ==> |r.value| <= |indices|
  {
    PickAll(RecordOf, cands, indices)
  }

  lemma PickAllStep<R>(recordOf: Entry -> Result<R>, cands: seq<Document>, indices: seq<int>, i: nat)
    requires i < |indices|
    ensures PickAll(recordOf, cands, indices[..i + 1]) == Extend(recordOf, PickAll(recordOf, cands, indices[..i]), cands, indices[i])
  {
    assert indices[..i + 1][..i] == indices[..i];
  }

  /** Once resolution has failed, later positions do not change the failure. */
  lemma {:induction false} PickErrSticks<R>(recordOf: Entry -> Result<R>, cands: seq<Document>, indices: seq<int>, i: nat)
    requires i <= |indices|
    requires PickAll(recordOf, cands, indices[..i]).Err?
    ensures PickAll(recordOf, cands, indices) == PickAll(recordOf, cands, indices[..i])
    decreases |indices| - i
  {
    if i < |indices| {
      PickAllStep(recordOf, cands, indices, i);
      PickErrSticks(recordOf, cands, indices, i + 1);
    } else {
      assert indices[..i] == indices;
    }
  }

  /** The body of the resolution loop: the record at 1-based position `idx` appended when in range. */
  method ResolveOne(cands: seq<Document>, recs: seq<Recommendation>, idx: int) returns (r: Result<seq<Recommendation>>)
    ensures r == Extend(RecordOf, Ok(recs), cands, idx)
  {
    if 1 <= idx <= |cands| {
      var rec := ToRecord(cands[idx - 1].metadata);
      if rec.Err? {
        return Err(rec.error);
      }
      return Ok(recs + [rec.value]);
    }
    return Ok(recs);
  }

  /** The resolution loop: one record per position, in order; the first failure ends it. */
  method Resolve(cands: seq<Document>, indices: seq<int>) returns (r: Result<seq<Recommendation>>)
    ensures r == ResolveAll(cands, indices)
  {
    r := Ok([]);
    var i := 0;
    while i < |indices| && r.Ok?
      invariant i <= |indices|
      invariant r == PickAll(RecordOf, cands, indices[..i])
    {
      PickAllStep(RecordOf, cands, indices, i);
      r := ResolveOne(cands, r.value, indices[i]);
      i := i + 1;
    }
    if r.Err? {
      PickErrSticks(RecordOf, cands, indices, i);
    } else {
      assert indices[..i] == indices;
    }
  }

  /**
   * For positions that all name a candidate, picking succeeds exactly when
   * every named candidate's record does, and then yields those records in
   * order, one per position.
   */
  lemma {:induction false} PickInRange<R>(recordOf: Entry -> Result<R>, cands: seq<Document>, indices: seq<int>)
    requires forall i :: 0 <= i < |indices| ==> 1 <= indices[i] <= |cands|
    ensures PickAll(recordOf, cands, indices).Ok? <==>
              forall i :: 0 <= i < |indices| ==> recordOf(cands[indices[i] - 1].metadata).Ok?
    ensures PickAll(recordOf, cands, indices).Ok? ==>
              |PickAll(recordOf, cands, indices).value| == |indices| &&
              forall i :: 0 <= i < |indices| ==>
                PickAll(recordOf, cands, indices).value[i] == recordOf(cands[indices[i] - 1].metadata).value
  {
    if indices != [] {
      var n := |indices| - 1;
      var init := indices[..n];
      PickInRange(recordOf, cands, init);
      var prev := PickAll(recordOf, cands, init);
      var last := recordOf(cands[indices[n] - 1].metadata);
      assert forall i :: 0 <= i < n ==> init[i] == indices[i];
      if prev.Ok? && last.Ok? {
        assert PickAll(recordOf, cands, indices).value == prev.value + [last.value];
      }
    }
  }

  /** Every position names a candidate whose record can be built. */
  predicate AllResolvable(cands: seq<Document>, indices: seq<int>) {
    forall i :: 0 <= i < |indices| ==>
      1 <= indices[i] <= |cands| && RecordOf(cands[indices[i] - 1].metadata).Ok?
  }

  /** `recs` are, in order, the records of the candidates at `indices`. */
  predicate RecordsAt(cands: seq<Document>, indices: seq<int>, recs: seq<Recommendation>) {
    |recs| == |indices| &&
    forall i :: 0 <= i < |indices| ==>
      1 <= indices[i] <= |cands| && RecordOf(cands[indices[i] - 1].metadata) == Ok(recs[i])
  }

  /**
   * For positions that all name a candidate, resolution succeeds exactly when
   * every named candidate's record does, and then yields those records in
   * order, one per position.
   */
  lemma ResolveInRange(cands: seq<Document>, indices: seq<int>)
    requires forall i :: 0 <= i < |indices| ==> 1 <= indices[i] <= |cands|
    ensures ResolveAll(cands, indices).Ok? <==> AllResolvable(cands, indices)
    ensures ResolveAll(cands, indices).Ok? ==> RecordsAt(cands, indices, ResolveAll(cands, indices).value)
  {
    PickInRange(RecordOf, cands, indices);
  }

  /** Distinct positions over candidates with distinct urls give recommendations with distinct urls. */
  lemma DistinctUrls(cands: seq<Document>, indices: seq<int>)
    requires Distinct(indices)
    requires forall i :: 0 <= i < |indices| ==> 1 <= indices[i] <= |cands|
    requires forall i, j :: 0 <= i < j < |cands| ==>
               Get(cands[i].metadata, "url", Str("")) != Get(cands[j].metadata, "url", Str(""))
    requires ResolveAll(cands, indices).Ok?
    ensures var recs := ResolveAll(cands, indices).value;
            forall i, j :: 0 <= i < j < |recs| ==> recs[i].url != recs[j].url
  {
    ResolveInRange(cands, indices);
    var recs := ResolveAll(cands, indices).value;
    forall i, j | 0 <= i < j < |recs|
      ensures recs[i].url != recs[j].url
    {
      var a, b := indices[i] - 1, indices[j] - 1;
      assert recs[i].url == Get(cands[a].metadata, "url", Str(""));
      assert recs[j].url == Get(cands[b].metadata, "url", Str(""));
      if a > b {
        assert Get(cands[b].metadata, "url", Str("")) != Get(cands[a].metadata, "url", Str(""));
      }
    }
  }
}
