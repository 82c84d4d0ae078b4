/**
 * The reranked recommendation end to end: filter the retrieved documents,
 * select positions from the reranker's reply, and resolve them into records.
 * The vector store's answer and the reranker's reply are parameters.
 */
module Recommend {
  import opened Wrappers
  import opened Seqs
  import opened Catalog
  import opened CandidateFilter
  import opened Rerank
  import opened Resolution

  /** The recommendations for the retrieved documents, given the reranker's reply: never more than ten. */
  function Recommended<E>(retrieved: seq<Document>, reply: Reply<E>, coerce: E -> Option<int>): (r: Result<seq<Recommendation>>)
    ensures r.Ok? ==> |r.value| <= MaxPicks
  {
    var cands := FilterCandidates(retrieved);
    ResolveAll(cands, Selection(reply, coerce, |cands|))
  }

  /** The recommendation pipeline, step by step as the service runs it. */
  method RecommendAssessments<E>(retrieved: seq<Document>, reply: Reply<E>, coerce: E -> Option<int>)
    returns (r: Result<seq<Recommendation>>)
    ensures r == Recommended(retrieved, reply, coerce)
  {
    var cands := FilterCandidates(retrieved);
    var n := |cands|;
    var clean, seen := NormalizeIndices(Candidates(reply, coerce, n), n);
    var filled, _ := FillToMinimum(clean, seen, n);
    var picks := SliceTo(filled, MaxPicks);
    r := Resolve(cands, picks);
  }

  /**
   * A successful recommendation has one record per selected candidate: never
   * more than ten nor more than there are candidates, and at least five when
   * there are five candidates.
   */
  lemma RecommendedShape<E>(retrieved: seq<Document>, reply: Reply<E>, coerce: E -> Option<int>)
    ensures var cands := FilterCandidates(retrieved);
            var r := Recommended(retrieved, reply, coerce);
            r.Ok? ==> |r.value| == |Selection(reply, coerce, |cands|)| &&
                      Min(MinPicks, |cands|) <= |r.value| <= MaxPicks &&
                      |r.value| <= |cands|
  {
    var cands := FilterCandidates(retrieved);
    var sel := Selection(reply, coerce, |cands|);
    SelectionWellFormed(reply, coerce, |cands|);
    assert forall i :: 0 <= i < |sel| ==> sel[i] in sel;
    ResolveInRange(cands, sel);
  }

  /**
   * The recommendation succeeds exactly when every selected candidate's record
   * does, and then holds, in order, the records of the selected candidates.
   */
  lemma RecommendedRecords<E>(retrieved: seq<Document>, reply: Reply<E>, coerce: E -> Option<int>)
    ensures var cands := FilterCandidates(retrieved);
            var sel := Selection(reply, coerce, |cands|);
            var r := Recommended(retrieved, reply, coerce);
            (r.Ok? <==> AllResolvable(cands, sel)) &&
            (r.Ok? ==> RecordsAt(cands, sel, r.value))
  {
    var cands := FilterCandidates(retrieved);
    var sel := Selection(reply, coerce, |cands|);
    SelectionWellFormed(reply, coerce, |cands|);
    assert forall i :: 0 <= i < |sel| ==> sel[i] in sel;
    ResolveInRange(cands, sel);
  }

  /** With five or more candidates a successful recommendation has between five and ten records. */
  lemma AtLeastFive<E>(retrieved: seq<Document>, reply: Reply<E>, coerce: E -> Option<int>)
    ensures |FilterCandidates(retrieved)| >= MinPicks && Recommended(retrieved, reply, coerce).Ok? ==>
              MinPicks <= |Recommended(retrieved, reply, coerce).value| <= MaxPicks
  {
    RecommendedShape(retrieved, reply, coerce);
  }

  /** Nothing retrieved, nothing recommended. */
  lemma NothingRetrieved<E>(reply: Reply<E>, coerce: E -> Option<int>)
    ensures Recommended([], reply, coerce) == Ok([])
  {
    RecommendedShape([], reply, coerce);
  }

  /** Candidates with distinct urls give recommendations with distinct urls. */
  lemma RecommendedUrlsDistinct<E>(retrieved: seq<Document>, reply: Reply<E>, coerce: E -> Option<int>)
    requires var cands := FilterCandidates(retrieved);
             forall i, j :: 0 <= i < j < |cands| ==> UrlOf(cands[i]) != UrlOf(cands[j])
    requires Recommended(retrieved, reply, coerce).Ok?
    ensures var recs := Recommended(retrieved, reply, coerce).value;
            forall i, j :: 0 <= i < j < |recs| ==> recs[i].url != recs[j].url
  {
    var cands := FilterCandidates(retrieved);
    var sel := Selection(reply, coerce, |cands|);
    SelectionWellFormed(reply, coerce, |cands|);
    assert forall i :: 0 <= i < |sel| ==> sel[i] in sel;
    assert Recommended(retrieved, reply, coerce) == ResolveAll(cands, sel);
    DistinctUrls(cands, sel);
  }
}
