/**
 * Narrowing of the retrieved documents to individual solutions, and the
 * retrieval-only recommendation used for evaluation.
 */
module CandidateFilter {
  import opened Wrappers
  import opened Json
  import opened Seqs
  import opened Catalog
  import opened Urls

  /** A document whose solution type is "individual"; a missing type counts as individual. */
  predicate IsIndividual(d: Document) {
    Get(d.metadata, SolutionTypeKey, Individual) == Individual
  }

  /** A document is individual exactly when its solution type is absent or is "individual". */
  lemma IndividualByType(d: Document)
    ensures IsIndividual(d) <==> SolutionTypeKey !in d.metadata || d.metadata[SolutionTypeKey] == Individual
  {
  }

  /** The individual documents, in retrieval order. */
  function KeepIndividual(docs: seq<Document>): (r: seq<Document>)
    ensures |r| <= |docs|
    ensures forall i :: 0 <= i < |r| ==> IsIndividual(r[i]) && r[i] in docs
  {
    if docs == [] then []
    else if IsIndividual(docs[0]) then [docs[0]] + KeepIndividual(docs[1..])
    else KeepIndividual(docs[1..])
  }

  /** Filtering a concatenation filters each part: the relative order of the kept documents is the retrieval order. */
  lemma {:induction false} KeepIndividualConcat(xs: seq<Document>, ys: seq<Document>)
    ensures KeepIndividual(xs + ys) == KeepIndividual(xs) + KeepIndividual(ys)
  {
    if xs == [] {
      assert xs + ys == ys;
    } else {
      assert (xs + ys)[0] == xs[0];
      assert (xs + ys)[1..] == xs[1..] + ys;
      KeepIndividualConcat(xs[1..], ys);
    }
  }

  /** A document is kept exactly when it was retrieved and is individual. */
  lemma {:induction false} KeepIndividualMembers(docs: seq<Document>, d: Document)
    ensures d in KeepIndividual(docs) <==> d in docs && IsIndividual(d)
  {
    if docs != [] {
      KeepIndividualMembers(docs[1..], d);
      assert d in docs <==> d == docs[0] || d in docs[1..];
    }
  }

  /** Nothing is dropped when every document is individual. */
  lemma {:induction false} KeepAllIndividual(docs: seq<Document>)
    requires forall i :: 0 <= i < |docs| ==> IsIndividual(docs[i])
    ensures KeepIndividual(docs) == docs
  {
    if docs != [] {
      KeepAllIndividual(docs[1..]);
    }
  }

  /**
   * The candidates: the individual documents, or all retrieved documents when
   * none is individual.
   */
  function FilterCandidates(docs: seq<Document>): (r: seq<Document>)
    ensures r == [] <==> docs == []
    ensures |r| <= |docs|
    ensures (exists i :: 0 <= i < |docs| && IsIndividual(docs[i])) ==>
              forall i :: 0 <= i < |r| ==> IsIndividual(r[i])
    ensures (forall i :: 0 <= i < |docs| ==> !IsIndividual(docs[i])) ==> r == docs
    ensures forall i :: 0 <= i < |r| ==> r[i] in docs
  {
    NoneKept(docs);
    var kept := KeepIndividual(docs);
    if kept == [] then docs else kept
  }

  /** Nothing survives the filter exactly when no document is individual. */
  lemma NoneKept(docs: seq<Document>)
    ensures KeepIndividual(docs) == [] <==> forall i :: 0 <= i < |docs| ==> !IsIndividual(docs[i])
  {
    if KeepIndividual(docs) == [] {
      forall i | 0 <= i < |docs|
        ensures !IsIndividual(docs[i])
      {
        KeepIndividualMembers(docs, docs[i]);
      }
    } else {
      var d := KeepIndividual(docs)[0];
      KeepIndividualMembers(docs, d);
      var i :| 0 <= i < |docs| && docs[i] == d;
    }
  }

  /** Documents built from a catalog whose entries all carry the default are filtered on their stored type. */
  lemma FilledEntriesKeepType(data: seq<Entry>, docs: seq<Document>)
    requires |docs| == |data|
    requires forall i :: 0 <= i < |docs| ==> docs[i].metadata == FillAll(data)[i]
    ensures forall i :: 0 <= i < |docs| ==>
              (IsIndividual(docs[i]) <==> FillAll(data)[i][SolutionTypeKey] == Individual)
    ensures forall i :: 0 <= i < |docs| && SolutionTypeKey !in data[i] ==> IsIndividual(docs[i])
  {
  }

  /** The url of a document as the raw recommendation reads it: `""` when absent. */
  function UrlOf(d: Document): Value {
    Get(d.metadata, "url", Str(""))
  }

  /** `u.rstrip("/").lower()` of every url, failing when one is not a string. */
  function NormalizedUrls(docs: seq<Document>): (r: Result<seq<string>>)
    ensures r.Ok? <==> forall i :: 0 <= i < |docs| ==> UrlOf(docs[i]).Str?
    ensures r.Err? ==> r.error == AttributeError
    ensures r.Ok? ==> |r.value| == |docs|
    ensures r.Ok? ==> forall i :: 0 <= i < |docs| ==> r.value[i] == NormalizeUrl(UrlOf(docs[i]).s)
  {
    if docs == [] then Ok([])
    else
      var u := UrlOf(docs[0]);
      if !u.Str? then Err(AttributeError)
      else
        match NormalizedUrls(docs[1..])
        case Err(e) => Err(e)
        case Ok(rest) => Ok([NormalizeUrl(u.s)] + rest)
  }

  /**
   * Retrieval without reranking: the normalised urls of the first `k`
   * candidates (Python's `[:k]`); a url that is not a string among them raises.
   */
  function RecommendRaw(docs: seq<Document>, k: int): (r: Result<seq<string>>)
    ensures var top := SliceTo(FilterCandidates(docs), k);
            (r.Ok? <==> forall i :: 0 <= i < |top| ==> UrlOf(top[i]).Str?) &&
            (r.Err? ==> r.error == AttributeError) &&
            (r.Ok? ==> |r.value| == |top| && forall i :: 0 <= i < |top| ==> r.value[i] == NormalizeUrl(UrlOf(top[i]).s))
    ensures r.Ok? ==> |r.value| <= |FilterCandidates(docs)|
    ensures r.Ok? && k >= 0 ==> |r.value| <= k
    ensures r.Ok? ==> forall i :: 0 <= i < |r.value| ==>
              var u := r.value[i]; (u == [] || u[|u| - 1] != '/') && NormalizeUrl(u) == u
  {
    var top := SliceTo(FilterCandidates(docs), k);
    var r := NormalizedUrls(top);
    if r.Ok? then
      forall i | 0 <= i < |r.value|
        ensures NormalizeUrl(r.value[i]) == r.value[i]
      {
        NormalizeUrlIdempotent(UrlOf(top[i]).s);
      }
      r
    else
      r
  }

  /**
   * The raw recommendation fails only on a candidate whose url is not a
   * string: the urls of documents the filter drops are never read.
   */
  lemma RecommendRawSucceeds(docs: seq<Document>, k: int)
    requires forall i :: 0 <= i < |FilterCandidates(docs)| ==> UrlOf(FilterCandidates(docs)[i]).Str?
    ensures RecommendRaw(docs, k).Ok?
    ensures |RecommendRaw(docs, k).value| == |SliceTo(FilterCandidates(docs), k)|
  {
    var top := SliceTo(FilterCandidates(docs), k);
    forall i | 0 <= i < |top|
      ensures UrlOf(top[i]).Str?
    {
      assert top[i] == FilterCandidates(docs)[i];
    }
  }
}
