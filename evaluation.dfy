/**
 * The offline evaluation's url normalisation and its recall at K metric.
 */
module Evaluation {
  import opened PyText
  import opened Seqs
  import opened Urls

  /** Every url with trailing slashes removed and lower-cased. */
  function Normalize(urls: seq<string>): (r: seq<string>)
    ensures |r| == |urls|
    ensures forall i :: 0 <= i < |r| ==> r[i] == NormalizeUrl(urls[i])
  {
    seq(|urls|, i requires 0 <= i < |urls| => NormalizeUrl(urls[i]))
  }

  /** Normalised urls have no trailing slash and no upper-case letter, and normalising again changes nothing. */
  lemma NormalizeCanonical(urls: seq<string>)
    ensures forall i :: 0 <= i < |urls| ==>
              var u := Normalize(urls)[i];
              (u == [] || u[|u| - 1] != '/') && forall j :: 0 <= j < |u| ==> !IsUpper(u[j])
    ensures Normalize(Normalize(urls)) == Normalize(urls)
  {
    forall i | 0 <= i < |urls|
      ensures NormalizeUrl(NormalizeUrl(urls[i])) == NormalizeUrl(urls[i])
    {
      NormalizeUrlIdempotent(urls[i]);
    }
  }

  /** The number of distinct top-`k` predictions that are relevant. */
  function Hits(predicted: seq<string>, relevant: seq<string>, k: int): nat {
    |Elems(SliceTo(predicted, k)) * Elems(relevant)|
  }

  /** A count over a positive total, as a real ratio. */
  lemma Ratio(h: nat, n: nat)
    requires 0 < n
    ensures 0.0 <= h as real / n as real
    ensures h <= n ==> h as real / n as real <= 1.0
    ensures h as real / n as real == 1.0 <==> h == n
    ensures h as real / n as real == 0.0 <==> h == 0
  {
  }

  /** A larger count over the same total is a larger ratio. */
  lemma RatioMonotone(h: nat, h': nat, n: nat)
    requires 0 < n && h <= h'
    ensures h as real / n as real <= h' as real / n as real
  {
  }

  /** The hits never exceed the distinct relevant urls, nor the relevant list. */
  lemma HitsBound(predicted: seq<string>, relevant: seq<string>, k: int)
    ensures Hits(predicted, relevant, k) <= |Elems(relevant)| <= |relevant|
  {
    SubsetCard(Elems(SliceTo(predicted, k)) * Elems(relevant), Elems(relevant));
    ElemsCard(relevant);
  }

  /**
   * The share of the relevant urls found among the first `k` predictions
   * (Python's `[:k]`), counting each distinct url once; 0 when nothing is
   * relevant. It lies between 0 and 1.
   */
  function RecallAtK(predicted: seq<string>, relevant: seq<string>, k: int): (r: real)
    ensures relevant == [] ==> r == 0.0
    ensures 0.0 <= r <= 1.0
    ensures r == 0.0 <==> Hits(predicted, relevant, k) == 0
  {
    if relevant == [] then 0.0
    else
      HitsBound(predicted, relevant, k);
      Ratio(Hits(predicted, relevant, k), |relevant|);
      Hits(predicted, relevant, k) as real / |relevant| as real
  }

  /** Recall is 1 exactly when every relevant url is among the first `k` predictions, for distinct relevant urls. */
  lemma FullRecall(predicted: seq<string>, relevant: seq<string>, k: int)
    requires relevant != [] && Distinct(relevant)
    ensures RecallAtK(predicted, relevant, k) == 1.0 <==>
              forall i :: 0 <= i < |relevant| ==> relevant[i] in SliceTo(predicted, k)
  {
    var top := Elems(SliceTo(predicted, k));
    var rel := Elems(relevant);
    ElemsCard(relevant);
    Ratio(Hits(predicted, relevant, k), |relevant|);
    if forall i :: 0 <= i < |relevant| ==> relevant[i] in SliceTo(predicted, k) {
      assert top * rel == rel;
    } else {
      var i :| 0 <= i < |relevant| && relevant[i] !in SliceTo(predicted, k);
      assert relevant[i] in rel - top * rel;
      assert rel == top * rel + (rel - top * rel);
    }
  }

  /** Recall is 0 when none of the first `k` predictions is relevant. */
  lemma NoHitsNoRecall(predicted: seq<string>, relevant: seq<string>, k: int)
    requires forall i :: 0 <= i < |relevant| ==> relevant[i] !in SliceTo(predicted, k)
    ensures RecallAtK(predicted, relevant, k) == 0.0
  {
    var top := Elems(SliceTo(predicted, k));
    var rel := Elems(relevant);
    assert top * rel == {};
  }

  /** Looking further down the predictions never lowers recall. */
  lemma RecallMonotoneInK(predicted: seq<string>, relevant: seq<string>, k: nat, k': nat)
    requires k <= k'
    ensures RecallAtK(predicted, relevant, k) <= RecallAtK(predicted, relevant, k')
  {
    var a := SliceTo(predicted, k);
    var b := SliceTo(predicted, k');
    assert a <= b;
    assert Elems(a) <= Elems(b);
    SubsetCard(Elems(a) * Elems(relevant), Elems(b) * Elems(relevant));
    if relevant != [] {
      RatioMonotone(Hits(predicted, relevant, k), Hits(predicted, relevant, k'), |relevant|);
    }
  }

  /** Only the first `k` predictions matter, and a prediction repeated among them counts once. */
  lemma RecallOfTopK(predicted: seq<string>, relevant: seq<string>, k: nat, x: string)
    requires k < |predicted|
    requires x in predicted[..k]
    ensures RecallAtK(predicted[..k], relevant, k) == RecallAtK(predicted, relevant, k)
    ensures RecallAtK(predicted[..k] + [x], relevant, k + 1) == RecallAtK(predicted, relevant, k)
  {
    var top := predicted[..k];
    assert SliceTo(top + [x], k + 1) == top + [x];
    assert Elems(top + [x]) == Elems(top);
  }
}
