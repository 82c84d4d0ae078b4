/** URL canonical form used to compare retrieved and labelled assessments. */
module Urls {
  import opened PyText

  /** `u.rstrip("/").lower()` */
  function NormalizeUrl(u: string): (r: string)
    ensures r == [] || r[|r| - 1] != '/'
    ensures forall i :: 0 <= i < |r| ==> !IsUpper(r[i])
    ensures |r| <= |u|
  {
    Lower(RStripChar(u, '/'))
  }

  /** Normalising an already normalised URL changes nothing. */
  lemma NormalizeUrlIdempotent(u: string)
    ensures NormalizeUrl(NormalizeUrl(u)) == NormalizeUrl(u)
  {
    var r := NormalizeUrl(u);
    assert RStripChar(r, '/') == r;
    LowerIdempotent(RStripChar(u, '/'));
  }

  /** Lower-casing first and stripping slashes first give the same canonical form. */
  lemma NormalizeUrlEitherOrder(u: string)
    ensures NormalizeUrl(u) == RStripChar(Lower(u), '/')
  {
    RStripLowerCommute(u, '/');
  }
}
