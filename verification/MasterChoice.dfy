/** The parser and the variant choice together. */
module MasterChoice {
  import opened ManifestParser
  import ManifestText
  import Abr

  /**
    On the variants of any text the parser accepts, the scan that stops at the first variant too
    large finds the greatest that fits: whatever fits is at most the ideal one, which then fits
    itself, and whatever comes after the ideal one is too large.
   */
  lemma ParsedIdealIsGreatestFitting(content: string, budget: real, j: nat)
    requires Parse(content).Ok? && j < |Parse(content).value.variants|
    ensures
      var vs := Parse(content).value.variants;
      var ideal := Abr.Ideal(vs, budget);
      && ideal < |vs|
      && (Abr.Mbps(vs[j]) <= budget ==> j <= ideal && Abr.Mbps(vs[ideal]) <= budget)
      && (ideal < j ==> Abr.Mbps(vs[j]) > budget)
  {
    ManifestText.ParsedVariantsAreSorted(content);
    Abr.IdealIsGreatestFitting(Parse(content).value.variants, budget, j);
  }
}
