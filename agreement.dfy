/** How the two consumers of a split agree on the segmenter's output. */
module Agreement {
  import opened Pieces
  import Print
  import Stats

  /** On a well-formed split, `print` replaces a word by the placeholder
      exactly when `stats` does not count it as fully known, whatever the
      marker. */
  lemma PlaceholderIffNotKnown(ps: seq<WordPiece>, marker: string)
    requires |ps| > 0 && WellFormedSplit(ps)
    ensures Print.Collect(Print.AddContinuationMarkers(ps, marker)).None?
        <==> Stats.Classify(ps) != Stats.Known
  {
    var marked := Print.AddContinuationMarkers(ps, marker);
    forall i | 0 <= i < |ps|
      ensures |marked| == |ps| && (marked[i].None? <==> ps[i] == Missing)
    {
      Print.ContinuationMarkersAt(ps, marker, i);
    }
    Print.CollectAt(marked);
    Stats.ClassifyShapes(ps);
  }
}
