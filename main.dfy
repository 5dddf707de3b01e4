/** The standalone `word-piece-stats` binary (src/main.rs): `main` runs the same
    classification, counting, sort and median as the `stats` subcommand,
    written out a second time. Its specification is shared with that
    subcommand. */
module WordPieceStats {
  import opened Pieces
  import opened Stats

  /** The counting loop of `main` with the sort, sum and median after it,
      given the split of every token of every sentence. */
  method Run(sentences: seq<seq<seq<WordPiece>>>) returns (report: Report)
    requires AllTokensNonEmpty(sentences)
    ensures report == Summary(sentences)
  {
    var counts: seq<nat> := [];
    var unknowns, suffixUnknowns, nTokens := 0, 0, 0;
    for i := 0 to |sentences|
      invariant Tallied(Flatten(sentences[..i]), unknowns, suffixUnknowns, nTokens, counts)
      invariant unknowns + suffixUnknowns + |counts| == nTokens
    {
      var sentence := sentences[i];
      ghost var done := Flatten(sentences[..i]);
      FlattenSnoc(sentences, i);
      PrefixExtend(done, sentence, 0);
      for j := 0 to |sentence|
        invariant Tallied(done + sentence[..j], unknowns, suffixUnknowns, nTokens, counts)
        invariant unknowns + suffixUnknowns + |counts| == nTokens
      {
        var pieces := sentence[j];
        TallyStep(done + sentence[..j], pieces, unknowns, suffixUnknowns, nTokens, counts);
        PrefixExtend(done, sentence, j);
        if pieces[0] == Missing {
          unknowns := unknowns + 1;
        } else if pieces[|pieces| - 1] == Missing {
          suffixUnknowns := suffixUnknowns + 1;
        } else {
          counts := counts + [|pieces|];
        }
        nTokens := nTokens + 1;
      }
      PrefixExtend(done, sentence, |sentence|);
    }
    assert sentences[..|sentences|] == sentences;
    counts := Sort(counts);
    var median := if |counts| == 0 then None else Some(counts[|counts| / 2]);
    report := Report(unknowns, suffixUnknowns, nTokens, counts, Sum(counts), median);
  }
}
