/** The items the external word-piece segmenter yields for one word form.
    The segmenter itself is not part of this model: every consumer below
    takes a word's split result as a given sequence of these items. */
module Pieces {

  datatype Option<+T> = None | Some(value: T)

  /** One item of a split: a recognised piece, or the sentinel saying that
      no vocabulary entry matches the remainder of the form. */
  datatype WordPiece = Piece(s: string) | Missing

  /** The shape the segmenter promises for its output: it stops after the
      first failure, so a Missing item can only be the last one. */
  predicate WellFormedSplit(ps: seq<WordPiece>)
  {
    forall i :: 0 <= i < |ps| - 1 ==> ps[i].Piece?
  }
}
