# wordpiece-stats, modelled in Dafny

The repository holds two consumers of a word-piece segmenter. A segmenter
splits a word form into pieces from a fixed vocabulary. When it finds no
piece for the rest of the form, it yields a final `Missing` item.

- `print` renders each sentence as one line. The first piece of a word is
  printed as is. Every later piece gets the continuation marker `##` in
  front. A word whose split contains a `Missing` item becomes the single
  token `[UNK]`. A sentence's tokens are joined with single spaces.
- `stats` (and the standalone `word-piece-stats` binary, src/main.rs,
  which repeats the same code)
  classifies each token's split. A split is fully unknown when its first
  item is `Missing`, suffix unknown when its last item is `Missing`, and
  fully known otherwise. It counts the tokens of each class and collects
  the piece count of each fully known token. It then sorts those counts,
  sums them, and takes the element at index `len / 2` as the median.

The segmenter is in an external crate and is not modelled. Every operation
here takes the split of each word as a given `seq<WordPiece>`, where
`WordPiece = Piece(s) | Missing`. `Pieces.WellFormedSplit` states the
segmenter's promise that `Missing` can only come last. Only the lemmas
that relate the two consumers to that shape assume it.

Modules:

- `Pieces` (pieces.dfy): the piece type and `Option`.
- `Print` (print.dfy): models src/subcommands/print.rs. It has the marker
  mapping, the `ContinuationMarkerIter` class with its mutable `initial`
  flag, `collect::<Option<Vec<_>>>`, the `[UNK]` substitution, the
  sentence loop and `join(" ")`.
- `Stats` (stats.dfy): models src/subcommands/stats.rs. It has the
  classification and the specification functions for the counters and
  collected lengths. A small verified insertion sort stands in for
  `Vec::sort`. It also has the sum and the median, and the counting loop
  as a method.
- `WordPieceStats` (main.dfy): models `main` in src/main.rs. Like the
  source, it has its own copy of the loop, proved against the same
  specification.
- `Agreement` (agreement.dfy): on well-formed splits, `print` uses the
  placeholder exactly for the tokens that `stats` does not count as
  fully known.

The main.rs properties (classification at lines 51-56, the loop invariant
at 50-58, the sort at 62 and the median at 76) are the same as the
stats.rs ones. They are stated once, by the `Stats` members below.

Two behaviours of the code worth knowing:

- Median index. `counts[counts.len() / 2]` is the upper middle element of
  an even-sized collection. `Stats.MedianExamples` shows that
  `[1, 2, 3, 4]` gives 3.
- Empty collection. With no fully known token the code divides 0.0 by 0.0
  for the average and then panics at `counts[0]`. The model's `median` is
  `None` exactly there.

## Model

| member | source | states |
|---|---|---|
| `Print.YieldsAt` | src/subcommands/print.rs:117-128 | An iterator in any state yields exactly one output per remaining inner item, in order. Item i is mapped with the flag raised exactly when the flag was raised and i is the first item. |
| `Print.ContinuationMarkersAt` | src/subcommands/print.rs:118-126 | Over a word, the output is as long as the input. Position 0 is the piece's text verbatim. A later `Piece(p)` gives `marker + p`. An item is `None` exactly when it is `Missing`, at any position. |
| `Print.ContinuationMarkerIter.constructor` | src/subcommands/print.rs:96-102 | `add_continuation_markers` starts with the flag raised, nothing consumed, and the given marker. What remains to be yielded is the whole marked word. |
| `Print.ContinuationMarkerIter.Next` | src/subcommands/print.rs:117-129 | On an exhausted inner iterator it returns None and changes nothing. Otherwise it consumes exactly one inner item and returns its mapping under the old flag. The flag is then lowered and never raised again. `Valid` keeps the flag raised exactly while nothing has been consumed. |
| `Print.CollectAt` | src/subcommands/print.rs:70 | Collecting into `Option<Vec<_>>` succeeds exactly when no item is None. It then keeps every value at its position. |
| `Print.CollectWord` | src/subcommands/print.rs:67-71 | Draining a fresh marker iterator until exhaustion or the first None yields the collected marked word. |
| `Print.WordTokensSpec` | src/subcommands/print.rs:67-74 | A word with a `Missing` item anywhere contributes exactly `["[UNK]"]` and none of its pieces. A word of pieces only contributes one token per piece: the first verbatim, the rest as `"##" + p`. |
| `Print.SentenceTokensAppend` | src/subcommands/print.rs:72-73 | Handling one more word only appends that word's tokens. Nothing collected earlier changes. |
| `Print.SplitJoin` | src/subcommands/print.rs:77 | Splitting the joined line at the separator gives the tokens back, when there is at least one token and none contains the separator. |
| `Print.RenderSentence` | src/subcommands/print.rs:65-77 | The line printed for a sentence is its tokens, in word order, joined with single spaces. |
| `Print.Run` | src/subcommands/print.rs:62-78 | One line per sentence, in order. Each line is that sentence's rendering. |
| `Stats.Classify` | src/subcommands/stats.rs:72-78 | It needs a non-empty split. Unknown exactly when the first item is `Missing`. Suffix-unknown exactly when the first is not `Missing` and the last is. Known exactly when neither is. |
| `Stats.ClassifyShapes` | src/subcommands/stats.rs:72-77 | On a well-formed split, Unknown means the split is `[Missing]`. Suffix-unknown means pieces followed by one `Missing`. Known means pieces only. |
| `Stats.KnownLengths` | src/subcommands/stats.rs:76-77 | The lengths pushed to `counts` are never more than the tokens seen, and each is at least 1. |
| `Stats.Partition` | src/subcommands/stats.rs:72-79 | Every token lands in exactly one tally: `unknowns + suffix_unknowns + len(counts) == n_tokens`. The Known count equals `len(counts)`. |
| `Stats.TallyStep` | src/subcommands/stats.rs:72-79 | One pass of the loop body moves exactly the tally of the token's class, and `n_tokens` rises by exactly 1. |
| `Stats.Sort` | src/subcommands/stats.rs:83 | The sorted counts are ascending and a permutation of the collected lengths. |
| `Stats.SortedUnique` | src/subcommands/stats.rs:83 | Two sorted permutations of the same values are equal. So every sorting algorithm, including `Vec::sort`, gives the same `counts`. |
| `Stats.SumPermutation` | src/subcommands/stats.rs:95 | The sum taken after sorting equals the sum of the lengths as collected. It depends only on the multiset. |
| `Stats.MedianSplits` | src/subcommands/stats.rs:97 | On sorted counts, the median is absent exactly when counts is empty. Otherwise it is an element of counts. Every element before index `len / 2` is at most the median, and every element from that index on is at least it. |
| `Stats.MedianExamples` | src/subcommands/stats.rs:97 | `[1,2,3]` and `[1,2,2,3]` have median 2. `[1,2,3,4]` has median 3, the upper middle element. |
| `Stats.SummaryMeaning` | src/subcommands/stats.rs:62-97 | For the whole corpus: `n_tokens` is the number of tokens, and the three tallies add up to it. `counts` is a sorted permutation of the known lengths. The sum is theirs and at least `len(counts)`. The median is absent exactly when no token is fully known, and is otherwise `counts[len / 2]`, at least 1. |
| `Stats.Run` | src/subcommands/stats.rs:62-97 | The nested counting loop, the sort, the sum and the median index produce exactly `Summary` of the corpus. The loop invariants keep the counters equal to the specification of the tokens read so far, with `unknowns + suffix_unknowns + len(counts) == n_tokens`. |
| `WordPieceStats.Run` | src/main.rs:41-76 | The copy of the loop in `main` produces the same `Summary` as the `stats` subcommand. So every property proved of `Summary` holds for it too. |
| `Agreement.PlaceholderIffNotKnown` | src/subcommands/print.rs:67-74 | On a well-formed split, with any marker, collecting the marked word fails (so `[UNK]` is printed) exactly when `stats` does not classify the token as fully known. |

## Left out

- `WordPieces::split` and `WordPieces::try_from`: the segmenter and the vocabulary loader are in the external `wordpieces` crate, which is not part of this model. Each split is an input.
- Argument parsing (`app`, `parse`, clap), opening files, the CoNLL-X/CoNLL-U readers, sentence iteration and `or_exit`: these are I/O. The corpus is an input `seq` of sentences, each a `seq` of token splits.
- `println!` and `eprintln!`: `Print.Run` returns the lines and `Stats.Run` returns the integers of the report, rather than writing them.
- The floating-point percentages and the average (stats.rs:85-96, main.rs:64-75): only the integers they are computed from are modelled.
- `Vec::sort`: it is a library call. `Stats.Sort` stands in for it, and `Stats.SortedUnique` shows that any sorted permutation gives the same result.
- src/traits.rs: it declares the `WordPiecesApp` trait signature and has no logic.
- Stats.Run: it requires every token's split to be non-empty. The model assumes every form is non-empty, as the CoNLL-X/CoNLL-U FORM field requires; on an empty form the source panics at `pieces[0]` (stats.rs:72, main.rs:51).
- Stats.Run: does not model integer width. The counters are `i32` in the source and the lengths and their sum are `usize`. The model's integers are unbounded, so a corpus of more than 2^31 - 1 tokens, where `n_tokens` would overflow, is outside it.
- WordPieceStats.Run: the same two restrictions as `Stats.Run`.
- Print.ContinuationMarkerIter.Next: the inner iterator is the sequence of its remaining items, so laziness is not modelled. As in the source, collecting stops pulling at the first None.
