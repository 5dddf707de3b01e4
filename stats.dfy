/** The `stats` subcommand: every token's split is classified as fully
    unknown, suffix unknown or fully known; the counters and the lengths of
    the fully known splits are collected; the lengths are sorted and their
    sum and median taken. The floating-point percentages and the average
    built from these integers are not modelled. */
module Stats {
  import opened Pieces

  /** The three shapes a token's split can take. */
  datatype TokenClass = Unknown | SuffixUnknown | Known

  /** The branch a token takes in the counting loop. The source indexes
      the first and the last item, so the split must not be empty. */
  function Classify(ps: seq<WordPiece>): (k: TokenClass)
    requires |ps| > 0
    ensures k == Unknown <==> ps[0] == Missing
    ensures k == SuffixUnknown <==> ps[0] != Missing && ps[|ps| - 1] == Missing
    ensures k == Known <==> ps[0] != Missing && ps[|ps| - 1] != Missing
  {
    if ps[0] == Missing then Unknown
    else if ps[|ps| - 1] == Missing then SuffixUnknown
    else Known
  }

  /** On the segmenter's output, the three classes are the three shapes a
      split can have: a lone Missing, pieces followed by one Missing, and
      pieces only. */
  lemma ClassifyShapes(ps: seq<WordPiece>)
    requires |ps| > 0 && WellFormedSplit(ps)
    ensures Classify(ps) == Unknown <==> ps == [Missing]
    ensures Classify(ps) == SuffixUnknown <==>
      |ps| >= 2 && ps[|ps| - 1] == Missing && forall i :: 0 <= i < |ps| - 1 ==> ps[i].Piece?
    ensures Classify(ps) == Known <==> forall i :: 0 <= i < |ps| ==> ps[i].Piece?
  {
  }

  // ---------------------------------------------------------------------
  // What the counting loop accumulates over a sequence of tokens
  // ---------------------------------------------------------------------

  predicate NonEmptyTokens(ts: seq<seq<WordPiece>>)
  {
    forall i :: 0 <= i < |ts| ==> |ts[i]| > 0
  }

  /** The number of tokens of class k. */
  function CountClass(ts: seq<seq<WordPiece>>, k: TokenClass): (n: nat)
    requires NonEmptyTokens(ts)
    ensures n <= |ts|
  {
    if ts == [] then 0
    else CountClass(ts[..|ts| - 1], k) + if Classify(ts[|ts| - 1]) == k then 1 else 0
  }

  /** The lengths of the fully known tokens, in the order they occur. */
  function KnownLengths(ts: seq<seq<WordPiece>>): (c: seq<nat>)
    requires NonEmptyTokens(ts)
    ensures |c| <= |ts|
    ensures forall i :: 0 <= i < |c| ==> c[i] >= 1
  {
    if ts == [] then []
    else
      var last := ts[|ts| - 1];
      KnownLengths(ts[..|ts| - 1]) + if Classify(last) == Known then [|last|] else []
  }

  /** Every token lands in exactly one of the three tallies. */
  lemma {:induction false} Partition(ts: seq<seq<WordPiece>>)
    requires NonEmptyTokens(ts)
    ensures CountClass(ts, Unknown) + CountClass(ts, SuffixUnknown) + |KnownLengths(ts)| == |ts|
    ensures CountClass(ts, Known) == |KnownLengths(ts)|
  {
    if ts != [] {
      Partition(ts[..|ts| - 1]);
    }
  }

  /** The counters and collected lengths after the tokens `ts`. */
  ghost predicate Tallied(ts: seq<seq<WordPiece>>, unknowns: int, suffixUnknowns: int,
                          nTokens: int, counts: seq<nat>)
  {
    && NonEmptyTokens(ts)
    && unknowns == CountClass(ts, Unknown)
    && suffixUnknowns == CountClass(ts, SuffixUnknown)
    && nTokens == |ts|
    && counts == KnownLengths(ts)
  }

  /** One pass of the loop body: exactly one tally moves, and the token
      count rises by one. */
  lemma TallyStep(ts: seq<seq<WordPiece>>, t: seq<WordPiece>,
                  unknowns: int, suffixUnknowns: int, nTokens: int, counts: seq<nat>)
    requires Tallied(ts, unknowns, suffixUnknowns, nTokens, counts)
    requires |t| > 0
    ensures t[0] == Missing ==>
      Tallied(ts + [t], unknowns + 1, suffixUnknowns, nTokens + 1, counts)
    ensures t[0] != Missing && t[|t| - 1] == Missing ==>
      Tallied(ts + [t], unknowns, suffixUnknowns + 1, nTokens + 1, counts)
    ensures t[0] != Missing && t[|t| - 1] != Missing ==>
      Tallied(ts + [t], unknowns, suffixUnknowns, nTokens + 1, counts + [|t|])
  {
    assert (ts + [t])[..|ts|] == ts;
    assert (ts + [t])[|ts|] == t;
  }

  // ---------------------------------------------------------------------
  // The tokens of all sentences, in reading order
  // ---------------------------------------------------------------------

  function Flatten(sentences: seq<seq<seq<WordPiece>>>): seq<seq<WordPiece>>
  {
    if sentences == [] then []
    else Flatten(sentences[..|sentences| - 1]) + sentences[|sentences| - 1]
  }

  /** Reading one more sentence appends its tokens. */
  lemma FlattenSnoc(sentences: seq<seq<seq<WordPiece>>>, i: nat)
    requires i < |sentences|
    ensures Flatten(sentences[..i + 1]) == Flatten(sentences[..i]) + sentences[i]
  {
    assert sentences[..i + 1][..i] == sentences[..i];
  }

  /** The tokens read so far: those of the earlier sentences, then the
      first j of the current one. */
  lemma PrefixExtend(done: seq<seq<WordPiece>>, sentence: seq<seq<WordPiece>>, j: nat)
    requires j <= |sentence|
    ensures j == 0 ==> done + sentence[..j] == done
    ensures j == |sentence| ==> done + sentence[..j] == done + sentence
    ensures j < |sentence| ==> done + sentence[..j + 1] == done + sentence[..j] + [sentence[j]]
  {
    if j < |sentence| {
      assert sentence[..j + 1] == sentence[..j] + [sentence[j]];
    }
    assert sentence[..|sentence|] == sentence;
  }

  /** Every token of every sentence has a non-empty split. */
  predicate AllTokensNonEmpty(sentences: seq<seq<seq<WordPiece>>>)
  {
    forall i, j :: 0 <= i < |sentences| && 0 <= j < |sentences[i]| ==> |sentences[i][j]| > 0
  }

  lemma {:induction false} FlattenNonEmpty(sentences: seq<seq<seq<WordPiece>>>)
    requires AllTokensNonEmpty(sentences)
    ensures NonEmptyTokens(Flatten(sentences))
  {
    if sentences != [] {
      var init := sentences[..|sentences| - 1];
      var last := sentences[|sentences| - 1];
      assert AllTokensNonEmpty(init) by {
        forall i, j | 0 <= i < |init| && 0 <= j < |init[i]|
          ensures |init[i][j]| > 0
        {
          assert init[i] == sentences[i];
        }
      }
      FlattenNonEmpty(init);
      var flat := Flatten(sentences);
      assert flat == Flatten(init) + last;
      forall k | 0 <= k < |flat|
        ensures |flat[k]| > 0
      {
        if k >= |Flatten(init)| {
          assert flat[k] == last[k - |Flatten(init)|];
        }
      }
    }
  }

  // ---------------------------------------------------------------------
  // Sorting, sum, median
  // ---------------------------------------------------------------------

  predicate Sorted(s: seq<nat>)
  {
    forall i, j :: 0 <= i < j < |s| ==> s[i] <= s[j]
  }

  /** Putting a value no larger than the head of a sorted sequence in
      front keeps it sorted. */
  lemma SortedCons(x: nat, s: seq<nat>)
    requires Sorted(s)
    requires s != [] ==> x <= s[0]
    ensures Sorted([x] + s)
  {
    var r := [x] + s;
    forall i, j | 0 <= i < j < |r|
      ensures r[i] <= r[j]
    {
      if i == 0 && j > 1 {
        assert r[j] == s[j - 1] && s[0] <= s[j - 1];
      }
    }
  }

  function Insert(x: nat, s: seq<nat>): (r: seq<nat>)
    requires Sorted(s)
    ensures Sorted(r)
    ensures multiset(r) == multiset(s) + multiset{x}
    ensures |r| > 0 && (r[0] == x || (s != [] && r[0] == s[0]))
  {
    if s == [] then [x]
    else if x <= s[0] then
      SortedCons(x, s);
      [x] + s
    else
      assert s == [s[0]] + s[1..];
      var rest := Insert(x, s[1..]);
      assert |s| > 1 ==> s[0] <= s[1];
      SortedCons(s[0], rest);
      [s[0]] + rest
  }

  /** Stands for `Vec::sort`: an ascending permutation of its input. */
  function Sort(s: seq<nat>): (r: seq<nat>)
    ensures Sorted(r)
    ensures multiset(r) == multiset(s)
  {
    if s == [] then []
    else
      assert s == [s[0]] + s[1..];
      Insert(s[0], Sort(s[1..]))
  }

  /** The head of a sorted sequence is at most each of its elements. */
  lemma SortedHeadIsMin(s: seq<nat>, x: nat)
    requires Sorted(s) && x in multiset(s)
    ensures s[0] <= x
  {
    assert x in s;
    var i :| 0 <= i < |s| && s[i] == x;
    assert i == 0 || s[0] <= s[i];
  }

  lemma MultisetTail(s: seq<nat>)
    requires s != []
    ensures multiset(s[1..]) == multiset(s) - multiset{s[0]}
  {
    assert s == [s[0]] + s[1..];
  }

  lemma SortedTail(s: seq<nat>)
    requires Sorted(s) && s != []
    ensures Sorted(s[1..])
  {
    forall i, j | 0 <= i < j < |s| - 1
      ensures s[1..][i] <= s[1..][j]
    {
      assert s[1..][i] == s[i + 1] && s[1..][j] == s[j + 1];
    }
  }

  /** Two sorted permutations of the same values start with the same
      element, and their tails are again sorted permutations of each other. */
  lemma SortedHeads(a: seq<nat>, b: seq<nat>)
    requires Sorted(a) && Sorted(b) && a != []
    requires multiset(a) == multiset(b)
    ensures b != [] && a[0] == b[0]
    ensures Sorted(a[1..]) && Sorted(b[1..])
    ensures multiset(a[1..]) == multiset(b[1..])
  {
    assert a[0] in multiset(a);
    assert |b| == |multiset(b)| > 0;
    assert b[0] in multiset(b);
    SortedHeadIsMin(b, a[0]);
    SortedHeadIsMin(a, b[0]);
    MultisetTail(a);
    MultisetTail(b);
    SortedTail(a);
    SortedTail(b);
  }

  /** A sorted permutation is unique, so the results below do not depend
      on which sorting algorithm produced it. */
  lemma {:induction false} SortedUnique(a: seq<nat>, b: seq<nat>)
    requires Sorted(a) && Sorted(b)
    requires multiset(a) == multiset(b)
    ensures a == b
  {
    if a == [] {
      assert |b| == |multiset(b)| == 0;
    } else {
      SortedHeads(a, b);
      SortedUnique(a[1..], b[1..]);
      assert a == [a[0]] + a[1..];
      assert b == [b[0]] + b[1..];
    }
  }

  /** `counts.iter().sum::<usize>()`. */
  function Sum(s: seq<nat>): nat
  {
    if s == [] then 0 else s[0] + Sum(s[1..])
  }

  lemma {:induction false} SumConcat(a: seq<nat>, b: seq<nat>)
    ensures Sum(a + b) == Sum(a) + Sum(b)
  {
    if a == [] {
      assert a + b == b;
    } else {
      assert (a + b)[1..] == a[1..] + b;
      SumConcat(a[1..], b);
    }
  }

  /** Taking one element out of the middle takes it out of the multiset
      and out of the sum. */
  lemma RemoveMiddle(pre: seq<nat>, x: nat, post: seq<nat>)
    ensures multiset(pre + post) == multiset(pre + [x] + post) - multiset{x}
    ensures Sum(pre + [x] + post) == x + Sum(pre + post)
  {
    assert multiset(pre + [x] + post) == multiset(pre) + multiset{x} + multiset(post);
    SumConcat(pre + [x], post);
    SumConcat(pre, [x]);
    SumConcat(pre, post);
    assert Sum([x]) == x;
  }

  /** The sum depends only on which values were collected, not their order. */
  lemma {:induction false} SumPermutation(a: seq<nat>, b: seq<nat>)
    requires multiset(a) == multiset(b)
    ensures Sum(a) == Sum(b)
  {
    if a == [] {
      assert |b| == |multiset(b)| == 0;
    } else {
      assert a[0] in multiset(b);
      var k :| 0 <= k < |b| && b[k] == a[0];
      var pre, post := b[..k], b[k + 1..];
      assert b == pre + [b[k]] + post;
      RemoveMiddle(pre, b[k], post);
      MultisetTail(a);
      SumPermutation(a[1..], pre + post);
    }
  }

  /** A sum of lengths that are each at least one is at least their number. */
  lemma {:induction false} SumAtLeastCount(s: seq<nat>)
    requires forall i :: 0 <= i < |s| ==> s[i] >= 1
    ensures Sum(s) >= |s|
  {
    if s != [] {
      SumAtLeastCount(s[1..]);
    }
  }

  /** `counts[counts.len() / 2]`; None where that index is out of bounds
      (the source panics there, on an empty collection). */
  function Median(counts: seq<nat>): Option<nat>
  {
    if |counts| == 0 then None else Some(counts[|counts| / 2])
  }

  /** On sorted lengths the median is an element with the first half of
      the collection (rounded down) at or below it and the rest at or
      above it: the upper middle element on an even-sized collection. */
  lemma MedianSplits(c: seq<nat>)
    requires Sorted(c)
    ensures Median(c).None? <==> c == []
    ensures Median(c).Some? ==>
      && Median(c).value in c
      && (forall i :: 0 <= i < |c| / 2 ==> c[i] <= Median(c).value)
      && (forall i :: |c| / 2 <= i < |c| ==> Median(c).value <= c[i])
  {
  }

  /** The examples for two odd- and even-sized collections. */
  lemma MedianExamples()
    ensures Median([1, 2, 3]) == Some(2)
    ensures Median([1, 2, 2, 3]) == Some(2)
    ensures Median([1, 2, 3, 4]) == Some(3)
  {
  }

  // ---------------------------------------------------------------------
  // The report
  // ---------------------------------------------------------------------

  /** The integers the report is printed from. `median` is None where the
      source panics on indexing an empty collection. */
  datatype Report = Report(unknowns: nat, suffixUnknowns: nat, nTokens: nat,
                           counts: seq<nat>, lengthSum: nat, median: Option<nat>)

  /** What the counting loop, the sort, the sum and the median produce for
      a corpus whose tokens have the given splits. */
  function Summary(sentences: seq<seq<seq<WordPiece>>>): Report
    requires AllTokensNonEmpty(sentences)
  {
    FlattenNonEmpty(sentences);
    var ts := Flatten(sentences);
    var sorted := Sort(KnownLengths(ts));
    Report(CountClass(ts, Unknown), CountClass(ts, SuffixUnknown), |ts|,
           sorted, Sum(sorted), Median(sorted))
  }

  /** What the report means: every token is counted once in one tally; the
      counts are the fully known lengths, sorted; the sum is that of the
      lengths as collected; the median is absent exactly when no token is
      fully known, and otherwise is the element at index len / 2 of the
      sorted lengths, at least one. */
  lemma SummaryMeaning(sentences: seq<seq<seq<WordPiece>>>)
    requires AllTokensNonEmpty(sentences)
    ensures NonEmptyTokens(Flatten(sentences))
    ensures var r := Summary(sentences);
      var collected := KnownLengths(Flatten(sentences));
      && r.nTokens == |Flatten(sentences)|
      && r.unknowns + r.suffixUnknowns + |r.counts| == r.nTokens
      && Sorted(r.counts) && multiset(r.counts) == multiset(collected)
      && r.lengthSum == Sum(collected)
      && r.lengthSum >= |r.counts|
      && (r.median.None? <==> collected == [])
      && (r.median.Some? ==> r.median.value == r.counts[|r.counts| / 2] && r.median.value >= 1)
  {
    FlattenNonEmpty(sentences);
    var ts := Flatten(sentences);
    var collected := KnownLengths(ts);
    var sorted := Sort(collected);
    Partition(ts);
    SumPermutation(sorted, collected);
    SumAtLeastCount(collected);
    if collected == [] {
      assert multiset(sorted) == multiset{};
    } else {
      assert collected[0] in multiset(sorted);
      assert sorted[|sorted| / 2] in multiset(collected);
    }
  }

  // ---------------------------------------------------------------------
  // The loop of `StatsApp::run`
  // ---------------------------------------------------------------------

  /** The counting loop of `StatsApp::run` with the sort, sum and median
      after it, given the split of every token of every sentence. */
  method Run(sentences: seq<seq<seq<WordPiece>>>) returns (report: Report)
    requires AllTokensNonEmpty(sentences)
    ensures report == Summary(sentences)
  {
    var counts: seq<nat> := [];
    var unknowns, suffixUnknowns, nTokens := 0, 0, 0;
    for i := 0 to |sentences|
      invariant Tallied(Flatten(sentences[..i]), unknowns, suffixUnknowns, nTokens, counts)
      invariant unknowns + suffixUnknowns + |counts| == nTokens
    {
      var sentence := sentences[i];
      ghost var done := Flatten(sentences[..i]);
      FlattenSnoc(sentences, i);
      PrefixExtend(done, sentence, 0);
      for j := 0 to |sentence|
        invariant Tallied(done + sentence[..j], unknowns, suffixUnknowns, nTokens, counts)
        invariant unknowns + suffixUnknowns + |counts| == nTokens
      {
        var pieces := sentence[j];
        TallyStep(done + sentence[..j], pieces, unknowns, suffixUnknowns, nTokens, counts);
        PrefixExtend(done, sentence, j);
        if pieces[0] == Missing {
          unknowns := unknowns + 1;
        } else if pieces[|pieces| - 1] == Missing {
          suffixUnknowns := suffixUnknowns + 1;
        } else {
          counts := counts + [|pieces|];
        }
        nTokens := nTokens + 1;
      }
      PrefixExtend(done, sentence, |sentence|);
    }
    assert sentences[..|sentences|] == sentences;
    counts := Sort(counts);
    var median := if |counts| == 0 then None else Some(counts[|counts| / 2]);
    report := Report(unknowns, suffixUnknowns, nTokens, counts, Sum(counts), median);
  }
}
