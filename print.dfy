/** The `print` subcommand: continuation markers on the pieces of a word,
    the `[UNK]` placeholder for words that do not split completely, and the
    space-joined line printed per sentence. */
module Print {
  import opened Pieces

  /** The marker `PrintApp::run` passes to `add_continuation_markers`. */
  const Marker: string := "##"

  /** The token that replaces a word with a Missing item. */
  const Unknown: string := "[UNK]"

  // ---------------------------------------------------------------------
  // The per-item mapping and what the iterator yields
  // ---------------------------------------------------------------------

  /** What `ContinuationMarkerIter::next` makes of one inner item, given the
      value of its `initial` flag at that moment. */
  function MarkItem(initial: bool, marker: string, w: WordPiece): Option<string>
  {
    match w
    case Missing => None
    case Piece(p) => Some(if initial then p else marker + p)
  }

  /** Everything an iterator in state (initial, inner) yields until the
      inner iterator is exhausted. */
  function Yields(initial: bool, marker: string, inner: seq<WordPiece>): seq<Option<string>>
  {
    if inner == [] then []
    else [MarkItem(initial, marker, inner[0])] + Yields(false, marker, inner[1..])
  }

  /** Everything `add_continuation_markers(marker)` yields over `ws`. */
  function AddContinuationMarkers(ws: seq<WordPiece>, marker: string): seq<Option<string>>
  {
    Yields(true, marker, ws)
  }

  /** One output per inner item, and the item at position i is mapped with
      the flag still raised exactly when it is the first one yielded. */
  lemma {:induction false} YieldsAt(initial: bool, marker: string, inner: seq<WordPiece>, i: nat)
    requires i < |inner|
    ensures |Yields(initial, marker, inner)| == |inner|
    ensures Yields(initial, marker, inner)[i] == MarkItem(initial && i == 0, marker, inner[i])
  {
    if i > 0 {
      YieldsAt(false, marker, inner[1..], i - 1);
    } else if |inner| > 1 {
      YieldsAt(false, marker, inner[1..], 0);
    }
  }

  /** The marked sequence of a word, position by position: as long as the
      input, the first piece verbatim, every later piece behind the marker,
      and None exactly for a Missing item wherever it stands. */
  lemma ContinuationMarkersAt(ws: seq<WordPiece>, marker: string, i: nat)
    requires i < |ws|
    ensures |AddContinuationMarkers(ws, marker)| == |ws|
    ensures AddContinuationMarkers(ws, marker)[i].None? <==> ws[i] == Missing
    ensures i == 0 && ws[i].Piece? ==> AddContinuationMarkers(ws, marker)[i] == Some(ws[i].s)
    ensures i > 0 && ws[i].Piece? ==> AddContinuationMarkers(ws, marker)[i] == Some(marker + ws[i].s)
  {
    YieldsAt(true, marker, ws, i);
  }

  /** The empty split yields nothing. */
  lemma ContinuationMarkersEmpty(marker: string)
    ensures AddContinuationMarkers([], marker) == []
  {
  }

  // ---------------------------------------------------------------------
  // The iterator
  // ---------------------------------------------------------------------

  /** `ContinuationMarkerIter`: the `initial` flag, the inner iterator
      (here the items it has yet to yield) and the marker. */
  class ContinuationMarkerIter {
    var initial: bool
    var inner: seq<WordPiece>
    const marker: string
    /** The items already taken from the inner iterator. */
    ghost var consumed: seq<WordPiece>

    /** The flag is raised exactly while nothing has been taken. */
    ghost predicate Valid()
      reads this
    {
      initial <==> consumed == []
    }

    /** What the iterator will still yield. */
    ghost function Remaining(): seq<Option<string>>
      reads this
    {
      Yields(initial, marker, inner)
    }

    /** `add_continuation_markers`: wraps the inner iterator, flag raised. */
    constructor (ws: seq<WordPiece>, marker: string)
      ensures Valid() && initial && inner == ws && consumed == []
      ensures this.marker == marker
      ensures Remaining() == AddContinuationMarkers(ws, marker)
    {
      initial := true;
      inner := ws;
      this.marker := marker;
      consumed := [];
    }

    /** `next`: None once the inner iterator is exhausted (the flag is then
        left alone); otherwise the next inner item, mapped, with the flag
        lowered for good. */
    method Next() returns (item: Option<Option<string>>)
      requires Valid()
      modifies this
      ensures Valid()
      ensures consumed + inner == old(consumed + inner)
      ensures old(inner) == [] ==>
        item == None && initial == old(initial) && inner == [] && consumed == old(consumed)
      ensures old(inner) != [] ==>
        && item == Some(MarkItem(old(initial), marker, old(inner)[0]))
        && !initial
        && inner == old(inner)[1..]
        && consumed == old(consumed) + [old(inner)[0]]
      ensures !old(initial) ==> !initial
      ensures old(Remaining()) == if item.None? then [] else [item.value] + Remaining()
    {
      if inner == [] {
        return None;
      }
      var w := inner[0];
      inner := inner[1..];
      consumed := consumed + [w];
      var mapped;
      if initial {
        initial := false;
        mapped := match w case Missing => None case Piece(p) => Some(p);
      } else {
        mapped := match w case Missing => None case Piece(p) => Some(marker + p);
      }
      item := Some(mapped);
    }
  }

  // ---------------------------------------------------------------------
  // Collecting into Option<Vec<_>>
  // ---------------------------------------------------------------------

  /** `collect::<Option<Vec<_>>>()`: None as soon as an item is None,
      otherwise all the values in order. */
  function Collect<T>(items: seq<Option<T>>): Option<seq<T>>
  {
    if items == [] then Some([])
    else match items[0]
      case None => None
      case Some(x) => Prepend([x], Collect(items[1..]))
  }

  function Prepend<T>(xs: seq<T>, o: Option<seq<T>>): Option<seq<T>>
  {
    match o
    case None => None
    case Some(ys) => Some(xs + ys)
  }

  lemma PrependNil<T>(o: Option<seq<T>>)
    ensures Prepend([], o) == o
  {
    if o.Some? {
      assert [] + o.value == o.value;
    }
  }

  lemma PrependTwice<T>(xs: seq<T>, ys: seq<T>, o: Option<seq<T>>)
    ensures Prepend(xs, Prepend(ys, o)) == Prepend(xs + ys, o)
  {
    if o.Some? {
      assert xs + (ys + o.value) == (xs + ys) + o.value;
    }
  }

  /** Collecting succeeds exactly when no item is None, and then keeps
      every value at its position. */
  lemma {:induction false} CollectAt<T>(items: seq<Option<T>>)
    ensures Collect(items).Some? <==> forall i :: 0 <= i < |items| ==> items[i].Some?
    ensures Collect(items).Some? ==>
      && |Collect(items).value| == |items|
      && forall i :: 0 <= i < |items| ==> Collect(items).value[i] == items[i].value
  {
    if items != [] {
      CollectAt(items[1..]);
      if items[0].Some? && Collect(items[1..]).Some? {
        var rest := Collect(items[1..]).value;
        forall i | 0 <= i < |items|
          ensures Collect(items).value[i] == items[i].value
        {
          if i > 0 {
            assert Collect(items).value[i] == rest[i - 1];
          }
        }
      } else if items[0].Some? {
        var k :| 0 <= k < |items[1..]| && items[1..][k].None?;
        assert items[k + 1].None?;
      }
    }
  }

  /** Drains a fresh marker iterator over `ws` the way `collect` does,
      stopping at the first None. */
  method CollectWord(ws: seq<WordPiece>, marker: string) returns (r: Option<seq<string>>)
    ensures r == Collect(AddContinuationMarkers(ws, marker))
  {
    var it := new ContinuationMarkerIter(ws, marker);
    var acc: seq<string> := [];
    PrependNil(Collect(it.Remaining()));
    while true
      invariant it.Valid() && it.marker == marker
      invariant Collect(AddContinuationMarkers(ws, marker)) == Prepend(acc, Collect(it.Remaining()))
      decreases |it.inner|
    {
      ghost var before := it.Remaining();
      var item := it.Next();
      match item {
        case None =>
          assert acc + [] == acc;
          return Some(acc);
        case Some(None) =>
          return None;
        case Some(Some(s)) =>
          assert before == [Some(s)] + it.Remaining();
          assert before[1..] == it.Remaining();
          PrependTwice(acc, [s], Collect(it.Remaining()));
          acc := acc + [s];
      }
    }
  }

  // ---------------------------------------------------------------------
  // The tokens of a word and of a sentence
  // ---------------------------------------------------------------------

  /** What `PrintApp::run` appends to `pieces` for one word. */
  function WordTokens(ws: seq<WordPiece>): seq<string>
  {
    match Collect(AddContinuationMarkers(ws, Marker))
    case Some(marked) => marked
    case None => [Unknown]
  }

  /** A word with a Missing item anywhere becomes the single placeholder,
      with none of its pieces; a word made of pieces only contributes all
      of them in order, the first verbatim and the others behind the
      marker. */
  lemma WordTokensSpec(ws: seq<WordPiece>)
    ensures (exists i :: 0 <= i < |ws| && ws[i] == Missing) ==> WordTokens(ws) == [Unknown]
    ensures (forall i :: 0 <= i < |ws| ==> ws[i].Piece?) ==>
      && |WordTokens(ws)| == |ws|
      && (ws != [] ==> WordTokens(ws)[0] == ws[0].s)
      && forall i :: 0 < i < |ws| ==> WordTokens(ws)[i] == Marker + ws[i].s
  {
    var marked := AddContinuationMarkers(ws, Marker);
    forall i | 0 <= i < |ws|
      ensures |marked| == |ws|
      ensures marked[i].None? <==> ws[i] == Missing
      ensures i == 0 && ws[i].Piece? ==> marked[i] == Some(ws[i].s)
      ensures i > 0 && ws[i].Piece? ==> marked[i] == Some(Marker + ws[i].s)
    {
      ContinuationMarkersAt(ws, Marker, i);
    }
    if ws == [] {
      ContinuationMarkersEmpty(Marker);
    }
    CollectAt(marked);
  }

  /** The tokens `PrintApp::run` collects for a whole sentence. */
  function SentenceTokens(words: seq<seq<WordPiece>>): seq<string>
  {
    if words == [] then [] else WordTokens(words[0]) + SentenceTokens(words[1..])
  }

  /** Handling one more word only appends that word's tokens: nothing
      already collected changes. */
  lemma {:induction false} SentenceTokensAppend(words: seq<seq<WordPiece>>, w: seq<WordPiece>)
    ensures SentenceTokens(words + [w]) == SentenceTokens(words) + WordTokens(w)
  {
    if words == [] {
      assert [w][1..] == [];
    } else {
      assert (words + [w])[1..] == words[1..] + [w];
      SentenceTokensAppend(words[1..], w);
    }
  }

  // ---------------------------------------------------------------------
  // Joining with spaces
  // ---------------------------------------------------------------------

  /** `[String]::join(sep)`. */
  function Join(xs: seq<string>, sep: string): string
  {
    if |xs| == 0 then ""
    else if |xs| == 1 then xs[0]
    else xs[0] + sep + Join(xs[1..], sep)
  }

  /** Splitting at every occurrence of `c`, the inverse of joining. */
  function Split(s: string, c: char): (r: seq<string>)
    ensures |r| > 0
  {
    if s == [] then [""]
    else
      var rest := Split(s[1..], c);
      if s[0] == c then [""] + rest else [[s[0]] + rest[0]] + rest[1..]
  }

  lemma {:induction false} SplitWithout(x: string, c: char)
    requires c !in x
    ensures Split(x, c) == [x]
  {
    if x != [] {
      SplitWithout(x[1..], c);
      assert [x[0]] + x[1..] == x;
    }
  }

  lemma {:induction false} SplitAfter(x: string, c: char, rest: string)
    requires c !in x
    ensures Split(x + [c] + rest, c) == [x] + Split(rest, c)
  {
    var s := x + [c] + rest;
    if x == [] {
      assert s[1..] == rest;
    } else {
      assert s[1..] == x[1..] + [c] + rest;
      SplitAfter(x[1..], c, rest);
      assert [x[0]] + x[1..] == x;
    }
  }

  /** Splitting a joined line at the separator gives the pieces back,
      provided none of them contains the separator. */
  lemma {:induction false} SplitJoin(xs: seq<string>, c: char)
    requires |xs| > 0
    requires forall i :: 0 <= i < |xs| ==> c !in xs[i]
    ensures Split(Join(xs, [c]), c) == xs
  {
    if |xs| == 1 {
      SplitWithout(xs[0], c);
    } else {
      SplitJoin(xs[1..], c);
      SplitAfter(xs[0], c, Join(xs[1..], [c]));
      assert [xs[0]] + xs[1..] == xs;
    }
  }

  // ---------------------------------------------------------------------
  // The sentence loop
  // ---------------------------------------------------------------------

  /** The per-sentence loop of `PrintApp::run`, given the split of
      each of its tokens: the line printed is the sentence's tokens joined
      with single spaces. */
  method RenderSentence(words: seq<seq<WordPiece>>) returns (line: string)
    ensures line == Join(SentenceTokens(words), " ")
  {
    var pieces: seq<string> := [];
    for i := 0 to |words|
      invariant pieces == SentenceTokens(words[..i])
    {
      var collected := CollectWord(words[i], Marker);
      match collected {
        case Some(marked) => pieces := pieces + marked;
        case None => pieces := pieces + [Unknown];
      }
      SentenceTokensAppend(words[..i], words[i]);
      assert words[..i + 1] == words[..i] + [words[i]];
    }
    assert words[..|words|] == words;
    line := Join(pieces, " ");
  }

  /** The loop over sentences: one printed line per sentence, in order. */
  method Run(sentences: seq<seq<seq<WordPiece>>>) returns (lines: seq<string>)
    ensures |lines| == |sentences|
    ensures forall i :: 0 <= i < |sentences| ==> lines[i] == Join(SentenceTokens(sentences[i]), " ")
  {
    lines := [];
    for i := 0 to |sentences|
      invariant |lines| == i
      invariant forall k :: 0 <= k < i ==> lines[k] == Join(SentenceTokens(sentences[k]), " ")
    {
      var line := RenderSentence(sentences[i]);
      lines := lines + [line];
    }
  }
}
