/**
 * The conversions between a markup value and its plain text that are built on
 * the scan: `getPlainText`, `getMentions`, `mapPlainTextIndex`,
 * `findStartOfMentionInPlainText` and `getEndOfLastMention`.
 *
 * Each of them hands callbacks to `iterateMentionsMarkup`; here the scan
 * returns the sequence of callback invocations (the segments) and each
 * operation folds over it with the same accumulator the callbacks update.
 * The specification functions are defined on any segment sequence; the
 * Layout and Tiling predicates say what the scan guarantees about the one it
 * returns.
 */
module Transcoder {
  import opened Js
  import opened Types
  import opened Grammar
  import opened Scanner

  // ---- What the scan guarantees ----

  /**
   * segs, read from markup position start and plain-text position plain,
   * covers the markup positions start..end: a (possibly empty) text run
   * before each mention, each segment beginning where the previous one ended
   * in both coordinate systems, mentions of at least one character, and a
   * final text run only when characters remain after the last mention.
   */
  ghost predicate Layout(segs: seq<Segment>, start: nat, plain: nat, end: nat)
    decreases |segs|
  {
    start <= end &&
    if segs == [] then start == end
    else if |segs| == 1 then
      && segs[0].Text? && start < end
      && segs[0].start == start && segs[0].plainStart == plain && |segs[0].text| == end - start
    else
      var t, m := segs[0], segs[1];
      && t.Text? && m.Mention?
      && t.start == start && t.plainStart == plain
      && m.start == start + |t.text| && m.plainStart == plain + |t.text|
      && |m.markup| > 0
      && Layout(segs[2..], m.start + |m.markup|, m.plainStart + |m.display|, end)
  }

  /** A layout of value[start..] whose text runs and mention markups concatenate back to it. */
  ghost predicate Tiling(segs: seq<Segment>, value: string, start: nat, plain: nat) {
    start <= |value| && Layout(segs, start, plain, |value|) && RawOf(segs) == value[start..]
  }

  /** The scan from any position lays its segments out over the rest of the value. */
  lemma {:induction false} ScanFromLayout(value: string, srcs: seq<Source>, gs: seq<Grammar>, multiline: bool,
                                          start: nat, plain: nat)
    requires GrammarsFit(srcs, gs) && start <= |value|
    decreases |value| - start
    ensures Layout(ScanFrom(value, srcs, gs, multiline, start, plain), start, plain, |value|)
  {
    match FindMatch(gs, value, start)
    case None =>
      ScanFromEnd(value, srcs, gs, multiline, start, plain);
    case Some(f) =>
      var text := Text(value[start..f.index], start, plain);
      var mention := MentionOf(value, srcs, gs, multiline, f, plain + |text.text|);
      ScanFromStep(value, srcs, gs, multiline, start, plain, f, text, mention);
      var rest := ScanFrom(value, srcs, gs, multiline, f.m.end, plain + |text.text| + |mention.display|);
      ScanFromLayout(value, srcs, gs, multiline, f.m.end, plain + |text.text| + |mention.display|);
      assert ([text, mention] + rest)[2..] == rest;
  }

  /** The text runs and mention markups of the scan from any position concatenate to the rest of the value. */
  lemma {:induction false} ScanFromRebuilds(value: string, srcs: seq<Source>, gs: seq<Grammar>, multiline: bool,
                                            start: nat, plain: nat)
    requires GrammarsFit(srcs, gs) && start <= |value|
    decreases |value| - start
    ensures RawOf(ScanFrom(value, srcs, gs, multiline, start, plain)) == value[start..]
  {
    match FindMatch(gs, value, start)
    case None =>
      ScanFromEnd(value, srcs, gs, multiline, start, plain);
      if start < |value| {
        var t := Text(value[start..], start, plain);
        PrefixFolds(t, t, []);
      }
    case Some(f) =>
      var text := Text(value[start..f.index], start, plain);
      var mention := MentionOf(value, srcs, gs, multiline, f, plain + |text.text|);
      ScanFromStep(value, srcs, gs, multiline, start, plain, f, text, mention);
      var rest := ScanFrom(value, srcs, gs, multiline, f.m.end, plain + |text.text| + |mention.display|);
      ScanFromRebuilds(value, srcs, gs, multiline, f.m.end, plain + |text.text| + |mention.display|);
      PrefixFolds(text, mention, rest);
      SliceThree(value, start, f.index, f.m.end);
  }

  lemma SliceThree(s: string, a: nat, b: nat, c: nat)
    requires a <= b <= c <= |s|
    ensures s[a..] == s[a..b] + s[b..c] + s[c..]
  {
  }

  lemma ScanTiles(value: string, srcs: seq<Source>, multiline: bool)
    requires ValidSources(srcs)
    ensures Tiling(Scan(value, srcs, multiline), value, 0, 0)
  {
    ScanFromLayout(value, srcs, Grammars(srcs), multiline, 0, 0);
    ScanFromRebuilds(value, srcs, Grammars(srcs), multiline, 0, 0);
  }

  // ---- Folds over the segments ----

  /** The segments' characters in the markup value, concatenated. */
  function RawOf(segs: seq<Segment>): string
  {
    if segs == [] then "" else segs[0].Raw() + RawOf(segs[1..])
  }

  /** The segments' characters in the plain text, concatenated: the plain-text processor's and the display's. */
  function PlainOf(segs: seq<Segment>): string
  {
    if segs == [] then "" else segs[0].Shown() + PlainOf(segs[1..])
  }

  /** The folds over two leading segments. */
  lemma PrefixFolds(t: Segment, m: Segment, rest: seq<Segment>)
    ensures RawOf([t, m] + rest) == t.Raw() + m.Raw() + RawOf(rest)
    ensures PlainOf([t, m] + rest) == t.Shown() + m.Shown() + PlainOf(rest)
    ensures RawOf([t]) == t.Raw() && PlainOf([t]) == t.Shown()
  {
    assert ([t, m] + rest)[1..] == [m] + rest;
    assert ([m] + rest)[1..] == rest;
    assert [t][1..] == [];
  }

  /** The folds distribute over concatenation. */
  lemma {:induction false} FoldsAppend(a: seq<Segment>, b: seq<Segment>)
    ensures RawOf(a + b) == RawOf(a) + RawOf(b)
    ensures PlainOf(a + b) == PlainOf(a) + PlainOf(b)
  {
    if a == [] {
      assert a + b == b;
    } else {
      assert (a + b)[0] == a[0];
      assert (a + b)[1..] == a[1..] + b;
      FoldsAppend(a[1..], b);
    }
  }

  /** The folds over a sequence split around segment i. */
  lemma SplitAround(segs: seq<Segment>, i: nat)
    requires i < |segs|
    ensures RawOf(segs) == RawOf(segs[..i]) + (segs[i].Raw() + RawOf(segs[i + 1..]))
    ensures PlainOf(segs) == PlainOf(segs[..i]) + (segs[i].Shown() + PlainOf(segs[i + 1..]))
  {
    FoldsSplit(segs, i);
    FoldsDrop(segs, i);
  }

  /** The folds over a sequence cut at i. */
  lemma FoldsSplit(segs: seq<Segment>, i: nat)
    requires i <= |segs|
    ensures RawOf(segs) == RawOf(segs[..i]) + RawOf(segs[i..])
    ensures PlainOf(segs) == PlainOf(segs[..i]) + PlainOf(segs[i..])
  {
    assert segs == segs[..i] + segs[i..];
    FoldsAppend(segs[..i], segs[i..]);
  }

  /** The folds from segment i on: segment i, then the rest. */
  lemma FoldsDrop(segs: seq<Segment>, i: nat)
    requires i < |segs|
    ensures RawOf(segs[i..]) == segs[i].Raw() + RawOf(segs[i + 1..])
    ensures PlainOf(segs[i..]) == segs[i].Shown() + PlainOf(segs[i + 1..])
  {
    assert segs[i..][0] == segs[i] && segs[i..][1..] == segs[i + 1..];
  }

  lemma SliceOfConcat(x: string, y: string, z: string)
    ensures (x + (y + z))[|x|..|x| + |y|] == y
  {
    assert forall k :: 0 <= k < |y| ==> (x + (y + z))[|x| + k] == y[k];
  }

  // ---- Properties of a layout ----

  /**
   * The positions each segment carries are running sums: segment i starts
   * at the length of the markup, and at the length of the plain text, of the
   * segments before it.
   */
  lemma LayoutPositions(segs: seq<Segment>, start: nat, plain: nat, end: nat, i: nat)
    requires Layout(segs, start, plain, end) && i < |segs|
    ensures segs[i].start == start + |RawOf(segs[..i])|
    ensures segs[i].plainStart == plain + |PlainOf(segs[..i])|
  {
    LayoutRawPosition(segs, start, plain, end, i);
    LayoutPlainPosition(segs, start, plain, end, i);
  }

  /** Segment i starts in the markup at the length of the segments before it. */
  lemma {:induction false} LayoutRawPosition(segs: seq<Segment>, start: nat, plain: nat, end: nat, i: nat)
    requires Layout(segs, start, plain, end) && i < |segs|
    decreases |segs|
    ensures segs[i].start == start + |RawOf(segs[..i])|
  {
    if i >= 2 {
      var t, m, rest := segs[0], segs[1], segs[2..];
      LayoutRawPosition(rest, m.start + |m.markup|, m.plainStart + |m.display|, end, i - 2);
      assert segs[i] == rest[i - 2];
      assert segs[..i] == [t, m] + rest[..i - 2];
      PrefixFolds(t, m, rest[..i - 2]);
      assert t.Raw() == t.text && m.Raw() == m.markup;
    } else if i == 1 {
      assert segs[..1] == [segs[0]];
      PrefixFolds(segs[0], segs[0], []);
    } else {
      assert segs[..0] == [];
    }
  }

  /** Segment i starts in the plain text at the length of the segments before it. */
  lemma {:induction false} LayoutPlainPosition(segs: seq<Segment>, start: nat, plain: nat, end: nat, i: nat)
    requires Layout(segs, start, plain, end) && i < |segs|
    decreases |segs|
    ensures segs[i].plainStart == plain + |PlainOf(segs[..i])|
  {
    if i >= 2 {
      var t, m, rest := segs[0], segs[1], segs[2..];
      LayoutPlainPosition(rest, m.start + |m.markup|, m.plainStart + |m.display|, end, i - 2);
      assert segs[i] == rest[i - 2];
      assert segs[..i] == [t, m] + rest[..i - 2];
      PrefixFolds(t, m, rest[..i - 2]);
      assert t.Shown() == t.text && m.Shown() == m.display;
    } else if i == 1 {
      assert segs[..1] == [segs[0]];
      PrefixFolds(segs[0], segs[0], []);
    } else {
      assert segs[..0] == [];
    }
  }

  /** Every segment lies inside the covered markup range, and starts at or after the first plain-text position. */
  lemma {:induction false} LayoutWithin(segs: seq<Segment>, start: nat, plain: nat, end: nat, i: nat)
    requires Layout(segs, start, plain, end) && i < |segs|
    decreases |segs|
    ensures start <= segs[i].start && segs[i].start + |segs[i].Raw()| <= end
    ensures plain <= segs[i].plainStart
  {
    if |segs| >= 2 {
      var m := segs[1];
      if i >= 2 {
        LayoutWithin(segs[2..], m.start + |m.markup|, m.plainStart + |m.display|, end, i - 2);
      }
    }
  }

  /** A segment ends in plain text no later than the plain-text length of the whole layout. */
  lemma {:induction false} LayoutPlainLength(segs: seq<Segment>, start: nat, plain: nat, end: nat, i: nat)
    requires Layout(segs, start, plain, end) && i < |segs|
    decreases |segs|
    ensures segs[i].plainStart + |segs[i].Shown()| <= plain + |PlainOf(segs)|
  {
    if |segs| >= 2 {
      var t, m := segs[0], segs[1];
      PrefixFolds(t, m, segs[2..]);
      assert segs == [t, m] + segs[2..];
      if i >= 2 {
        LayoutPlainLength(segs[2..], m.start + |m.markup|, m.plainStart + |m.display|, end, i - 2);
      }
    } else {
      PrefixFolds(segs[0], segs[0], []);
      assert segs == [segs[0]];
    }
  }

  /**
   * Later segments begin, in the markup and in the plain text, no earlier
   * than where an earlier one ends.
   */
  lemma {:induction false} LayoutOrdered(segs: seq<Segment>, start: nat, plain: nat, end: nat, i: nat, j: nat)
    requires Layout(segs, start, plain, end) && i < j < |segs|
    decreases |segs|
    ensures segs[i].start + |segs[i].Raw()| <= segs[j].start
    ensures segs[i].plainStart + |segs[i].Shown()| <= segs[j].plainStart
  {
    var m := segs[1];
    var next, nextPlain := m.start + |m.markup|, m.plainStart + |m.display|;
    if i >= 2 {
      LayoutOrdered(segs[2..], next, nextPlain, end, i - 2, j - 2);
    } else if j >= 2 {
      LayoutWithin(segs[2..], next, nextPlain, end, j - 2);
    }
  }

  /** Segment i of segs sits in the folds right after the folds of the segments before it. */
  lemma FoldsPlace(segs: seq<Segment>, i: nat, value: string, start: nat)
    requires i < |segs| && start <= |value| && RawOf(segs) == value[start..]
    ensures var p, n := |PlainOf(segs[..i])|, |segs[i].Shown()|;
            p + n <= |PlainOf(segs)| && PlainOf(segs)[p..p + n] == segs[i].Shown()
    ensures var r, n := start + |RawOf(segs[..i])|, |segs[i].Raw()|;
            r + n <= |value| && value[r..r + n] == segs[i].Raw()
  {
    SplitAround(segs, i);
    var before, after := segs[..i], segs[i + 1..];
    SliceOfConcat(PlainOf(before), segs[i].Shown(), PlainOf(after));
    SliceOfConcat(RawOf(before), segs[i].Raw(), RawOf(after));
    var q := |RawOf(before)|;
    assert value[start..][q..q + |segs[i].Raw()|] == value[start + q..start + q + |segs[i].Raw()|];
  }

  /** The segment after a mention begins where the mention ends, in the markup and in the plain text. */
  lemma {:induction false} LayoutAfterMention(segs: seq<Segment>, start: nat, plain: nat, end: nat, i: nat)
    requires Layout(segs, start, plain, end) && i + 1 < |segs| && segs[i].Mention?
    decreases |segs|
    ensures segs[i + 1].start == segs[i].start + |segs[i].markup|
    ensures segs[i + 1].plainStart == segs[i].plainStart + |segs[i].display|
  {
    var m := segs[1];
    var rest := segs[2..];
    if i >= 2 {
      assert rest[i - 2] == segs[i] && rest[i - 1] == segs[i + 1];
      LayoutAfterMention(rest, m.start + |m.markup|, m.plainStart + |m.display|, end, i - 2);
    } else {
      assert rest[0] == segs[2];
    }
  }

  /** Every segment of a tiling sits in the plain text at its reported plain-text index. */
  lemma TilingPlacesShown(segs: seq<Segment>, value: string, start: nat, plain: nat, i: nat)
    requires Tiling(segs, value, start, plain) && i < |segs|
    ensures var p, n := segs[i].plainStart - plain, |segs[i].Shown()|;
            && 0 <= p && p + n <= |PlainOf(segs)|
            && PlainOf(segs)[p..p + n] == segs[i].Shown()
  {
    LayoutPositions(segs, start, plain, |value|, i);
    FoldsPlace(segs, i, value, start);
  }

  /** Every segment of a tiling sits in the value at its reported index. */
  lemma TilingPlacesRaw(segs: seq<Segment>, value: string, start: nat, plain: nat, i: nat)
    requires Tiling(segs, value, start, plain) && i < |segs|
    ensures var r, n := segs[i].start, |segs[i].Raw()|;
            && start <= r && r + n <= |value|
            && value[r..r + n] == segs[i].Raw()
  {
    LayoutPositions(segs, start, plain, |value|, i);
    FoldsPlace(segs, i, value, start);
  }

  // ---- getPlainText ----

  /** The plain text of value: every text run and every mention's display, in order. */
  function PlainText(value: string, srcs: seq<Source>, multiline: bool): string
    requires ValidSources(srcs)
  {
    PlainOf(Scan(value, srcs, multiline))
  }

  /** The two callbacks of `getPlainText`: each text run and each display is appended to `result`. */
  method CollectPlainText(segments: seq<Segment>) returns (result: string)
    ensures result == PlainOf(segments)
  {
    result := "";
    for i := 0 to |segments|
      invariant result + PlainOf(segments[i..]) == PlainOf(segments)
    {
      assert segments[i..][1..] == segments[i + 1..];
      result := result + segments[i].Shown();
    }
  }

  /** `getPlainText`. */
  method GetPlainText(value: string, srcs: seq<Source>, multiline: bool) returns (result: string)
    requires ValidSources(srcs)
    ensures result == PlainText(value, srcs, multiline)
  {
    var scanned := IterateMentionsMarkup(value, srcs, multiline);
    var segments := scanned.value;
    result := CollectPlainText(segments);
  }

  /** Without mentions the plain-text fold is the markup fold. */
  lemma {:induction false} NoMentionsPlainIsRaw(segs: seq<Segment>)
    requires MentionsOf(segs) == []
    ensures PlainOf(segs) == RawOf(segs)
  {
    if segs != [] {
      assert segs[0].Text?;
      NoMentionsPlainIsRaw(segs[1..]);
    }
  }

  /** A value without mentions is its own plain text. */
  lemma PlainTextWithoutMentions(value: string, srcs: seq<Source>, multiline: bool)
    requires ValidSources(srcs) && MentionsOf(Scan(value, srcs, multiline)) == []
    ensures PlainText(value, srcs, multiline) == value
  {
    ScanTiles(value, srcs, multiline);
    NoMentionsPlainIsRaw(Scan(value, srcs, multiline));
  }

  /** The scan of a value without mentions: one text run, or nothing for the empty value. */
  function TextOnly(value: string): seq<Segment>
  {
    if value == "" then [] else [Text(value, 0, 0)]
  }

  /** A scan that finds no mention reports the rest of the value as one text run, whatever the multi-line setting. */
  lemma ScanFromWithoutMentions(value: string, srcs: seq<Source>, gs: seq<Grammar>, multiline: bool, other: bool,
                                start: nat, plain: nat)
    requires GrammarsFit(srcs, gs) && start <= |value|
    requires MentionsOf(ScanFrom(value, srcs, gs, multiline, start, plain)) == []
    ensures ScanFrom(value, srcs, gs, other, start, plain)
            == if start < |value| then [Text(value[start..], start, plain)] else []
  {
    match FindMatch(gs, value, start)
    case None =>
      ScanFromEnd(value, srcs, gs, other, start, plain);
    case Some(f) =>
      assert false;
  }

  lemma ScanWithoutMentions(value: string, srcs: seq<Source>, multiline: bool, other: bool)
    requires ValidSources(srcs) && MentionsOf(Scan(value, srcs, multiline)) == []
    ensures Scan(value, srcs, other) == TextOnly(value)
  {
    ScanFromWithoutMentions(value, srcs, Grammars(srcs), multiline, other, 0, 0);
    assert value[0..] == value;
  }

  /** Without mentions the plain text is the value itself. */
  lemma TextOnlyPlain(value: string)
    ensures PlainOf(TextOnly(value)) == value
    ensures MentionsOf(TextOnly(value)) == []
  {
    if value != "" {
      PrefixFolds(Text(value, 0, 0), Text(value, 0, 0), []);
    }
  }

  // ---- getMentions ----

  /** The mentions among the segments, as `MentionData` records. */
  function MentionsOf(segs: seq<Segment>): (r: seq<MentionData>)
    ensures |r| <= |segs|
  {
    if segs == [] then []
    else
      var s := segs[0];
      (if s.Mention? then [MentionData(s.id, s.display, s.source, s.start, s.plainStart)] else [])
        + MentionsOf(segs[1..])
  }

  /** `getMentions` scans without the multi-line display conversion. */
  function Mentions(value: string, srcs: seq<Source>): seq<MentionData>
    requires ValidSources(srcs)
  {
    MentionsOf(Scan(value, srcs, false))
  }

  /** The mention callback of `getMentions`: one record pushed per mention. */
  method CollectMentions(segments: seq<Segment>) returns (mentions: seq<MentionData>)
    ensures mentions == MentionsOf(segments)
  {
    mentions := [];
    for i := 0 to |segments|
      invariant mentions + MentionsOf(segments[i..]) == MentionsOf(segments)
    {
      assert segments[i..][1..] == segments[i + 1..];
      var s := segments[i];
      if s.Mention? {
        mentions := mentions + [MentionData(s.id, s.display, s.source, s.start, s.plainStart)];
      }
    }
  }

  /** `getMentions`. */
  method GetMentions(value: string, srcs: seq<Source>) returns (mentions: seq<MentionData>)
    requires ValidSources(srcs)
    ensures mentions == Mentions(value, srcs)
  {
    var scanned := IterateMentionsMarkup(value, srcs, false);
    var segments := scanned.value;
    mentions := CollectMentions(segments);
  }

  /** Mentions come in order: each begins, in the markup and in the plain text, after the previous one ends. */
  ghost predicate MentionsOrdered(ms: seq<MentionData>) {
    forall i, j :: 0 <= i < j < |ms| ==>
      ms[i].index < ms[j].index && ms[i].plainTextIndex + |ms[i].display| <= ms[j].plainTextIndex
  }

  /** Every record starts at or after markup position start and plain-text position plain. */
  ghost predicate MentionsFrom(ms: seq<MentionData>, start: int, plain: int) {
    forall i :: 0 <= i < |ms| ==> start <= ms[i].index && plain <= ms[i].plainTextIndex
  }

  /** Prepending a record that ends before all the others keeps the records in order. */
  lemma OrderedCons(first: MentionData, rest: seq<MentionData>)
    requires MentionsOrdered(rest)
    requires MentionsFrom(rest, first.index + 1, first.plainTextIndex + |first.display|)
    ensures MentionsOrdered([first] + rest)
    ensures MentionsFrom([first] + rest, first.index, first.plainTextIndex)
  {
    var ms := [first] + rest;
    forall i, j | 0 <= i < j < |ms|
      ensures ms[i].index < ms[j].index && ms[i].plainTextIndex + |ms[i].display| <= ms[j].plainTextIndex
    {
      assert ms[j] == rest[j - 1];
      if i > 0 {
        assert ms[i] == rest[i - 1];
      }
    }
    forall i | 0 <= i < |ms| ensures first.index <= ms[i].index && first.plainTextIndex <= ms[i].plainTextIndex {
      if i > 0 {
        assert ms[i] == rest[i - 1];
      }
    }
  }

  /** The records of a layout that starts with a text run and a mention. */
  lemma MentionsOfPair(segs: seq<Segment>)
    requires |segs| >= 2 && segs[0].Text? && segs[1].Mention?
    ensures var m := segs[1];
            MentionsOf(segs) == [MentionData(m.id, m.display, m.source, m.start, m.plainStart)] + MentionsOf(segs[2..])
  {
    assert segs[1..][1..] == segs[2..];
  }

  /** The mentions of a layout are in order and lie after its start. */
  lemma {:induction false} LayoutMentionsOrdered(segs: seq<Segment>, start: nat, plain: nat, end: nat)
    requires Layout(segs, start, plain, end)
    decreases |segs|
    ensures MentionsOrdered(MentionsOf(segs))
    ensures MentionsFrom(MentionsOf(segs), start, plain)
  {
    if |segs| >= 2 {
      var m := segs[1];
      LayoutMentionsOrdered(segs[2..], m.start + |m.markup|, m.plainStart + |m.display|, end);
      MentionsOfPair(segs);
      OrderedCons(MentionData(m.id, m.display, m.source, m.start, m.plainStart), MentionsOf(segs[2..]));
    } else if |segs| == 1 {
      assert MentionsOf(segs) == [];
    }
  }

  /** `getMentions` reports the scan's mentions in increasing markup and plain-text order. */
  lemma MentionsInOrder(value: string, srcs: seq<Source>)
    requires ValidSources(srcs)
    ensures MentionsOrdered(Mentions(value, srcs))
  {
    ScanTiles(value, srcs, false);
    LayoutMentionsOrdered(Scan(value, srcs, false), 0, 0, |value|);
  }

  /** Each reported mention is one of the segments. */
  lemma {:induction false} MentionsAreSegments(segs: seq<Segment>, start: nat, plain: nat, end: nat, i: nat)
    requires Layout(segs, start, plain, end) && i < |MentionsOf(segs)|
    decreases |segs|
    ensures exists k :: 0 <= k < |segs| && segs[k].Mention? && segs[k].start == MentionsOf(segs)[i].index
                        && segs[k].plainStart == MentionsOf(segs)[i].plainTextIndex
                        && segs[k].display == MentionsOf(segs)[i].display
  {
    var m := segs[1];
    MentionsOfPair(segs);
    if i == 0 {
      assert segs[1].Mention?;
    } else {
      var rest := segs[2..];
      MentionsAreSegments(rest, m.start + |m.markup|, m.plainStart + |m.display|, end, i - 1);
      var k :| 0 <= k < |rest| && rest[k].Mention? && rest[k].start == MentionsOf(rest)[i - 1].index
                && rest[k].plainStart == MentionsOf(rest)[i - 1].plainTextIndex
                && rest[k].display == MentionsOf(rest)[i - 1].display;
      assert segs[k + 2] == rest[k];
    }
  }

  /** Each mention's display sits in the plain text at its reported plain-text index. */
  lemma MentionsPlaced(value: string, srcs: seq<Source>, i: nat)
    requires ValidSources(srcs) && i < |Mentions(value, srcs)|
    ensures var m, plain := Mentions(value, srcs)[i], PlainText(value, srcs, false);
            && m.plainTextIndex + |m.display| <= |plain|
            && plain[m.plainTextIndex..m.plainTextIndex + |m.display|] == m.display
  {
    var segs := Scan(value, srcs, false);
    assert Mentions(value, srcs) == MentionsOf(segs) && PlainText(value, srcs, false) == PlainOf(segs);
    ScanTiles(value, srcs, false);
    TilingPlacesMentions(segs, value, i);
  }

  /** MentionsPlaced over any tiling of a value. */
  lemma TilingPlacesMentions(segs: seq<Segment>, value: string, i: nat)
    requires Tiling(segs, value, 0, 0) && i < |MentionsOf(segs)|
    ensures var m, plain := MentionsOf(segs)[i], PlainOf(segs);
            && m.plainTextIndex + |m.display| <= |plain|
            && plain[m.plainTextIndex..m.plainTextIndex + |m.display|] == m.display
  {
    var k := MentionSegment(segs, 0, 0, |value|, i);
    MentionShownAt(segs, value, k);
  }

  /** The segment that the i-th mention of a layout was collected from. */
  lemma MentionSegment(segs: seq<Segment>, start: nat, plain: nat, end: nat, i: nat) returns (k: nat)
    requires Layout(segs, start, plain, end) && i < |MentionsOf(segs)|
    ensures k < |segs| && segs[k].Mention?
    ensures segs[k].plainStart == MentionsOf(segs)[i].plainTextIndex
    ensures segs[k].display == MentionsOf(segs)[i].display
  {
    MentionsAreSegments(segs, start, plain, end, i);
    k :| 0 <= k < |segs| && segs[k].Mention? && segs[k].start == MentionsOf(segs)[i].index
         && segs[k].plainStart == MentionsOf(segs)[i].plainTextIndex
         && segs[k].display == MentionsOf(segs)[i].display;
  }

  /** A mention segment of a tiling from 0 shows its display at its plain-text index. */
  lemma MentionShownAt(segs: seq<Segment>, value: string, k: nat)
    requires Tiling(segs, value, 0, 0) && k < |segs| && segs[k].Mention?
    ensures var m, plain := segs[k], PlainOf(segs);
            && m.plainStart + |m.display| <= |plain|
            && plain[m.plainStart..m.plainStart + |m.display|] == m.display
  {
    TilingPlacesShown(segs, value, 0, 0, k);
  }

  // ---- getEndOfLastMention ----

  /** The plain-text end of the last mention, or 0 when there is none. */
  function LastMentionEnd(ms: seq<MentionData>): nat
  {
    if ms == [] then 0 else ms[|ms| - 1].plainTextIndex + |ms[|ms| - 1].display|
  }

  /** `getEndOfLastMention`. */
  method GetEndOfLastMention(value: string, srcs: seq<Source>) returns (r: nat)
    requires ValidSources(srcs)
    ensures r == LastMentionEnd(Mentions(value, srcs))
  {
    var mentions := GetMentions(value, srcs);
    if |mentions| > 0 {
      var lastMention := mentions[|mentions| - 1];
      r := lastMention.plainTextIndex + |lastMention.display|;
    } else {
      r := 0;
    }
  }

  /**
   * In a layout, the end of the last mention is the largest plain-text end
   * of any mention, and it lies within the plain text.
   */
  lemma LayoutLastMentionEnd(segs: seq<Segment>, end: nat)
    requires Layout(segs, 0, 0, end)
    ensures var ms := MentionsOf(segs);
            && (forall i :: 0 <= i < |ms| ==> ms[i].plainTextIndex + |ms[i].display| <= LastMentionEnd(ms))
            && LastMentionEnd(ms) <= |PlainOf(segs)|
  {
    LayoutMentionsOrdered(segs, 0, 0, end);
    OrderedBeforeLast(MentionsOf(segs));
    if MentionsOf(segs) != [] {
      LastMentionWithin(segs, end);
    }
  }

  /** In ordered records, every record ends by the end of the last one. */
  lemma OrderedBeforeLast(ms: seq<MentionData>)
    requires MentionsOrdered(ms)
    ensures forall i :: 0 <= i < |ms| ==> ms[i].plainTextIndex + |ms[i].display| <= LastMentionEnd(ms)
  {
    forall i | 0 <= i < |ms|
      ensures ms[i].plainTextIndex + |ms[i].display| <= LastMentionEnd(ms)
    {
      if i < |ms| - 1 {
        assert ms[i].plainTextIndex + |ms[i].display| <= ms[|ms| - 1].plainTextIndex;
      }
    }
  }

  /** The last mention of a layout ends within its plain text. */
  lemma LastMentionWithin(segs: seq<Segment>, end: nat)
    requires Layout(segs, 0, 0, end) && MentionsOf(segs) != []
    ensures LastMentionEnd(MentionsOf(segs)) <= |PlainOf(segs)|
  {
    var ms := MentionsOf(segs);
    MentionsAreSegments(segs, 0, 0, end, |ms| - 1);
    var k :| 0 <= k < |segs| && segs[k].Mention? && segs[k].start == ms[|ms| - 1].index
              && segs[k].plainStart == ms[|ms| - 1].plainTextIndex
              && segs[k].display == ms[|ms| - 1].display;
    LayoutPlainLength(segs, 0, 0, end, k);
  }

  /** `getEndOfLastMention` bounds every mention's end and lies within the plain text. */
  lemma LastMentionEndBounds(value: string, srcs: seq<Source>)
    requires ValidSources(srcs)
    ensures var ms := Mentions(value, srcs);
            && (forall i :: 0 <= i < |ms| ==> ms[i].plainTextIndex + |ms[i].display| <= LastMentionEnd(ms))
            && LastMentionEnd(ms) <= |PlainText(value, srcs, false)|
  {
    ScanTiles(value, srcs, false);
    LayoutLastMentionEnd(Scan(value, srcs, false), |value|);
  }

  // ---- mapPlainTextIndex ----

  /** What `mapPlainTextIndex` returns for an index inside a mention (`inMarkupCorrection`). */
  datatype Correction = Start | End | Null

  /**
   * What the callbacks record for one segment and plain-text index p: a text
   * run catches p when it ends at or after p, and maps it by its offset in
   * the run; a mention catches p when its display ends after p, and gives
   * null, the markup start or the markup end. None: the segment does not
   * catch p; Some(None): null; Some(Some(x)): the markup index x.
   */
  function CatchAt(s: Segment, p: int, correction: Correction): Option<Option<int>>
  {
    if s.Text? then
      if s.plainStart + |s.text| >= p then Some(Some(s.start + p - s.plainStart)) else None
    else if s.plainStart + |s.display| > p then
      match correction
      case Null => Some(None)
      case Start => Some(Some(s.start))
      case End => Some(Some(s.start + |s.markup|))
    else None
  }

  /** The first catch: once `result` is set, later callbacks return early. */
  function FirstCatch(segs: seq<Segment>, p: int, correction: Correction): Option<Option<int>>
  {
    if segs == [] then None
    else if CatchAt(segs[0], p, correction).Some? then CatchAt(segs[0], p, correction)
    else FirstCatch(segs[1..], p, correction)
  }

  /** The index p maps to: the first catch, or the value's length when nothing caught p. */
  function MapIndexOf(segs: seq<Segment>, valueLength: nat, p: int, correction: Correction): Option<int>
  {
    match FirstCatch(segs, p, correction)
    case Some(r) => r
    case None => Some(valueLength)
  }

  /** `mapPlainTextIndex` on a numeric index; its scan uses no multi-line conversion. */
  function MappedIndex(value: string, srcs: seq<Source>, p: int, correction: Correction): Option<int>
    requires ValidSources(srcs)
  {
    MapIndexOf(Scan(value, srcs, false), |value|, p, correction)
  }

  /** The two callbacks of `mapPlainTextIndex` and its final `undefined` check. */
  method LocatePlainTextIndex(segments: seq<Segment>, valueLength: nat, indexInPlainText: int,
                              inMarkupCorrection: Correction)
    returns (r: Option<int>)
    ensures r == MapIndexOf(segments, valueLength, indexInPlainText, inMarkupCorrection)
  {
    var result: Option<Option<int>> := None;
    for i := 0 to |segments|
      invariant (if result.Some? then result else FirstCatch(segments[i..], indexInPlainText, inMarkupCorrection))
                == FirstCatch(segments, indexInPlainText, inMarkupCorrection)
    {
      assert segments[i..][1..] == segments[i + 1..];
      var s := segments[i];
      if result.None? {
        if s.Text? {
          if s.plainStart + |s.text| >= indexInPlainText {
            result := Some(Some(s.start + indexInPlainText - s.plainStart));
          }
        } else if s.plainStart + |s.display| > indexInPlainText {
          if inMarkupCorrection == Null {
            result := Some(None);
          } else {
            result := Some(Some(s.start + (if inMarkupCorrection == End then |s.markup| else 0)));
          }
        }
      }
    }
    r := if result.None? then Some(valueLength) else result.value;
  }

  /** `mapPlainTextIndex`. */
  method MapPlainTextIndex(value: string, srcs: seq<Source>, indexInPlainText: int, inMarkupCorrection: Correction)
    returns (r: Option<int>)
    requires ValidSources(srcs)
    ensures r == MappedIndex(value, srcs, indexInPlainText, inMarkupCorrection)
  {
    var scanned := IterateMentionsMarkup(value, srcs, false);
    var segments := scanned.value;
    r := LocatePlainTextIndex(segments, |value|, indexInPlainText, inMarkupCorrection);
  }

  /** p lies strictly inside segment s's display: after its first character's position, before its end. */
  predicate StrictlyInside(s: Segment, p: int) {
    s.Mention? && s.plainStart < p < s.plainStart + |s.display|
  }

  /**
   * An index strictly inside a mention's display is caught by that mention:
   * null, the markup start or the markup end.
   */
  lemma {:induction false} MapInsideMention(segs: seq<Segment>, start: nat, plain: nat, end: nat, i: nat, p: int,
                                            correction: Correction)
    requires Layout(segs, start, plain, end) && i < |segs| && StrictlyInside(segs[i], p)
    decreases |segs|
    ensures FirstCatch(segs, p, correction)
            == Some(match correction
                    case Null => None
                    case Start => Some(segs[i].start)
                    case End => Some(segs[i].start + |segs[i].markup|))
  {
    var m := segs[1];
    var next, nextPlain := m.start + |m.markup|, m.plainStart + |m.display|;
    assert segs[1..][1..] == segs[2..];
    if i >= 2 {
      LayoutWithin(segs[2..], next, nextPlain, end, i - 2);
      MapInsideMention(segs[2..], next, nextPlain, end, i - 2, p, correction);
    }
  }

  /**
   * An index inside a text run maps to the run's markup start plus the
   * index's offset in the run; the run's own first position only when it is
   * the first segment (otherwise the run before the preceding mention may
   * already catch it).
   */
  lemma {:induction false} MapInsideText(segs: seq<Segment>, start: nat, plain: nat, end: nat, i: nat, p: int,
                                         correction: Correction)
    requires Layout(segs, start, plain, end) && i < |segs| && segs[i].Text?
    requires p <= segs[i].plainStart + |segs[i].text|
    requires i == 0 || segs[i].plainStart < p
    decreases |segs|
    ensures FirstCatch(segs, p, correction) == Some(Some(segs[i].start + p - segs[i].plainStart))
  {
    if i >= 2 {
      var m := segs[1];
      var next, nextPlain := m.start + |m.markup|, m.plainStart + |m.display|;
      assert segs[1..][1..] == segs[2..];
      LayoutWithin(segs[2..], next, nextPlain, end, i - 2);
      MapInsideText(segs[2..], next, nextPlain, end, i - 2, p, correction);
    }
  }

  /** Only an index strictly inside a mention maps to null. */
  lemma {:induction false} MapNullOnlyInside(segs: seq<Segment>, start: nat, plain: nat, end: nat, p: int)
    requires Layout(segs, start, plain, end) && FirstCatch(segs, p, Null) == Some(None)
    decreases |segs|
    ensures exists i :: 0 <= i < |segs| && StrictlyInside(segs[i], p)
  {
    var m := segs[1];
    assert segs[1..][1..] == segs[2..];
    if !StrictlyInside(m, p) {
      var rest := segs[2..];
      MapNullOnlyInside(rest, m.start + |m.markup|, m.plainStart + |m.display|, end, p);
      var i :| 0 <= i < |rest| && StrictlyInside(rest[i], p);
      assert segs[i + 2] == rest[i];
    }
  }

  /** `mapPlainTextIndex` with NULL gives null exactly for an index strictly inside a mention. */
  lemma MapNullIffInside(segs: seq<Segment>, start: nat, plain: nat, end: nat, p: int)
    requires Layout(segs, start, plain, end)
    ensures FirstCatch(segs, p, Null) == Some(None) <==> exists i :: 0 <= i < |segs| && StrictlyInside(segs[i], p)
  {
    if FirstCatch(segs, p, Null) == Some(None) {
      MapNullOnlyInside(segs, start, plain, end, p);
    }
    if i :| 0 <= i < |segs| && StrictlyInside(segs[i], p) {
      MapInsideMention(segs, start, plain, end, i, p, Null);
    }
  }

  /** An index at a mention's first position or just after its display is never mapped to null. */
  lemma MapBoundaryNotNull(segs: seq<Segment>, start: nat, plain: nat, end: nat, i: nat, p: int)
    requires Layout(segs, start, plain, end) && i < |segs| && segs[i].Mention?
    requires p == segs[i].plainStart || p == segs[i].plainStart + |segs[i].display|
    ensures FirstCatch(segs, p, Null) != Some(None)
  {
    if FirstCatch(segs, p, Null) == Some(None) {
      MapNullOnlyInside(segs, start, plain, end, p);
      var j :| 0 <= j < |segs| && StrictlyInside(segs[j], p);
      if j < i {
        LayoutOrdered(segs, start, plain, end, j, i);
      } else if i < j {
        LayoutOrdered(segs, start, plain, end, i, j);
      }
    }
  }

  /** Nothing catches an index beyond the end of the plain text, so it maps to the value's length. */
  lemma {:induction false} MapBeyondEnd(segs: seq<Segment>, start: nat, plain: nat, end: nat, p: int,
                                        correction: Correction)
    requires Layout(segs, start, plain, end) && p > plain + |PlainOf(segs)|
    decreases |segs|
    ensures FirstCatch(segs, p, correction) == None
  {
    if |segs| >= 2 {
      var t, m := segs[0], segs[1];
      PrefixFolds(t, m, segs[2..]);
      assert segs == [t, m] + segs[2..];
      assert segs[1..][1..] == segs[2..];
      MapBeyondEnd(segs[2..], m.start + |m.markup|, m.plainStart + |m.display|, end, p, correction);
    } else if |segs| == 1 {
      PrefixFolds(segs[0], segs[0], []);
      assert segs == [segs[0]];
    }
  }

  /** With START or END the result is always a number. */
  lemma {:induction false} MapStartEndNumeric(segs: seq<Segment>, p: int, correction: Correction)
    requires correction != Null
    ensures FirstCatch(segs, p, correction) != Some(None)
  {
    if segs != [] && CatchAt(segs[0], p, correction).None? {
      MapStartEndNumeric(segs[1..], p, correction);
    }
  }

  /** The scan-level statement: null exactly strictly inside a mention, a number otherwise. */
  lemma MappedIndexNullIffInside(value: string, srcs: seq<Source>, p: int)
    requires ValidSources(srcs)
    ensures var segs := Scan(value, srcs, false);
            MappedIndex(value, srcs, p, Null) == None <==> exists i :: 0 <= i < |segs| && StrictlyInside(segs[i], p)
  {
    ScanTiles(value, srcs, false);
    MapNullIffInside(Scan(value, srcs, false), 0, 0, |value|, p);
  }

  /**
   * Without mentions, every index maps to itself as far as `substring` is
   * concerned: indices inside the value map to themselves, and the result is
   * always a number.
   */
  lemma MapWithoutMentions(value: string, srcs: seq<Source>, p: int, correction: Correction)
    requires ValidSources(srcs) && Scan(value, srcs, false) == TextOnly(value)
    ensures MappedIndex(value, srcs, p, correction).Some?
    ensures Clamp(MappedIndex(value, srcs, p, correction).value, |value|) == Clamp(p, |value|)
    ensures 0 <= p <= |value| ==> MappedIndex(value, srcs, p, correction) == Some(p)
  {
    var segs := TextOnly(value);
    assert MappedIndex(value, srcs, p, correction) == MapIndexOf(segs, |value|, p, correction);
    if value != "" {
      assert segs[1..] == [];
      assert FirstCatch(segs[1..], p, correction) == None;
    }
  }

  /**
   * The markup index x separates the mentions as the plain-text index p
   * does: x is after every mention whose display starts before p, and before
   * every mention whose display starts at or after p.
   */
  ghost predicate SplitsMentions(segs: seq<Segment>, p: int, x: int) {
    forall i :: 0 <= i < |segs| && segs[i].Mention? ==>
      && (segs[i].plainStart < p ==> segs[i].start + |segs[i].markup| <= x)
      && (p <= segs[i].plainStart ==> x <= segs[i].start)
  }

  /**
   * An index strictly inside no mention is mapped alike by all three
   * corrections, to a markup index within the covered range that lies after
   * every mention whose display starts before the index and before every
   * mention whose display starts at or after it.
   */
  lemma {:induction false} MapOutsideMentions(segs: seq<Segment>, start: nat, plain: nat, end: nat, p: int,
                                              correction: Correction)
    requires Layout(segs, start, plain, end)
    requires forall i :: 0 <= i < |segs| ==> !StrictlyInside(segs[i], p)
    decreases |segs|
    ensures MapIndexOf(segs, end, p, correction) == MapIndexOf(segs, end, p, Null)
    ensures MapIndexOf(segs, end, p, Null).Some?
    ensures var x := MapIndexOf(segs, end, p, Null).value;
            x <= end && (plain <= p ==> start <= x) && SplitsMentions(segs, p, x)
  {
    if |segs| >= 2 {
      var t, m := segs[0], segs[1];
      var next, nextPlain := m.start + |m.markup|, m.plainStart + |m.display|;
      var rest := segs[2..];
      assert segs[1..][1..] == rest;
      if t.plainStart + |t.text| < p {
        assert !StrictlyInside(m, p);
        forall i | 0 <= i < |rest| ensures !StrictlyInside(rest[i], p) {
          assert rest[i] == segs[i + 2];
        }
        MapOutsideMentions(rest, next, nextPlain, end, p, correction);
        MapOutsideMentions(rest, next, nextPlain, end, p, Null);
        assert FirstCatch(segs, p, correction) == FirstCatch(rest, p, correction);
        assert FirstCatch(segs, p, Null) == FirstCatch(rest, p, Null);
        var x := MapIndexOf(rest, end, p, Null).value;
        forall i | 0 <= i < |segs| && segs[i].Mention?
          ensures segs[i].plainStart < p ==> segs[i].start + |segs[i].markup| <= x
          ensures p <= segs[i].plainStart ==> x <= segs[i].start
        {
          if i >= 2 {
            assert segs[i] == rest[i - 2];
          }
        }
      } else {
        var x := t.start + p - t.plainStart;
        assert FirstCatch(segs, p, correction) == Some(Some(x)) == FirstCatch(segs, p, Null);
        forall i | 0 <= i < |segs| && segs[i].Mention?
          ensures segs[i].plainStart < p ==> segs[i].start + |segs[i].markup| <= x
          ensures p <= segs[i].plainStart ==> x <= segs[i].start
        {
          if i >= 2 {
            LayoutWithin(rest, next, nextPlain, end, i - 2);
          }
        }
      }
    } else if |segs| == 1 {
      assert FirstCatch(segs[1..], p, correction) == None && FirstCatch(segs[1..], p, Null) == None;
    }
  }

  /**
   * The index right after a non-empty display is mapped, under every
   * correction, to the markup index right after the mention's markup.
   */
  lemma {:induction false} MapAfterMention(segs: seq<Segment>, start: nat, plain: nat, end: nat, i: nat,
                                           correction: Correction)
    requires Layout(segs, start, plain, end) && i < |segs| && segs[i].Mention? && |segs[i].display| > 0
    decreases |segs|
    ensures MapIndexOf(segs, end, segs[i].plainStart + |segs[i].display|, correction)
            == Some(segs[i].start + |segs[i].markup|)
  {
    var m := segs[1];
    var next, nextPlain := m.start + |m.markup|, m.plainStart + |m.display|;
    var rest := segs[2..];
    assert segs[1..][1..] == rest;
    if i >= 2 {
      assert rest[i - 2] == segs[i];
      LayoutWithin(rest, next, nextPlain, end, i - 2);
      MapAfterMention(rest, next, nextPlain, end, i - 2, correction);
      var p := segs[i].plainStart + |segs[i].display|;
      assert CatchAt(segs[0], p, correction).None? && CatchAt(m, p, correction).None?;
      assert FirstCatch(segs, p, correction) == FirstCatch(rest, p, correction);
    } else {
      assert CatchAt(segs[0], nextPlain, correction).None? && CatchAt(m, nextPlain, correction).None?;
      assert FirstCatch(segs, nextPlain, correction) == FirstCatch(rest, nextPlain, correction);
      if rest != [] {
        assert rest[0].Text? && rest[0].start == next && rest[0].plainStart == nextPlain;
        assert CatchAt(rest[0], nextPlain, correction) == Some(Some(next));
      }
    }
  }

  // ---- findStartOfMentionInPlainText ----

  /** p lies in segment s's display. */
  predicate ContainsIndex(s: Segment, p: int) {
    s.Mention? && s.plainStart <= p < s.plainStart + |s.display|
  }

  /** The plain-text start of the last mention whose display contains p: each such mention overwrites `result`. */
  function MentionStartAt(segs: seq<Segment>, p: int): Option<int>
  {
    if segs == [] then None
    else
      var later := MentionStartAt(segs[1..], p);
      if later.Some? then later
      else if ContainsIndex(segs[0], p) then Some(segs[0].plainStart)
      else None
  }

  /** The mention callback of `findStartOfMentionInPlainText`. */
  method LocateMentionStart(segments: seq<Segment>, indexInPlainText: int) returns (result: Option<int>)
    ensures result == MentionStartAt(segments, indexInPlainText)
  {
    result := None;
    for i := 0 to |segments|
      invariant (var later := MentionStartAt(segments[i..], indexInPlainText); if later.Some? then later else result)
                == MentionStartAt(segments, indexInPlainText)
    {
      assert segments[i..][1..] == segments[i + 1..];
      var s := segments[i];
      if s.Mention? && s.plainStart <= indexInPlainText && s.plainStart + |s.display| > indexInPlainText {
        result := Some(s.plainStart);
      }
    }
  }

  /** `findStartOfMentionInPlainText`. */
  method FindStartOfMentionInPlainText(value: string, srcs: seq<Source>, indexInPlainText: int)
    returns (result: Option<int>)
    requires ValidSources(srcs)
    ensures result == MentionStartAt(Scan(value, srcs, false), indexInPlainText)
  {
    var scanned := IterateMentionsMarkup(value, srcs, false);
    var segments := scanned.value;
    result := LocateMentionStart(segments, indexInPlainText);
  }

  /** A reported start belongs to a mention containing p; no report means no mention contains p. */
  lemma {:induction false} MentionStartSound(segs: seq<Segment>, p: int)
    ensures MentionStartAt(segs, p).Some? ==>
              exists i :: 0 <= i < |segs| && ContainsIndex(segs[i], p) && segs[i].plainStart == MentionStartAt(segs, p).value
    ensures MentionStartAt(segs, p).None? ==> forall i :: 0 <= i < |segs| ==> !ContainsIndex(segs[i], p)
  {
    if segs != [] {
      var rest := segs[1..];
      MentionStartSound(rest, p);
      if MentionStartAt(rest, p).Some? {
        var i :| 0 <= i < |rest| && ContainsIndex(rest[i], p) && rest[i].plainStart == MentionStartAt(rest, p).value;
        assert segs[i + 1] == rest[i];
      } else {
        forall i | 0 <= i < |segs| ensures !ContainsIndex(segs[i], p) || MentionStartAt(segs, p).Some? {
          if i > 0 {
            assert segs[i] == rest[i - 1];
          }
        }
      }
    }
  }

  /**
   * In a layout, `findStartOfMentionInPlainText` reports a mention's plain
   * start exactly when p lies in that mention's display.
   */
  lemma MentionStartIff(segs: seq<Segment>, start: nat, plain: nat, end: nat, p: int)
    requires Layout(segs, start, plain, end)
    ensures forall i :: 0 <= i < |segs| && ContainsIndex(segs[i], p) ==> MentionStartAt(segs, p) == Some(segs[i].plainStart)
    ensures MentionStartAt(segs, p).None? <==> forall i :: 0 <= i < |segs| ==> !ContainsIndex(segs[i], p)
  {
    MentionStartSound(segs, p);
    forall i | 0 <= i < |segs| && ContainsIndex(segs[i], p)
      ensures MentionStartAt(segs, p) == Some(segs[i].plainStart)
    {
      var j :| 0 <= j < |segs| && ContainsIndex(segs[j], p) && segs[j].plainStart == MentionStartAt(segs, p).value;
      if j < i {
        LayoutOrdered(segs, start, plain, end, j, i);
      } else if i < j {
        LayoutOrdered(segs, start, plain, end, i, j);
      }
    }
  }
  /** A position inside mention i of a value's scan finds that mention's start. */
  lemma ScanMentionStart(value: string, srcs: seq<Source>, p: int, i: nat)
    requires ValidSources(srcs) && i < |Scan(value, srcs, false)| && ContainsIndex(Scan(value, srcs, false)[i], p)
    ensures MentionStartAt(Scan(value, srcs, false), p) == Some(Scan(value, srcs, false)[i].plainStart)
  {
    ScanTiles(value, srcs, false);
    MentionStartIff(Scan(value, srcs, false), 0, 0, |value|, p);
  }

  /** A position in no mention of a value's scan finds no start. */
  lemma ScanMentionStartNone(value: string, srcs: seq<Source>, p: int)
    requires ValidSources(srcs)
    requires forall i :: 0 <= i < |Scan(value, srcs, false)| ==> !ContainsIndex(Scan(value, srcs, false)[i], p)
    ensures MentionStartAt(Scan(value, srcs, false), p).None?
  {
    ScanTiles(value, srcs, false);
    MentionStartIff(Scan(value, srcs, false), 0, 0, |value|, p);
  }


}
