/**
 * `iterateMentionsMarkup`: the scan that splits a markup value into plain-text
 * runs and mentions.
 *
 * All sources' patterns are combined into one alternation `(R0)|(R1)|...`
 * searched globally: each search finds the leftmost position where some
 * source matches, and at that position the first source in list order wins.
 * The JavaScript match array is modelled group by group so the method can
 * recover the source and its id and display captures through the same
 * capture-group offsets the source computes.
 *
 * A template without placeholders is matched literally; its offset points
 * at the next source's block, so its own matches are passed over and the
 * next source's matches make `findIndexOfCapturingGroup` throw.
 */
module Scanner {
  import opened Js
  import opened Types
  import opened Grammar

  /** Every source's template (or the default one) compiles. */
  predicate ValidSources(srcs: seq<Source>) {
    forall k :: 0 <= k < |srcs| ==> Compile(EffectiveMarkup(srcs[k].markup)).Ok?
  }

  /** One valid grammar per source. */
  predicate GrammarsFit(srcs: seq<Source>, gs: seq<Grammar>) {
    |gs| == |srcs| && forall k :: 0 <= k < |gs| ==> ValidGrammar(gs[k])
  }

  /** The grammar of each source, in order. */
  function Grammars(srcs: seq<Source>): (gs: seq<Grammar>)
    requires ValidSources(srcs)
    ensures GrammarsFit(srcs, gs)
  {
    seq(|srcs|, k requires 0 <= k < |srcs| => Compile(EffectiveMarkup(srcs[k].markup)).value)
  }

  /** Source k's grammar is the one its template (or the default one) compiles to. */
  lemma GrammarOfSource(srcs: seq<Source>, k: nat)
    requires ValidSources(srcs) && k < |srcs|
    ensures Compile(EffectiveMarkup(srcs[k].markup)) == Ok(Grammars(srcs)[k])
  {
  }

  // ---- Templates without placeholders ----

  /**
   * Every source's template (or the default one) compiles or has no
   * placeholder at all. A template without placeholders is matched
   * literally: its group in the combined expression wraps no capture.
   */
  predicate ScannableSources(srcs: seq<Source>) {
    forall k :: 0 <= k < |srcs| ==>
      Compile(EffectiveMarkup(srcs[k].markup)).Ok? || CountPlaceholders(EffectiveMarkup(srcs[k].markup)) == 0
  }

  /** The pattern `markupToRegex` derives from a template, with its capture indices when it has placeholders. */
  function SourceGrammar(markup: string): Grammar {
    if Compile(markup).Ok? then Compile(markup).value else Grammar(MarkupToRegex(markup), 0, 0)
  }

  /** The pattern of each source, in order, as the combined expression joins them. */
  function SourceGrammars(srcs: seq<Source>): (gs: seq<Grammar>)
    ensures |gs| == |srcs|
  {
    seq(|srcs|, k requires 0 <= k < |srcs| => SourceGrammar(EffectiveMarkup(srcs[k].markup)))
  }

  /** A grammar without holes, made from a template without placeholders. */
  predicate Placeholderless(g: Grammar) {
    Holes(g.pattern) == []
  }

  /** One grammar per source: a valid one, or a non-empty pattern without holes. */
  predicate GrammarsScannable(srcs: seq<Source>, gs: seq<Grammar>) {
    |gs| == |srcs|
    && forall k :: 0 <= k < |gs| ==> ValidGrammar(gs[k]) || (Placeholderless(gs[k]) && |gs[k].pattern| > 0)
  }

  /**
   * What `findIndexOfCapturingGroup` gives for each source's template: the
   * grammar's capture indices, or the invariant's failure when the template
   * has no placeholder.
   */
  predicate CapturesAgree(srcs: seq<Source>, gs: seq<Grammar>) {
    |gs| == |srcs| && forall k :: 0 <= k < |srcs| ==> TemplateCaptures(EffectiveMarkup(srcs[k].markup), gs[k])
  }

  /** One template's part of CapturesAgree. */
  predicate TemplateCaptures(markup: string, g: Grammar) {
    if Placeholderless(g) then FindIndexOfCapturingGroup(markup, Id).Err?
    else
      && FindIndexOfCapturingGroup(markup, Id) == Ok(g.idGroup)
      && FindIndexOfCapturingGroup(markup, Display) == Ok(g.displayGroup)
  }

  /**
   * A template that compiles gives a valid grammar with as many holes as it
   * has placeholders and the capture indices `findIndexOfCapturingGroup`
   * finds; one without placeholders gives its own characters as literals.
   */
  lemma SourceGrammarFacts(markup: string)
    requires markup != "" && (Compile(markup).Ok? || CountPlaceholders(markup) == 0)
    ensures var g := SourceGrammar(markup);
            && (ValidGrammar(g) || (Placeholderless(g) && |g.pattern| > 0))
            && CountPlaceholders(markup) == |Holes(g.pattern)|
            && (Placeholderless(g) ==> FindIndexOfCapturingGroup(markup, Id).Err?)
            && (!Placeholderless(g) ==>
                  && FindIndexOfCapturingGroup(markup, Id) == Ok(g.idGroup)
                  && FindIndexOfCapturingGroup(markup, Display) == Ok(g.displayGroup))
  {
    if Compile(markup).Ok? {
      CompiledHoles(markup, Id);
      CompiledHoles(markup, Display);
    } else {
      PlaceholderlessPattern(markup);
    }
  }

  lemma SourceGrammarsAgree(srcs: seq<Source>)
    requires ScannableSources(srcs)
    ensures var gs := SourceGrammars(srcs);
            GrammarsScannable(srcs, gs) && CountsAgree(srcs, gs) && CapturesAgree(srcs, gs)
  {
    var gs := SourceGrammars(srcs);
    forall k | 0 <= k < |srcs|
      ensures ValidGrammar(gs[k]) || (Placeholderless(gs[k]) && |gs[k].pattern| > 0)
      ensures SourcePlaceholders(srcs, k) == |Holes(gs[k].pattern)|
      ensures TemplateCaptures(EffectiveMarkup(srcs[k].markup), gs[k])
    {
      SourceGrammarFacts(EffectiveMarkup(srcs[k].markup));
    }
  }

  /** When every template compiles, the sources' patterns are their compiled grammars. */
  lemma SourceGrammarsCompiled(srcs: seq<Source>)
    requires ValidSources(srcs)
    ensures ScannableSources(srcs) && SourceGrammars(srcs) == Grammars(srcs)
  {
  }

  /** At one position, the first source (from k on) whose pattern matches there. */
  function FirstSourceAt(gs: seq<Grammar>, s: string, pos: nat, k: nat): (r: Option<(nat, Match)>)
    requires pos <= |s| && k <= |gs|
    decreases |gs| - k
    ensures r.Some? ==> k <= r.value.0 < |gs| && MatchFrom(gs[r.value.0].pattern, s, pos) == Some(r.value.1)
    ensures r.Some? ==> forall j :: k <= j < r.value.0 ==> MatchFrom(gs[j].pattern, s, pos).None?
    ensures r.None? ==> forall j :: k <= j < |gs| ==> MatchFrom(gs[j].pattern, s, pos).None?
  {
    if k == |gs| then None
    else match MatchFrom(gs[k].pattern, s, pos)
      case Some(m) => Some((k, m))
      case None => FirstSourceAt(gs, s, pos, k + 1)
  }

  /** A match of the combined expression: where it starts, which source matched, and how. */
  datatype Found = Found(index: nat, source: nat, m: Match)

  /** One `exec` of the combined global expression with `lastIndex` at pos. */
  function FindMatch(gs: seq<Grammar>, s: string, pos: nat): (r: Option<Found>)
    requires pos <= |s|
    decreases |s| - pos
    ensures r.Some? ==> pos <= r.value.index <= |s| && r.value.source < |gs|
                        && MatchFrom(gs[r.value.source].pattern, s, r.value.index) == Some(r.value.m)
  {
    match FirstSourceAt(gs, s, pos, 0)
    case Some((k, m)) => Some(Found(pos, k, m))
    case None => if pos == |s| then None else FindMatch(gs, s, pos + 1)
  }

  /**
   * The search is leftmost-first: no source can match anywhere between the
   * search start and the reported position, and no earlier source at that
   * position; when nothing is reported, no source can match anywhere.
   */
  lemma {:induction false} FindMatchIsLeftmostFirst(gs: seq<Grammar>, s: string, pos: nat)
    requires pos <= |s|
    decreases |s| - pos
    ensures var r := FindMatch(gs, s, pos);
            && (r.Some? ==> forall q, j, m :: pos <= q < r.value.index && 0 <= j < |gs| ==> !Matches(gs[j].pattern, s, q, m))
            && (r.Some? ==> forall j, m :: 0 <= j < r.value.source ==> !Matches(gs[j].pattern, s, r.value.index, m))
            && (r.None? ==> forall q, j, m :: pos <= q <= |s| && 0 <= j < |gs| ==> !Matches(gs[j].pattern, s, q, m))
  {
    forall j, m | 0 <= j < |gs| && Matches(gs[j].pattern, s, pos, m)
      ensures FirstSourceAt(gs, s, pos, 0).Some? && FirstSourceAt(gs, s, pos, 0).value.0 <= j
    {
      MatchFromComplete(gs[j].pattern, s, pos, m);
    }
    if FirstSourceAt(gs, s, pos, 0).None? && pos < |s| {
      FindMatchIsLeftmostFirst(gs, s, pos + 1);
    }
  }

  // ---- The match array `exec` returns ----

  /**
   * Where source k's groups begin in the match array, counted over the
   * grammars' holes: group 0 is the whole match, group 1 wraps source 0's
   * pattern, and each source takes one group for its pattern plus one per hole.
   */
  function HoleOffset(gs: seq<Grammar>, k: nat): (r: nat)
    requires k <= |gs|
    ensures r >= 2
  {
    if k == 0 then 2 else HoleOffset(gs, k - 1) + |Holes(gs[k - 1].pattern)| + 1
  }

  lemma {:induction false} HoleOffsetsIncrease(gs: seq<Grammar>, j: nat, k: nat)
    requires j < k <= |gs|
    decreases k - j
    ensures HoleOffset(gs, j) + |Holes(gs[j].pattern)| + 1 <= HoleOffset(gs, k)
  {
    if j + 1 < k {
      HoleOffsetsIncrease(gs, j, k - 1);
    }
  }

  /**
   * Group i of the blocks from source k on: each source's block is the group
   * wrapped around its pattern, then one group per hole, all undefined unless
   * that source is the one that matched.
   */
  function GroupIn(gs: seq<Grammar>, k: nat, f: Found, whole: string, i: nat): Option<string>
    requires k <= |gs|
    decreases |gs| - k
  {
    if k == |gs| then None
    else
      var size := |Holes(gs[k].pattern)| + 1;
      if i < size then
        if k != f.source then None
        else if i == 0 then Some(whole)
        else if i - 1 < |f.m.captures| then Some(f.m.captures[i - 1])
        else None
      else GroupIn(gs, k + 1, f, whole, i - size)
  }

  /** The array `exec` returns for the match f of s: the whole match, then every source's block. */
  function ExecArray(gs: seq<Grammar>, s: string, f: Found): (a: seq<Option<string>>)
    requires f.index <= f.m.end <= |s|
    ensures |a| == HoleOffset(gs, |gs|) - 1
  {
    var whole := s[f.index..f.m.end];
    seq(HoleOffset(gs, |gs|) - 1, i requires 0 <= i => if i == 0 then Some(whole) else GroupIn(gs, 0, f, whole, i - 1))
  }

  /** Inside the blocks from source k on, source j's block begins at HoleOffset(j) - HoleOffset(k). */
  lemma {:induction false} GroupInBlock(gs: seq<Grammar>, k: nat, j: nat, h: nat, f: Found, whole: string)
    requires k <= j < |gs| && h <= |Holes(gs[j].pattern)|
    decreases j - k
    ensures HoleOffset(gs, k) <= HoleOffset(gs, j)
    ensures GroupIn(gs, k, f, whole, HoleOffset(gs, j) - HoleOffset(gs, k) + h)
            == if j != f.source then None
               else if h == 0 then Some(whole)
               else if h - 1 < |f.m.captures| then Some(f.m.captures[h - 1])
               else None
  {
    if k < j {
      GroupInBlock(gs, k + 1, j, h, f, whole);
    }
  }

  /**
   * In the array of a match f, group HoleOffset(k) + c (c below the number
   * of k's holes) holds capture c of the match when k is the source that
   * matched, and is undefined otherwise.
   */
  lemma ExecArrayGroup(gs: seq<Grammar>, s: string, f: Found, k: nat, c: nat)
    requires f.index <= f.m.end <= |s| && f.source < |gs|
    requires |f.m.captures| == |Holes(gs[f.source].pattern)|
    requires k < |gs| && c < |Holes(gs[k].pattern)|
    ensures var a := ExecArray(gs, s, f);
            && HoleOffset(gs, k) + c < |a|
            && a[HoleOffset(gs, k) + c] == (if k == f.source then Some(f.m.captures[c]) else None)
  {
    var whole := s[f.index..f.m.end];
    GroupInBlock(gs, 0, k, c + 1, f, whole);
    if k + 1 < |gs| {
      HoleOffsetsIncrease(gs, k, |gs|);
    }
  }

  /** `find`: the first offset (from index i on) whose group is a non-empty string. */
  function FindTruthy(offsets: seq<nat>, a: seq<Option<string>>, i: nat): (r: Option<nat>)
    requires i <= |offsets|
    decreases |offsets| - i
    ensures r.Some? ==> i <= r.value < |offsets|
  {
    if i == |offsets| then None
    else if offsets[i] < |a| && a[offsets[i]].Some? && a[offsets[i]].value != "" then Some(i)
    else FindTruthy(offsets, a, i + 1)
  }

  /** Every source's offset, counted over the grammars' holes. */
  function HoleOffsets(gs: seq<Grammar>): (r: seq<nat>)
    ensures |r| == |gs|
  {
    seq(|gs|, k requires 0 <= k < |gs| => HoleOffset(gs, k))
  }

  lemma {:induction false} FindTruthyFirst(offsets: seq<nat>, a: seq<Option<string>>, i: nat, k: nat)
    requires i <= k < |offsets|
    requires forall j :: i <= j < k ==> !(offsets[j] < |a| && a[offsets[j]].Some?)
    requires offsets[k] < |a| && a[offsets[k]].Some? && a[offsets[k]].value != ""
    decreases k - i
    ensures FindTruthy(offsets, a, i) == Some(k)
  {
    if i < k {
      FindTruthyFirst(offsets, a, i + 1, k);
    }
  }

  // ---- `captureGroupOffsets` ----

  /** `countPlaceholders(markup || DefaultMarkupTemplate)` for source k. */
  function SourcePlaceholders(srcs: seq<Source>, k: nat): nat
    requires k < |srcs|
  {
    CountPlaceholders(EffectiveMarkup(srcs[k].markup))
  }

  /** The offset `captureGroupOffsets` gives source k: 2, then each source adds its placeholders plus one. */
  function Offset(srcs: seq<Source>, k: nat): nat
    requires k <= |srcs|
  {
    if k == 0 then 2 else Offset(srcs, k - 1) + SourcePlaceholders(srcs, k - 1) + 1
  }

  /** The offsets as `captureGroupOffsets` holds them. */
  function Offsets(srcs: seq<Source>): (r: seq<nat>)
    ensures |r| == |srcs|
  {
    seq(|srcs|, k requires 0 <= k < |srcs| => Offset(srcs, k))
  }

  /** Computes `captureGroupOffsets` with the running `accOffset`. */
  method CaptureGroupOffsets(srcs: seq<Source>) returns (offsets: seq<nat>)
    ensures offsets == Offsets(srcs)
  {
    ghost var all := Offsets(srcs);
    var accOffset := 2;
    offsets := [];
    var k := 0;
    while k < |srcs|
      invariant k <= |srcs|
      invariant accOffset == Offset(srcs, k)
      invariant offsets == all[..k]
    {
      assert all[..k + 1] == all[..k] + [all[k]];
      offsets := offsets + [accOffset];
      accOffset := accOffset + CountPlaceholders(EffectiveMarkup(srcs[k].markup)) + 1;
      k := k + 1;
    }
    assert all[..k] == all;
  }

  /** Each source's placeholder count is its grammar's hole count. */
  predicate CountsAgree(srcs: seq<Source>, gs: seq<Grammar>) {
    |gs| == |srcs| && forall k :: 0 <= k < |srcs| ==> SourcePlaceholders(srcs, k) == |Holes(gs[k].pattern)|
  }

  lemma {:induction false} OffsetsCountHoles(srcs: seq<Source>, gs: seq<Grammar>, k: nat)
    requires CountsAgree(srcs, gs) && k <= |srcs|
    ensures Offset(srcs, k) == HoleOffset(gs, k)
  {
    if k > 0 {
      OffsetsCountHoles(srcs, gs, k - 1);
      assert SourcePlaceholders(srcs, k - 1) == |Holes(gs[k - 1].pattern)|;
    }
  }

  /** The offsets computed from the templates' placeholder counts locate every source's block. */
  lemma OffsetsAreHoleOffsets(srcs: seq<Source>)
    requires ScannableSources(srcs)
    ensures Offsets(srcs) == HoleOffsets(SourceGrammars(srcs))
  {
    var gs := SourceGrammars(srcs);
    SourceGrammarsAgree(srcs);
    forall k | 0 <= k < |srcs| ensures Offsets(srcs)[k] == HoleOffsets(gs)[k] {
      OffsetsCountHoles(srcs, gs, k);
    }
  }

  // ---- The scan ----

  /** What the scan reports, in order: plain-text runs and mentions. */
  datatype Segment =
    | Text(text: string, start: nat, plainStart: nat)
    | Mention(markup: string, start: nat, plainStart: nat, id: string, display: string, source: nat)
  {
    /** The segment's characters in the markup value. */
    function Raw(): string {
      if Text? then text else markup
    }
    /** The segment's characters in the plain text. */
    function Shown(): string {
      if Text? then text else display
    }
  }

  /**
   * The scan from markup position start, plain-text position plain: a text
   * run (possibly empty) before each match, the match as a mention, and a
   * final text run when characters remain after the last match.
   */
  function ScanFrom(value: string, srcs: seq<Source>, gs: seq<Grammar>, multiline: bool, start: nat, plain: nat)
    : seq<Segment>
    requires GrammarsFit(srcs, gs) && start <= |value|
    decreases |value| - start, 1
  {
    match FindMatch(gs, value, start)
    case None => if start < |value| then [Text(value[start..], start, plain)] else []
    case Some(f) => ScanAt(value, srcs, gs, multiline, start, plain, f)
  }

  /** The scan from start on when the next match is f. */
  function ScanAt(value: string, srcs: seq<Source>, gs: seq<Grammar>, multiline: bool, start: nat, plain: nat, f: Found)
    : seq<Segment>
    requires GrammarsFit(srcs, gs) && start <= f.index <= |value| && f.source < |gs|
    requires MatchFrom(gs[f.source].pattern, value, f.index) == Some(f.m)
    decreases |value| - start, 0
  {
    var text := value[start..f.index];
    var mention := MentionOf(value, srcs, gs, multiline, f, plain + |text|);
    [Text(text, start, plain), mention]
      + ScanFrom(value, srcs, gs, multiline, f.m.end, plain + |text| + |mention.display|)
  }

  function Scan(value: string, srcs: seq<Source>, multiline: bool): seq<Segment>
    requires ValidSources(srcs)
  {
    ScanFrom(value, srcs, Grammars(srcs), multiline, 0, 0)
  }

  /** The mention a match f of source f.source stands for, as the scan reports it. */
  function MentionOf(value: string, srcs: seq<Source>, gs: seq<Grammar>, multiline: bool, f: Found, plain: nat)
    : Segment
    requires |gs| == |srcs| && f.source < |srcs| && ValidGrammar(gs[f.source])
    requires f.index <= f.m.end <= |value|
    requires |f.m.captures| == |Holes(gs[f.source].pattern)|
  {
    var g := gs[f.source];
    var id := f.m.captures[g.idGroup];
    var display := SourceDisplay(srcs[f.source], id, f.m.captures[g.displayGroup], multiline);
    Mention(value[f.index..f.m.end], f.index, plain, id, display, f.source)
  }

  /** One unfolding of ScanFrom at a match f: the text run before it, its mention, the rest. */
  lemma ScanFromStep(value: string, srcs: seq<Source>, gs: seq<Grammar>, multiline: bool, start: nat, plain: nat,
                     f: Found, text: Segment, mention: Segment)
    requires GrammarsFit(srcs, gs) && start <= |value|
    requires FindMatch(gs, value, start) == Some(f)
    requires text == Text(value[start..f.index], start, plain)
    requires mention == MentionOf(value, srcs, gs, multiline, f, plain + |text.text|)
    ensures start <= f.index < f.m.end <= |value|
    ensures mention.Mention? && mention.markup == value[f.index..f.m.end] && mention.start == f.index
    ensures ScanFrom(value, srcs, gs, multiline, start, plain)
            == [text, mention] + ScanFrom(value, srcs, gs, multiline, f.m.end, plain + |text.text| + |mention.display|)
  {
    ScanAtStep(value, srcs, gs, multiline, start, plain, f, text, mention, plain + |text.text| + |mention.display|);
  }

  /** ScanAt unfolded, with its text run and mention named. */
  lemma ScanAtStep(value: string, srcs: seq<Source>, gs: seq<Grammar>, multiline: bool, start: nat, plain: nat,
                   f: Found, text: Segment, mention: Segment, next: nat)
    requires GrammarsFit(srcs, gs) && start <= f.index <= |value| && f.source < |gs|
    requires MatchFrom(gs[f.source].pattern, value, f.index) == Some(f.m)
    requires text == Text(value[start..f.index], start, plain)
    requires mention == MentionOf(value, srcs, gs, multiline, f, plain + |text.text|)
    requires next == plain + |text.text| + |mention.display|
    ensures ScanAt(value, srcs, gs, multiline, start, plain, f)
            == [text, mention] + ScanFrom(value, srcs, gs, multiline, f.m.end, next)
  {
  }


  /** ScanFrom where no match remains: the rest of the value, if any, as one text run. */
  lemma ScanFromEnd(value: string, srcs: seq<Source>, gs: seq<Grammar>, multiline: bool, start: nat, plain: nat)
    requires GrammarsFit(srcs, gs) && start <= |value|
    requires FindMatch(gs, value, start) == None
    ensures ScanFrom(value, srcs, gs, multiline, start, plain)
            == if start < |value| then [Text(value[start..], start, plain)] else []
  {
  }

  // ---- How `find` attributes a match ----

  /**
   * The group at source j's offset in the array of a match f. With holes,
   * it is j's first capture group, defined only when j matched. Without
   * holes, the offset already points past j's block: at the group wrapping
   * source j + 1's pattern, which holds the whole match when j + 1 matched,
   * or past the end of the array when j is the last source.
   */
  lemma {:induction false} OffsetGroup(gs: seq<Grammar>, s: string, f: Found, j: nat)
    requires f.index <= f.m.end <= |s| && f.source < |gs|
    requires |f.m.captures| == |Holes(gs[f.source].pattern)|
    requires j < |gs|
    ensures var a := ExecArray(gs, s, f);
            var o := HoleOffset(gs, j);
            if !Placeholderless(gs[j]) then
              o < |a| && a[o] == (if j == f.source then Some(f.m.captures[0]) else None)
            else if j + 1 < |gs| then
              o < |a| && a[o] == (if j + 1 == f.source then Some(s[f.index..f.m.end]) else None)
            else
              o == |a|
  {
    if !Placeholderless(gs[j]) {
      ExecArrayGroup(gs, s, f, j, 0);
    } else {
      WrapGroupAfter(gs, s, f, j);
    }
  }

  /** The placeholderless case of OffsetGroup: the offset is where source j + 1's block begins. */
  lemma WrapGroupAfter(gs: seq<Grammar>, s: string, f: Found, j: nat)
    requires f.index <= f.m.end <= |s| && j < |gs| && Placeholderless(gs[j])
    ensures var a := ExecArray(gs, s, f);
            var o := HoleOffset(gs, j);
            if j + 1 < |gs| then
              o < |a| && a[o] == (if j + 1 == f.source then Some(s[f.index..f.m.end]) else None)
            else
              o == |a|
  {
    var o := HoleOffset(gs, j);
    assert HoleOffset(gs, j + 1) == o + 1;
    if j + 1 < |gs| {
      var whole := s[f.index..f.m.end];
      GroupInBlock(gs, 0, j + 1, 0, f, whole);
      HoleOffsetsIncrease(gs, j + 1, |gs|);
      assert ExecArray(gs, s, f)[o] == GroupIn(gs, 0, f, whole, o - 1);
    }
  }

  lemma {:induction false} FindTruthyNone(offsets: seq<nat>, a: seq<Option<string>>, i: nat)
    requires i <= |offsets|
    requires forall j :: i <= j < |offsets| ==> !(offsets[j] < |a| && a[offsets[j]].Some? && a[offsets[j]].value != "")
    decreases |offsets| - i
    ensures FindTruthy(offsets, a, i) == None
  {
    if i < |offsets| {
      FindTruthyNone(offsets, a, i + 1);
    }
  }

  /**
   * `find` over the offsets attributes a match of source f.source to the
   * source before it when that one has no placeholder (its offset lands on
   * the whole match); otherwise to f.source itself when it has placeholders
   * (its first capture is never empty); and to no source at all when
   * f.source has no placeholder.
   */
  lemma FindTruthyAttributes(gs: seq<Grammar>, s: string, f: Found)
    requires f.index < f.m.end <= |s| && f.source < |gs|
    requires |f.m.captures| == |Holes(gs[f.source].pattern)|
    requires !Placeholderless(gs[f.source]) ==> f.m.captures[0] != ""
    ensures FindTruthy(HoleOffsets(gs), ExecArray(gs, s, f), 0)
            == if f.source > 0 && Placeholderless(gs[f.source - 1]) then Some(f.source - 1)
               else if Placeholderless(gs[f.source]) then None
               else Some(f.source)
  {
    if f.source > 0 && Placeholderless(gs[f.source - 1]) {
      FindTruthyBefore(gs, s, f);
    } else if Placeholderless(gs[f.source]) {
      FindTruthyNowhere(gs, s, f);
    } else {
      FindTruthyAt(gs, s, f);
    }
  }

  /** The offsets of sources j with neither j nor j + 1 the source that matched hold no group. */
  lemma OffsetUndefined(gs: seq<Grammar>, s: string, f: Found, j: nat)
    requires f.index <= f.m.end <= |s| && f.source < |gs|
    requires |f.m.captures| == |Holes(gs[f.source].pattern)|
    requires j < |gs| && j != f.source && j + 1 != f.source
    ensures var a := ExecArray(gs, s, f);
            !(HoleOffsets(gs)[j] < |a| && a[HoleOffsets(gs)[j]].Some?)
  {
    OffsetGroup(gs, s, f, j);
  }

  lemma FindTruthyBefore(gs: seq<Grammar>, s: string, f: Found)
    requires f.index < f.m.end <= |s| && f.source < |gs|
    requires |f.m.captures| == |Holes(gs[f.source].pattern)|
    requires f.source > 0 && Placeholderless(gs[f.source - 1])
    ensures FindTruthy(HoleOffsets(gs), ExecArray(gs, s, f), 0) == Some(f.source - 1)
  {
    var a := ExecArray(gs, s, f);
    var offsets := HoleOffsets(gs);
    forall j | 0 <= j < f.source - 1
      ensures !(offsets[j] < |a| && a[offsets[j]].Some?)
    {
      OffsetUndefined(gs, s, f, j);
    }
    OffsetGroup(gs, s, f, f.source - 1);
    assert |s[f.index..f.m.end]| > 0;
    FindTruthyFirst(offsets, a, 0, f.source - 1);
  }

  lemma FindTruthyNowhere(gs: seq<Grammar>, s: string, f: Found)
    requires f.index <= f.m.end <= |s| && f.source < |gs|
    requires |f.m.captures| == |Holes(gs[f.source].pattern)|
    requires !(f.source > 0 && Placeholderless(gs[f.source - 1])) && Placeholderless(gs[f.source])
    ensures FindTruthy(HoleOffsets(gs), ExecArray(gs, s, f), 0) == None
  {
    var a := ExecArray(gs, s, f);
    var offsets := HoleOffsets(gs);
    forall j | 0 <= j < |gs| && j != f.source && j + 1 != f.source
      ensures !(offsets[j] < |a| && a[offsets[j]].Some?)
    {
      OffsetUndefined(gs, s, f, j);
    }
    OffsetGroup(gs, s, f, f.source);
    if f.source > 0 {
      OffsetGroup(gs, s, f, f.source - 1);
    }
    FindTruthyNone(offsets, a, 0);
  }

  lemma FindTruthyAt(gs: seq<Grammar>, s: string, f: Found)
    requires f.index <= f.m.end <= |s| && f.source < |gs|
    requires |f.m.captures| == |Holes(gs[f.source].pattern)|
    requires !(f.source > 0 && Placeholderless(gs[f.source - 1])) && !Placeholderless(gs[f.source])
    requires f.m.captures[0] != ""
    ensures FindTruthy(HoleOffsets(gs), ExecArray(gs, s, f), 0) == Some(f.source)
  {
    var a := ExecArray(gs, s, f);
    var offsets := HoleOffsets(gs);
    forall j | 0 <= j < f.source - 1
      ensures !(offsets[j] < |a| && a[offsets[j]].Some?)
    {
      OffsetUndefined(gs, s, f, j);
    }
    if f.source > 0 {
      OffsetGroup(gs, s, f, f.source - 1);
    }
    OffsetGroup(gs, s, f, f.source);
    FindTruthyFirst(offsets, a, 0, f.source);
  }

  // ---- The scan ----

  /** The outcome of one match: passed over, the exception, or the mention it stands for. */
  datatype Decoding = PassedOver | Thrown | Decoded(mention: Segment)

  /** The segments of a scan, preceded by those already reported; an error stays an error. */
  function Prepend(segments: seq<Segment>, r: Result<seq<Segment>>): Result<seq<Segment>> {
    if r.Ok? then Ok(segments + r.value) else r
  }

  /**
   * The scan as the loop runs it, searching from pos with the pending text
   * run starting at start. A match attributed to a source without
   * placeholders throws; a match attributed to no source is passed over,
   * its characters staying in the pending text run; any other match ends
   * the run and is reported as a mention.
   */
  function ScanAnyFrom(value: string, srcs: seq<Source>, gs: seq<Grammar>, multiline: bool,
                       pos: nat, start: nat, plain: nat): Result<seq<Segment>>
    requires GrammarsScannable(srcs, gs) && start <= pos <= |value|
    decreases |value| - pos, 1
  {
    match FindMatch(gs, value, pos)
    case None => Ok(if start < |value| then [Text(value[start..], start, plain)] else [])
    case Some(f) => ScanAnyAt(value, srcs, gs, multiline, pos, start, plain, f)
  }

  /** The scan from pos on when the next match is f. */
  function ScanAnyAt(value: string, srcs: seq<Source>, gs: seq<Grammar>, multiline: bool,
                     pos: nat, start: nat, plain: nat, f: Found): Result<seq<Segment>>
    requires GrammarsScannable(srcs, gs) && start <= pos <= f.index <= |value| && f.source < |gs|
    requires MatchFrom(gs[f.source].pattern, value, f.index) == Some(f.m)
    decreases |value| - pos, 0
  {
    if f.source > 0 && Placeholderless(gs[f.source - 1]) then Err(InvalidMarkupTemplate)
    else if Placeholderless(gs[f.source]) then
      MatchFromLiterals(gs[f.source].pattern, value, f.index);
      ScanAnyFrom(value, srcs, gs, multiline, f.m.end, start, plain)
    else
      var text := value[start..f.index];
      var mention := MentionOf(value, srcs, gs, multiline, f, plain + |text|);
      Prepend([Text(text, start, plain), mention],
              ScanAnyFrom(value, srcs, gs, multiline, f.m.end, f.m.end, plain + |text| + |mention.display|))
  }

  /** `iterateMentionsMarkup` over sources whose templates compile or have no placeholder. */
  function ScanAny(value: string, srcs: seq<Source>, multiline: bool): Result<seq<Segment>>
    requires ScannableSources(srcs)
  {
    SourceGrammarsAgree(srcs);
    ScanAnyFrom(value, srcs, SourceGrammars(srcs), multiline, 0, 0, 0)
  }

  lemma {:induction false} ScanAnyFromAgrees(value: string, srcs: seq<Source>, gs: seq<Grammar>, multiline: bool,
                                             pos: nat, plain: nat)
    requires GrammarsFit(srcs, gs) && pos <= |value|
    decreases |value| - pos
    ensures GrammarsScannable(srcs, gs)
    ensures ScanAnyFrom(value, srcs, gs, multiline, pos, pos, plain) == Ok(ScanFrom(value, srcs, gs, multiline, pos, plain))
  {
    match FindMatch(gs, value, pos)
    case None =>
    case Some(f) =>
      assert !Placeholderless(gs[f.source]);
      if f.source > 0 {
        assert !Placeholderless(gs[f.source - 1]);
      }
      var text := value[pos..f.index];
      var mention := MentionOf(value, srcs, gs, multiline, f, plain + |text|);
      ScanAnyFromAgrees(value, srcs, gs, multiline, f.m.end, plain + |text| + |mention.display|);
  }

  /** When every template compiles, the scan never throws and reports exactly Scan's segments. */
  lemma ScanAnyAgrees(value: string, srcs: seq<Source>, multiline: bool)
    requires ValidSources(srcs)
    ensures ScannableSources(srcs) && ScanAny(value, srcs, multiline) == Ok(Scan(value, srcs, multiline))
  {
    SourceGrammarsCompiled(srcs);
    ScanAnyFromAgrees(value, srcs, Grammars(srcs), multiline, 0, 0);
  }

  lemma {:induction false} PassedOverFrom(value: string, srcs: seq<Source>, gs: seq<Grammar>, multiline: bool,
                                          pos: nat, start: nat, plain: nat)
    requires GrammarsScannable(srcs, gs) && |gs| == 1 && Placeholderless(gs[0]) && start <= pos <= |value|
    decreases |value| - pos
    ensures ScanAnyFrom(value, srcs, gs, multiline, pos, start, plain)
            == Ok(if start < |value| then [Text(value[start..], start, plain)] else [])
  {
    match FindMatch(gs, value, pos)
    case None =>
    case Some(f) =>
      MatchFromLiterals(gs[0].pattern, value, f.index);
      PassedOverFrom(value, srcs, gs, multiline, f.m.end, start, plain);
  }

  /**
   * A single source whose template has no placeholder: every match is
   * attributed to no source and passed over, so the value comes back whole
   * as one text run.
   */
  lemma SinglePlaceholderlessSource(value: string, srcs: seq<Source>, multiline: bool)
    requires |srcs| == 1 && CountPlaceholders(EffectiveMarkup(srcs[0].markup)) == 0
    ensures ScannableSources(srcs)
    ensures ScanAny(value, srcs, multiline) == Ok(if value == [] then [] else [Text(value, 0, 0)])
  {
    SourceGrammarsAgree(srcs);
    var gs := SourceGrammars(srcs);
    SourceGrammarFacts(EffectiveMarkup(srcs[0].markup));
    PassedOverFrom(value, srcs, gs, multiline, 0, 0, 0);
    assert value[0..] == value;
  }

  /**
   * The scan throws only when a source without placeholders comes right
   * before another source: with such sources at most in the last place,
   * it always reports segments.
   */
  lemma {:induction false} ScanAnyFromSucceeds(value: string, srcs: seq<Source>, gs: seq<Grammar>, multiline: bool,
                                               pos: nat, start: nat, plain: nat)
    requires GrammarsScannable(srcs, gs) && start <= pos <= |value|
    requires forall k :: 0 <= k < |gs| - 1 ==> !Placeholderless(gs[k])
    decreases |value| - pos
    ensures ScanAnyFrom(value, srcs, gs, multiline, pos, start, plain).Ok?
  {
    match FindMatch(gs, value, pos)
    case None =>
    case Some(f) =>
      if f.source > 0 {
        assert !Placeholderless(gs[f.source - 1]);
      }
      if Placeholderless(gs[f.source]) {
        MatchFromLiterals(gs[f.source].pattern, value, f.index);
        ScanAnyFromSucceeds(value, srcs, gs, multiline, f.m.end, start, plain);
      } else {
        var text := value[start..f.index];
        var mention := MentionOf(value, srcs, gs, multiline, f, plain + |text|);
        ScanAnyFromSucceeds(value, srcs, gs, multiline, f.m.end, f.m.end, plain + |text| + |mention.display|);
      }
  }

  /**
   * Reads a match f out of the match array as the scan loop does: `find`
   * over the offsets, then `findIndexOfCapturingGroup` on the attributed
   * source's template for the id and display groups. A match attributed to
   * no source is passed over (`continue`); one attributed to a template
   * without placeholders throws.
   */
  method DecodeFound(value: string, srcs: seq<Source>, gs: seq<Grammar>, captureGroupOffsets: seq<nat>,
                     multiline: bool, f: Found, plain: nat)
    returns (d: Decoding)
    requires |gs| == |srcs| && captureGroupOffsets == HoleOffsets(gs)
    requires f.source < |srcs| && f.index < f.m.end <= |value|
    requires |f.m.captures| == |Holes(gs[f.source].pattern)|
    requires !Placeholderless(gs[f.source]) ==> ValidGrammar(gs[f.source]) && f.m.captures[0] != ""
    requires TemplateCaptures(EffectiveMarkup(srcs[f.source].markup), gs[f.source])
    requires f.source > 0 ==> TemplateCaptures(EffectiveMarkup(srcs[f.source - 1].markup), gs[f.source - 1])
    ensures d == if f.source > 0 && Placeholderless(gs[f.source - 1]) then Thrown
                 else if Placeholderless(gs[f.source]) then PassedOver
                 else Decoded(MentionOf(value, srcs, gs, multiline, f, plain))
  {
    var groups := ExecArray(gs, value, f);
    FindTruthyAttributes(gs, value, f);
    var found := FindTruthy(captureGroupOffsets, groups, 0);
    if found.None? {
      return PassedOver;
    }
    d := DecodeAttributed(value, srcs, gs, groups, captureGroupOffsets, multiline, f, plain, found.value);
  }

  /**
   * The loop body once `find` has attributed the match f to source k: the
   * source before the one that matched, when it has no placeholder, or the
   * one that matched. `findIndexOfCapturingGroup` throws on the first.
   */
  method DecodeAttributed(value: string, srcs: seq<Source>, gs: seq<Grammar>, groups: seq<Option<string>>,
                          captureGroupOffsets: seq<nat>, multiline: bool, f: Found, plain: nat, k: nat)
    returns (d: Decoding)
    requires |gs| == |srcs| && captureGroupOffsets == HoleOffsets(gs) && f.source < |srcs|
    requires f.index <= f.m.end <= |value| && groups == ExecArray(gs, value, f)
    requires |f.m.captures| == |Holes(gs[f.source].pattern)|
    requires || (f.source > 0 && Placeholderless(gs[f.source - 1]) && k == f.source - 1)
             || (!(f.source > 0 && Placeholderless(gs[f.source - 1])) && !Placeholderless(gs[f.source])
                 && ValidGrammar(gs[f.source]) && k == f.source)
    requires TemplateCaptures(EffectiveMarkup(srcs[k].markup), gs[k])
    ensures d == if k < f.source then Thrown else Decoded(MentionOf(value, srcs, gs, multiline, f, plain))
  {
    var offset := captureGroupOffsets[k];
    var markup := EffectiveMarkup(srcs[k].markup);
    var idGroup := FindIndexOfCapturingGroup(markup, Id);
    if idGroup.Err? {
      return Thrown;
    }
    var mention := ReadMention(value, srcs, gs, groups, offset, markup, idGroup.value, multiline, f, plain);
    d := Decoded(mention);
  }

  /**
   * The rest of the loop body for a match attributed to the source that
   * matched, once its id capture index is known: the display capture index,
   * then the id and display read from the array at the source's offset.
   */
  method ReadMention(value: string, srcs: seq<Source>, gs: seq<Grammar>, groups: seq<Option<string>>, offset: nat,
                     markup: string, idGroup: nat, multiline: bool, f: Found, plain: nat)
    returns (mention: Segment)
    requires |gs| == |srcs| && f.source < |srcs| && f.index <= f.m.end <= |value|
    requires ValidGrammar(gs[f.source]) && |f.m.captures| == |Holes(gs[f.source].pattern)|
    requires markup == EffectiveMarkup(srcs[f.source].markup) && TemplateCaptures(markup, gs[f.source])
    requires !Placeholderless(gs[f.source]) && idGroup == gs[f.source].idGroup
    requires groups == ExecArray(gs, value, f) && offset == HoleOffsets(gs)[f.source]
    ensures mention == MentionOf(value, srcs, gs, multiline, f, plain)
  {
    var displayGroup := FindIndexOfCapturingGroup(markup, Display).value;
    AttributedGroups(gs, value, f);
    var id := groups[offset + idGroup].value;
    var display := SourceDisplay(srcs[f.source], id, groups[offset + displayGroup].value, multiline);
    mention := Mention(groups[0].value, f.index, plain, id, display, f.source);
  }

  /**
   * In the array of a match f of a source with placeholders, the whole match
   * comes first, and the groups at the source's offset plus its id and
   * display capture indices hold those captures.
   */
  lemma AttributedGroups(gs: seq<Grammar>, s: string, f: Found)
    requires f.index <= f.m.end <= |s| && f.source < |gs| && ValidGrammar(gs[f.source])
    requires |f.m.captures| == |Holes(gs[f.source].pattern)|
    ensures var a := ExecArray(gs, s, f);
            var g := gs[f.source];
            var o := HoleOffsets(gs)[f.source];
            && |a| > 0 && a[0] == Some(s[f.index..f.m.end])
            && o + g.idGroup < |a| && a[o + g.idGroup] == Some(f.m.captures[g.idGroup])
            && o + g.displayGroup < |a| && a[o + g.displayGroup] == Some(f.m.captures[g.displayGroup])
  {
    ExecArrayGroup(gs, s, f, f.source, gs[f.source].idGroup);
    ExecArrayGroup(gs, s, f, f.source, gs[f.source].displayGroup);
  }

  /**
   * One round of the scan loop for the match f found from lastIndex: the
   * exception, a match passed over (only `lastIndex` moves), or the text
   * run before the match and its mention reported.
   */
  method ScanRound(value: string, srcs: seq<Source>, gs: seq<Grammar>, captureGroupOffsets: seq<nat>,
                   multiline: bool, lastIndex: nat, start: nat, plain: nat, f: Found)
    returns (thrown: bool, added: seq<Segment>, lastIndex': nat, start': nat, plain': nat)
    requires GrammarsScannable(srcs, gs) && CapturesAgree(srcs, gs) && captureGroupOffsets == HoleOffsets(gs)
    requires start <= lastIndex <= |value| && FindMatch(gs, value, lastIndex) == Some(f)
    ensures thrown ==> ScanAnyFrom(value, srcs, gs, multiline, lastIndex, start, plain) == Err(InvalidMarkupTemplate)
    ensures !thrown ==> && lastIndex < lastIndex' <= |value| && start' <= lastIndex'
                        && ScanAnyFrom(value, srcs, gs, multiline, lastIndex, start, plain)
                           == Prepend(added, ScanAnyFrom(value, srcs, gs, multiline, lastIndex', start', plain'))
  {
    FoundFacts(srcs, gs, value, lastIndex, f);
    assert TemplateCaptures(EffectiveMarkup(srcs[f.source].markup), gs[f.source]);
    assert f.source > 0 ==> TemplateCaptures(EffectiveMarkup(srcs[f.source - 1].markup), gs[f.source - 1]);
    var decoded := DecodeFound(value, srcs, gs, captureGroupOffsets, multiline, f, plain + (f.index - start));
    match decoded
    case Thrown =>
      ScanAnyThrows(value, srcs, gs, multiline, lastIndex, start, plain, f);
      return true, [], lastIndex, start, plain;
    case PassedOver =>
      ScanAnyPassesOver(value, srcs, gs, multiline, lastIndex, start, plain, f);
      PrependNothing(ScanAnyFrom(value, srcs, gs, multiline, f.m.end, start, plain));
      return false, [], f.m.end, start, plain;
    case Decoded(mention) =>
      var text := Text(Substring(value, start, f.index), start, plain);
      var next := plain + |text.text| + |mention.display|;
      ScanAnyReports(value, srcs, gs, multiline, lastIndex, start, plain, f, text, mention, f.m.end, next);
      return false, [text, mention], f.m.end, f.m.end, next;
  }

  /** What the loop relies on in a match: it is not empty, and a source with placeholders captures a non-empty first group. */
  lemma FoundFacts(srcs: seq<Source>, gs: seq<Grammar>, value: string, pos: nat, f: Found)
    requires GrammarsScannable(srcs, gs) && pos <= |value| && FindMatch(gs, value, pos) == Some(f)
    ensures f.source < |srcs| && pos <= f.index < f.m.end <= |value|
    ensures |f.m.captures| == |Holes(gs[f.source].pattern)|
    ensures !Placeholderless(gs[f.source]) ==> f.m.captures[0] != ""
  {
    var g := gs[f.source];
    MatchFromSound(g.pattern, value, f.index);
    if Placeholderless(g) {
      MatchFromLiterals(g.pattern, value, f.index);
    } else {
      assert CaptureOk(Holes(g.pattern)[0], f.m.captures[0]);
    }
  }

  /** A match attributed to a source without placeholders: the scan throws. */
  lemma ScanAnyThrows(value: string, srcs: seq<Source>, gs: seq<Grammar>, multiline: bool,
                      pos: nat, start: nat, plain: nat, f: Found)
    requires GrammarsScannable(srcs, gs) && start <= pos <= |value| && FindMatch(gs, value, pos) == Some(f)
    requires f.source > 0 && Placeholderless(gs[f.source - 1])
    ensures ScanAnyFrom(value, srcs, gs, multiline, pos, start, plain) == Err(InvalidMarkupTemplate)
  {
  }

  /** A match attributed to no source: the scan resumes after it with the same pending text run. */
  lemma ScanAnyPassesOver(value: string, srcs: seq<Source>, gs: seq<Grammar>, multiline: bool,
                          pos: nat, start: nat, plain: nat, f: Found)
    requires GrammarsScannable(srcs, gs) && start <= pos <= |value| && FindMatch(gs, value, pos) == Some(f)
    requires !(f.source > 0 && Placeholderless(gs[f.source - 1])) && Placeholderless(gs[f.source])
    ensures pos < f.m.end <= |value|
    ensures ScanAnyFrom(value, srcs, gs, multiline, pos, start, plain)
            == ScanAnyFrom(value, srcs, gs, multiline, f.m.end, start, plain)
  {
    MatchFromLiterals(gs[f.source].pattern, value, f.index);
  }

  /** A match of a source with placeholders: the text run before it and its mention are reported. */
  lemma ScanAnyReports(value: string, srcs: seq<Source>, gs: seq<Grammar>, multiline: bool,
                       pos: nat, start: nat, plain: nat, f: Found, text: Segment, mention: Segment,
                       end: nat, next: nat)
    requires GrammarsScannable(srcs, gs) && start <= pos <= |value| && FindMatch(gs, value, pos) == Some(f)
    requires !(f.source > 0 && Placeholderless(gs[f.source - 1])) && !Placeholderless(gs[f.source])
    requires text == Text(value[start..f.index], start, plain)
    requires mention == MentionOf(value, srcs, gs, multiline, f, plain + |text.text|)
    requires end == f.m.end && next == plain + |text.text| + |mention.display|
    ensures pos < end <= |value|
    ensures ScanAnyFrom(value, srcs, gs, multiline, pos, start, plain)
            == Prepend([text, mention], ScanAnyFrom(value, srcs, gs, multiline, end, end, next))
  {
    FoundFacts(srcs, gs, value, pos, f);
    ScanAnyAtReports(value, srcs, gs, multiline, pos, start, plain, f, text, mention, end, next);
  }

  /** ScanAnyAt unfolded at a match of a source with placeholders, with its text run and mention named. */
  lemma ScanAnyAtReports(value: string, srcs: seq<Source>, gs: seq<Grammar>, multiline: bool,
                         pos: nat, start: nat, plain: nat, f: Found, text: Segment, mention: Segment,
                         end: nat, next: nat)
    requires GrammarsScannable(srcs, gs) && start <= pos <= f.index < f.m.end <= |value| && f.source < |gs|
    requires MatchFrom(gs[f.source].pattern, value, f.index) == Some(f.m)
    requires !(f.source > 0 && Placeholderless(gs[f.source - 1])) && !Placeholderless(gs[f.source])
    requires text == Text(value[start..f.index], start, plain)
    requires mention == MentionOf(value, srcs, gs, multiline, f, plain + |text.text|)
    requires end == f.m.end && next == plain + |text.text| + |mention.display|
    ensures ScanAnyAt(value, srcs, gs, multiline, pos, start, plain, f)
            == Prepend([text, mention], ScanAnyFrom(value, srcs, gs, multiline, end, end, next))
  {
  }

  lemma PrependNothing(r: Result<seq<Segment>>)
    ensures Prepend([], r) == r
  {
    if r.Ok? {
      assert [] + r.value == r.value;
    }
  }

  lemma PrependTwice(segments: seq<Segment>, more: seq<Segment>, r: Result<seq<Segment>>)
    ensures Prepend(segments, Prepend(more, r)) == Prepend(segments + more, r)
  {
    if r.Ok? {
      assert segments + (more + r.value) == (segments + more) + r.value;
    }
  }

  /**
   * Scans value and reports the segments in the order the plain-text and
   * mention processors would receive them, or the exception a source
   * without placeholders provokes.
   */
  method IterateMentionsMarkup(value: string, srcs: seq<Source>, multiline: bool)
    returns (r: Result<seq<Segment>>)
    requires ScannableSources(srcs)
    ensures r == ScanAny(value, srcs, multiline)
    ensures ValidSources(srcs) ==> r == Ok(Scan(value, srcs, multiline))
  {
    var gs := SourceGrammars(srcs);
    var captureGroupOffsets := CaptureGroupOffsets(srcs);
    OffsetsAreHoleOffsets(srcs);
    SourceGrammarsAgree(srcs);
    ghost var full := ScanAnyFrom(value, srcs, gs, multiline, 0, 0, 0);
    assert full == ScanAny(value, srcs, multiline);
    var lastIndex: nat := 0;
    var start: nat := 0;
    var currentPlainTextIndex: nat := 0;
    var segments := [];
    var found := FindMatch(gs, value, lastIndex);
    PrependNothing(full);
    while found.Some?
      invariant start <= lastIndex <= |value|
      invariant found == FindMatch(gs, value, lastIndex)
      invariant Prepend(segments, ScanAnyFrom(value, srcs, gs, multiline, lastIndex, start, currentPlainTextIndex)) == full
      decreases |value| - lastIndex
    {
      ghost var before := ScanAnyFrom(value, srcs, gs, multiline, lastIndex, start, currentPlainTextIndex);
      var thrown, added;
      thrown, added, lastIndex, start, currentPlainTextIndex :=
        ScanRound(value, srcs, gs, captureGroupOffsets, multiline, lastIndex, start, currentPlainTextIndex,
                  found.value);
      if !thrown {
        PrependTwice(segments, added, ScanAnyFrom(value, srcs, gs, multiline, lastIndex, start, currentPlainTextIndex));
        segments := segments + added;
      }
      if thrown {
        r := Err(InvalidMarkupTemplate);
        if ValidSources(srcs) {
          ScanAnyAgrees(value, srcs, multiline);
        }
        return;
      }
      found := FindMatch(gs, value, lastIndex);
    }
    ghost var trailing := if start < |value| then [Text(value[start..], start, currentPlainTextIndex)] else [];
    assert ScanAnyFrom(value, srcs, gs, multiline, lastIndex, start, currentPlainTextIndex) == Ok(trailing);
    assert full == Ok(segments + trailing);
    if start < |value| {
      segments := segments + [Text(SubstringFrom(value, start), start, currentPlainTextIndex)];
    } else {
      assert segments + trailing == segments;
    }
    r := Ok(segments);
    if ValidSources(srcs) {
      ScanAnyAgrees(value, srcs, multiline);
    }
  }
}
