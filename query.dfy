/**
 * The suggestion side of the engine: the trigger pattern (`makeTriggerRegex`)
 * as a hand-written matcher, `makeMentionsMarkup`, the static-list data
 * provider (`getDataProvider`, `getSubstringIndex`), `countSuggestions`, and
 * the index arithmetic the components share: the query window around the
 * caret, the insertion of a chosen suggestion, and the focus index.
 */
module Query {
  import opened Js
  import opened Types
  import opened Scanner
  import opened Transcoder
  import opened Reconciler

  // ---- makeTriggerRegex ----

  /**
   * A character the query may not contain: any character of the trigger,
   * and whitespace unless spaces are allowed in the query.
   */
  predicate Excluded(c: char, trigger: string, allowSpaceInQuery: bool) {
    c in trigger || (!allowSpaceInQuery && IsWhitespace(c))
  }

  /** q is a possible query: no excluded character. */
  predicate QueryText(q: string, trigger: string, allowSpaceInQuery: bool) {
    forall i :: 0 <= i < |q| ==> !Excluded(q[i], trigger, allowSpaceInQuery)
  }

  /** From position k to the end, s is the trigger followed by a possible query. */
  predicate TriggerAt(s: string, k: nat, trigger: string, allowSpaceInQuery: bool) {
    k + |trigger| <= |s| && s[k..k + |trigger|] == trigger && QueryText(s[k + |trigger|..], trigger, allowSpaceInQuery)
  }

  /** Position k is at the start of s or right after whitespace. */
  predicate Anchored(s: string, k: nat) {
    k == 0 || (k <= |s| && IsWhitespace(s[k - 1]))
  }

  /** Capture 1 may start at k: an anchored position followed by the trigger and a possible query. */
  predicate Candidate(s: string, k: nat, trigger: string, allowSpaceInQuery: bool) {
    Anchored(s, k) && TriggerAt(s, k, trigger, allowSpaceInQuery)
  }

  /** A match of the trigger pattern: where it starts, capture 1 (trigger and query) and capture 2 (the query). */
  datatype TriggerMatch = TriggerMatch(index: nat, group1: string, group2: string)

  /**
   * The first position at or after k where capture 1 may start, or -1. The
   * regular expression `(?:^|\s)(trigger([^\s trigger]*))$` is tried at
   * successive positions p, first with `^` (capture 1 at p = 0) and then with
   * one whitespace character (capture 1 at p + 1), so its capture-1 starts
   * come in this same increasing order.
   */
  function FirstCandidate(s: string, trigger: string, allowSpaceInQuery: bool, k: nat): (r: int)
    decreases |s| + 1 - k
    ensures r == -1 || (k <= r <= |s| && Candidate(s, r, trigger, allowSpaceInQuery))
    ensures r == -1 ==> forall j :: k <= j <= |s| ==> !Candidate(s, j, trigger, allowSpaceInQuery)
    ensures r >= 0 ==> forall j :: k <= j < r ==> !Candidate(s, j, trigger, allowSpaceInQuery)
  {
    if k > |s| then -1
    else if Candidate(s, k, trigger, allowSpaceInQuery) then k
    else FirstCandidate(s, trigger, allowSpaceInQuery, k + 1)
  }

  /**
   * `s.match(makeTriggerRegex(trigger, allowSpaceInQuery))` for a string
   * trigger: the match starts at the whitespace before capture 1, or at 0.
   */
  function MatchTrigger(s: string, trigger: string, allowSpaceInQuery: bool): Option<TriggerMatch>
  {
    var g := FirstCandidate(s, trigger, allowSpaceInQuery, 0);
    if g < 0 then None
    else Some(TriggerMatch(if g == 0 then 0 else g - 1, s[g..], s[g + |trigger|..]))
  }

  /**
   * The match is the leftmost one; capture 1 is the trigger followed by the
   * query and runs to the end of the text; the query is free of excluded
   * characters; there is no match exactly when no position qualifies.
   */
  lemma MatchTriggerSpec(s: string, trigger: string, allowSpaceInQuery: bool)
    ensures match MatchTrigger(s, trigger, allowSpaceInQuery)
            case None => forall j :: 0 <= j <= |s| ==> !Candidate(s, j, trigger, allowSpaceInQuery)
            case Some(m) =>
              var g := |s| - |m.group1|;
              && m.group1 == trigger + m.group2
              && 0 <= g && s[g..] == m.group1
              && QueryText(m.group2, trigger, allowSpaceInQuery)
              && Anchored(s, g)
              && m.index == (if g == 0 then 0 else g - 1)
              && forall j :: 0 <= j < g ==> !Candidate(s, j, trigger, allowSpaceInQuery)
  {
    var g := FirstCandidate(s, trigger, allowSpaceInQuery, 0);
    if g >= 0 {
      TriggerSplits(s, g, trigger, allowSpaceInQuery);
    }
  }

  /** Where the trigger sits, the rest of s is the trigger and then the query. */
  lemma TriggerSplits(s: string, g: nat, trigger: string, allowSpaceInQuery: bool)
    requires TriggerAt(s, g, trigger, allowSpaceInQuery)
    ensures s[g..] == trigger + s[g + |trigger|..]
  {
    assert s[g..] == s[g..g + |trigger|] + s[g + |trigger|..];
  }

  // ---- makeMentionsMarkup ----

  const IdPlaceholder: string := "__id__"
  const DisplayPlaceholder: string := "__display__"

  /** `makeMentionsMarkup`: the first `__id__` becomes id, then the first `__display__` becomes `display || id`. */
  function MakeMentionsMarkup(markup: string, id: string, display: string): string
  {
    ReplaceFirst(ReplaceFirst(markup, IdPlaceholder, id), DisplayPlaceholder, if display != "" then display else id)
  }

  /** `replace` finds its pattern at i when it occurs there and nowhere before. */
  lemma IndexOfAt(s: string, pattern: string, i: nat)
    requires OccursAt(s, pattern, i) && forall j :: 0 <= j < i ==> !OccursAt(s, pattern, j)
    ensures IndexOf(s, pattern) == i
  {
  }

  /** The default template is `@[__display__](`, then `__id__` at 15, then `)`. */
  lemma DefaultTemplateParts()
    ensures DefaultMarkupTemplate[..15] == "@[__display__]("
    ensures DefaultMarkupTemplate[15..21] == IdPlaceholder
    ensures DefaultMarkupTemplate[21..] == ")"
  {
  }

  /** No `__id__` starts in the default template before 15. */
  lemma NoIdBeforeFifteen(j: int)
    requires 0 <= j < 15
    ensures !OccursAt(DefaultMarkupTemplate, IdPlaceholder, j)
  {
    var t := DefaultMarkupTemplate;
    assert t[j + 2] != 'i' || t[j + 3] != 'd';
    assert t[j..j + 6][2] == t[j + 2] && t[j..j + 6][3] == t[j + 3];
  }

  /** In the default template `__id__` first occurs at 15, after `@[__display__](`. */
  lemma DefaultIdReplaced(id: string)
    requires forall i :: 0 <= i < |id| ==> id[i] != '$'
    ensures ReplaceFirst(DefaultMarkupTemplate, IdPlaceholder, id) == "@[__display__](" + id + ")"
  {
    var t := DefaultMarkupTemplate;
    DefaultTemplateParts();
    forall j | 0 <= j < 15 ensures !OccursAt(t, IdPlaceholder, j) {
      NoIdBeforeFifteen(j);
    }
    IndexOfAt(t, IdPlaceholder, 15);
    ReplaceFirstPlain(t, IdPlaceholder, id);
  }

  /** Whatever the id, the first `__display__` is the template's own, at 2. */
  lemma DefaultDisplayReplaced(id: string, shown: string)
    requires forall i :: 0 <= i < |shown| ==> shown[i] != '$'
    ensures ReplaceFirst("@[__display__](" + id + ")", DisplayPlaceholder, shown) == "@[" + shown + "](" + id + ")"
  {
    var u := "@[__display__](" + id + ")";
    assert u[2..13] == DisplayPlaceholder;
    assert !OccursAt(u, DisplayPlaceholder, 0) by { assert u[0] != DisplayPlaceholder[0]; }
    assert !OccursAt(u, DisplayPlaceholder, 1) by { assert u[1] != DisplayPlaceholder[0]; }
    IndexOfAt(u, DisplayPlaceholder, 2);
    ReplaceFirstPlain(u, DisplayPlaceholder, shown);
    assert u[..2] == "@[" && u[13..] == "](" + id + ")";
  }

  /**
   * With the default template, a mention's markup is `@[display](id)`, the
   * display falling back to the id, as long as neither contains `$` (which
   * `replace` would expand).
   */
  lemma DefaultMentionsMarkup(id: string, display: string)
    requires forall i :: 0 <= i < |id| ==> id[i] != '$'
    requires forall i :: 0 <= i < |display| ==> display[i] != '$'
    ensures MakeMentionsMarkup(DefaultMarkupTemplate, id, display)
            == "@[" + (if display != "" then display else id) + "](" + id + ")"
  {
    DefaultIdReplaced(id);
    DefaultDisplayReplaced(id, if display != "" then display else id);
  }

  // ---- getDataProvider and getSubstringIndex ----

  /**
   * The string operations the filter relies on and that are not modelled:
   * `toLowerCase` and the accent table behind `removeAccents`.
   */
  datatype TextOps = TextOps(toLowerCase: string -> string, removeAccents: string -> string)

  /** `getSubstringIndex`: case-insensitive, and accent-insensitive when asked. */
  function SubstringIndex(str: string, substr: string, ignoreAccents: bool, ops: TextOps): int
  {
    if !ignoreAccents then IndexOf(ops.toLowerCase(str), ops.toLowerCase(substr))
    else IndexOf(ops.toLowerCase(ops.removeAccents(str)), ops.toLowerCase(ops.removeAccents(substr)))
  }

  /** A suggestion matches a query when the query occurs in `display || id`. */
  predicate MatchesQuery(item: Suggestion, query: string, ignoreAccents: bool, ops: TextOps) {
    SubstringIndex(if item.display != "" then item.display else item.id, query, ignoreAccents, ops) >= 0
  }

  /** The items that match the query, in list order. */
  function Filtered(items: seq<Suggestion>, query: string, ignoreAccents: bool, ops: TextOps): seq<Suggestion>
  {
    if items == [] then []
    else (if MatchesQuery(items[0], query, ignoreAccents, ops) then [items[0]] else [])
         + Filtered(items[1..], query, ignoreAccents, ops)
  }

  /** The filter keeps exactly the matching items. */
  lemma {:induction false} FilteredIff(items: seq<Suggestion>, query: string, ignoreAccents: bool, ops: TextOps,
                                       x: Suggestion)
    ensures x in Filtered(items, query, ignoreAccents, ops) <==> x in items && MatchesQuery(x, query, ignoreAccents, ops)
  {
    if items != [] {
      FilteredIff(items[1..], query, ignoreAccents, ops, x);
      assert items == [items[0]] + items[1..];
    }
  }

  /** The loop of the static-list provider: each matching item is pushed. */
  method FilterData(data: seq<Suggestion>, query: string, ignoreAccents: bool, ops: TextOps)
    returns (results: seq<Suggestion>)
    ensures results == Filtered(data, query, ignoreAccents, ops)
  {
    results := [];
    for i := 0 to |data|
      invariant results == Filtered(data[..i], query, ignoreAccents, ops)
    {
      FilteredSnoc(data[..i], data[i], query, ignoreAccents, ops);
      assert data[..i + 1] == data[..i] + [data[i]];
      if MatchesQuery(data[i], query, ignoreAccents, ops) {
        results := results + [data[i]];
      }
    }
    assert data[..|data|] == data;
  }

  /** Filtering a list with one more item at the end keeps or drops that item. */
  lemma {:induction false} FilteredSnoc(items: seq<Suggestion>, x: Suggestion, query: string, ignoreAccents: bool,
                                        ops: TextOps)
    ensures Filtered(items + [x], query, ignoreAccents, ops)
            == Filtered(items, query, ignoreAccents, ops)
               + (if MatchesQuery(x, query, ignoreAccents, ops) then [x] else [])
  {
    if items == [] {
      assert Filtered([x], query, ignoreAccents, ops)
             == (if MatchesQuery(x, query, ignoreAccents, ops) then [x] else []) + Filtered([], query, ignoreAccents, ops);
    } else {
      assert (items + [x])[0] == items[0] && (items + [x])[1..] == items[1..] + [x];
      FilteredSnoc(items[1..], x, query, ignoreAccents, ops);
    }
  }

  /** What calling a data provider gives: an array, or a promise of one. */
  datatype ProviderResult = Sync(results: seq<Suggestion>) | Async(pending: seq<Suggestion>)

  /**
   * The provider `getDataProvider` builds, called on a query: a static list
   * is filtered inside an `async` function, and an asynchronous lookup is
   * passed through, so the caller always receives a promise.
   */
  function ProvideData(data: DataSpec, ignoreAccents: bool, ops: TextOps, query: string): (r: ProviderResult)
    ensures r.Async?
    ensures data.StaticList? ==> r.pending == Filtered(data.items, query, ignoreAccents, ops)
  {
    match data
    case StaticList(items) => Async(Filtered(items, query, ignoreAccents, ops))
    case AsyncLookup(lookup) => Async(lookup(query))
  }

  // ---- The query window ----

  /** Where a query sits in the plain text. */
  datatype QuerySpan = QuerySpan(query: string, querySequenceStart: int, querySequenceEnd: int)

  /** The query child k issues when its match found something. */
  function Entry(found: Option<QuerySpan>, k: nat, plainText: string): seq<QueryInfo>
  {
    match found
    case None => []
    case Some(span) => [QueryInfo(k, span.query, span.querySequenceStart, span.querySequenceEnd, plainText)]
  }

  /**
   * The query before the caret: the trigger pattern matched on
   * `text.substring(windowStart, caret)`, the query's start found with
   * `indexOf(match[1], match.index)` and shifted by the window start.
   */
  function ExtractQuery(text: string, windowStart: int, caret: int, trigger: string, allowSpaceInQuery: bool)
    : Option<QuerySpan>
  {
    var substring := Substring(text, windowStart, caret);
    match MatchTrigger(substring, trigger, allowSpaceInQuery)
    case None => None
    case Some(m) =>
      var querySequenceStart := windowStart + IndexOfFrom(substring, m.group1, m.index);
      Some(QuerySpan(m.group2, querySequenceStart, querySequenceStart + |m.group1|))
  }

  /**
   * `indexOf(match[1], match.index)` finds capture 1 in the text it was
   * matched on; it finds it where the match put it unless the trigger
   * starts with whitespace.
   */
  lemma CaptureFound(s: string, trigger: string, allowSpaceInQuery: bool)
    requires MatchTrigger(s, trigger, allowSpaceInQuery).Some?
    ensures var m := MatchTrigger(s, trigger, allowSpaceInQuery).value;
            var i := IndexOfFrom(s, m.group1, m.index);
            && 0 <= i && i + |m.group1| <= |s| && s[i..i + |m.group1|] == trigger + m.group2
            && QueryText(m.group2, trigger, allowSpaceInQuery)
            && (trigger != "" && !IsWhitespace(trigger[0]) ==> i + |m.group1| == |s|)
  {
    var m := MatchTrigger(s, trigger, allowSpaceInQuery).value;
    MatchTriggerSpec(s, trigger, allowSpaceInQuery);
    CaptureOfMatch(s, trigger, allowSpaceInQuery, m);
  }

  /** CaptureFound for a match given by its properties rather than by the matcher. */
  lemma CaptureOfMatch(s: string, trigger: string, allowSpaceInQuery: bool, m: TriggerMatch)
    requires var g := |s| - |m.group1|;
             && m.group1 == trigger + m.group2
             && 0 <= g && s[g..] == m.group1
             && QueryText(m.group2, trigger, allowSpaceInQuery)
             && Anchored(s, g)
             && m.index == (if g == 0 then 0 else g - 1)
    ensures var i := IndexOfFrom(s, m.group1, m.index);
            && 0 <= i && i + |m.group1| <= |s| && s[i..i + |m.group1|] == trigger + m.group2
            && QueryText(m.group2, trigger, allowSpaceInQuery)
            && (trigger != "" && !IsWhitespace(trigger[0]) ==> i + |m.group1| == |s|)
  {
    CaptureAt(s, m.group1, m.index);
    if trigger != "" {
      assert m.group1[0] == trigger[0];
    }
  }

  /**
   * A capture that ends the text, at an anchored position g, is found by
   * `indexOf` from the match's start g - 1 (or 0); at g itself unless the
   * capture starts with whitespace.
   */
  lemma CaptureAt(s: string, group1: string, index: int)
    requires |group1| <= |s| && s[|s| - |group1|..] == group1 && Anchored(s, |s| - |group1|)
    requires index == (if |s| == |group1| then 0 else |s| - |group1| - 1)
    ensures var i := IndexOfFrom(s, group1, index);
            && 0 <= i <= |s| - |group1| && OccursAt(s, group1, i)
            && (|group1| > 0 && !IsWhitespace(group1[0]) ==> i == |s| - |group1|)
  {
    var g := |s| - |group1|;
    assert OccursAt(s, group1, g);
    if |group1| > 0 && !IsWhitespace(group1[0]) && index < g {
      assert !OccursAt(s, group1, index) by {
        assert s[index] != group1[0];
      }
    }
  }

  /** A slice of a window is the slice of the text at the shifted positions. */
  lemma SliceOfWindow(text: string, a: nat, b: nat, i: nat, j: nat, x: string, lo: int, hi: int)
    requires a <= b <= |text| && i <= j <= b - a && text[a..b][i..j] == x
    requires lo == a + i && hi == a + j
    ensures 0 <= lo <= hi <= |text| && text[lo..hi] == x
  {
  }

  /**
   * Inside a window that lies in the text, an extracted query span holds the
   * trigger followed by the query, and the query holds no excluded character;
   * when the trigger does not start with whitespace the span ends at the caret.
   */
  lemma ExtractQueryPlacesTrigger(text: string, windowStart: int, caret: int, trigger: string, allowSpaceInQuery: bool)
    requires 0 <= windowStart <= caret <= |text|
    requires ExtractQuery(text, windowStart, caret, trigger, allowSpaceInQuery).Some?
    ensures var q := ExtractQuery(text, windowStart, caret, trigger, allowSpaceInQuery).value;
            && windowStart <= q.querySequenceStart <= q.querySequenceEnd <= caret
            && text[q.querySequenceStart..q.querySequenceEnd] == trigger + q.query
            && QueryText(q.query, trigger, allowSpaceInQuery)
            && (trigger != "" && !IsWhitespace(trigger[0]) ==> q.querySequenceEnd == caret)
  {
    var s := Substring(text, windowStart, caret);
    assert s == text[windowStart..caret];
    var m := MatchTrigger(s, trigger, allowSpaceInQuery).value;
    var i := IndexOfFrom(s, m.group1, m.index);
    var q := ExtractQuery(text, windowStart, caret, trigger, allowSpaceInQuery).value;
    assert q == QuerySpan(m.group2, windowStart + i, windowStart + i + |m.group1|);
    CaptureFound(s, trigger, allowSpaceInQuery);
    SliceOfWindow(text, windowStart, caret, i, i + |m.group1|, trigger + m.group2,
                  q.querySequenceStart, q.querySequenceEnd);
  }

  // ---- Inserting a chosen suggestion ----

  /** The new markup, plain text and caret after inserting a mention, and the markup span it replaced. */
  datatype Insertion = Insertion(newValue: string, newPlainTextValue: string, caret: int, start: int, end: int)

  /** What a change hands to `onChange`: the new markup, its plain text, and its mentions. */
  datatype Change = Change(newValue: string, newPlainTextValue: string, mentions: seq<MentionData>)

  /**
   * The value side of `handleChange`: the edit of the plain text carried
   * into the markup by `applyChangeToValue`, then the plain text and the
   * mentions re-derived from the new markup.
   */
  method ComputeChange(value: string, srcs: seq<Source>, eventValue: string, selectionStartBefore: Option<int>,
                       selectionEndBefore: Option<int>, selectionEndAfter: int)
    returns (change: Change)
    requires ValidSources(srcs)
    ensures change.newValue
            == AppliedChange(value, eventValue, selectionStartBefore, selectionEndBefore, selectionEndAfter, srcs,
                             false)
    ensures change.newPlainTextValue == PlainText(change.newValue, srcs, false)
    ensures change.mentions == Mentions(change.newValue, srcs)
  {
    var newValue := ApplyChangeToValue(value, eventValue, selectionStartBefore, selectionEndBefore,
                                       selectionEndAfter, srcs, false);
    var newPlainTextValue := GetPlainText(newValue, srcs, false);
    var mentions := GetMentions(newValue, srcs);
    change := Change(newValue, newPlainTextValue, mentions);
  }

  /**
   * What the inserted mention adds: the source's own template filled in with
   * the suggestion (no default template is substituted) and the source's own
   * `displayTransform` applied to it, each with a trailing space when asked.
   */
  function InsertedMarkup(src: Source, s: Suggestion, appendSpaceOnAdd: bool): string
  {
    var markup := MakeMentionsMarkup(src.markup, s.id, s.display);
    if appendSpaceOnAdd then markup + " " else markup
  }

  function InsertedDisplay(src: Source, s: Suggestion, appendSpaceOnAdd: bool): string
    requires src.displayTransform.Some?
  {
    var displayValue := src.displayTransform.value(s.id, s.display);
    if appendSpaceOnAdd then displayValue + " " else displayValue
  }

  /**
   * `addMention`'s computation: the query's start mapped into the markup
   * (START), a markup span as long as the query's plain span, the mention
   * markup spliced over it, the display spliced over the query in the plain
   * text, and the caret after the display. Nothing when the start does not
   * map to a number, and nothing when the source has no `displayTransform`:
   * calling the absent transform throws before any state is set.
   */
  function InsertMention(value: string, srcs: seq<Source>, src: Source, s: Suggestion, info: QueryInfo,
                         appendSpaceOnAdd: bool): Option<Insertion>
    requires ValidSources(srcs)
  {
    match MappedIndex(value, srcs, info.querySequenceStart, Start)
    case None => None
    case Some(start) =>
      if src.displayTransform.None? then None else Some(InsertionAt(value, start, src, s, info, appendSpaceOnAdd))
  }

  /**
   * Whether `addMention` throws: the query's start maps to a number, so the
   * source goes on to call a `displayTransform` it does not have.
   */
  predicate InsertionThrows(value: string, srcs: seq<Source>, src: Source, info: QueryInfo)
    requires ValidSources(srcs)
  {
    MappedIndex(value, srcs, info.querySequenceStart, Start).Some? && src.displayTransform.None?
  }

  /** The insertion once the query's start has mapped to `start` in the markup. */
  function InsertionAt(value: string, start: int, src: Source, s: Suggestion, info: QueryInfo,
                       appendSpaceOnAdd: bool): Insertion
    requires src.displayTransform.Some?
  {
    var end := start + info.querySequenceEnd - info.querySequenceStart;
    var displayValue := InsertedDisplay(src, s, appendSpaceOnAdd);
    Insertion(SpliceString(value, start, end, InsertedMarkup(src, s, appendSpaceOnAdd)),
              SpliceString(info.plainTextValue, info.querySequenceStart, info.querySequenceEnd, displayValue),
              info.querySequenceStart + |displayValue|, start, end)
  }

  /**
   * The insertion step of `addMention`: the query's start is mapped (START)
   * into the markup, the query's span there is replaced by the mention's
   * markup and the query's span in the plain text by its display, each
   * with a trailing space when asked. Nothing when the start does not map
   * or the source has no `displayTransform`.
   */
  method ComputeInsertion(value: string, srcs: seq<Source>, src: Source, s: Suggestion, info: QueryInfo,
                          appendSpaceOnAdd: bool)
    returns (r: Option<Insertion>)
    requires ValidSources(srcs)
    ensures r == InsertMention(value, srcs, src, s, info, appendSpaceOnAdd)
  {
    var start := MapPlainTextIndex(value, srcs, info.querySequenceStart, Start);
    if start.None? || src.displayTransform.None? {
      return None;
    }
    var inserted := SpliceMention(value, start.value, src, s, info, appendSpaceOnAdd);
    r := Some(inserted);
  }

  /** The splices of `addMention` at a mapped start: the markup and the plain text with the caret after the display. */
  method SpliceMention(value: string, start: int, src: Source, s: Suggestion, info: QueryInfo, appendSpaceOnAdd: bool)
    returns (r: Insertion)
    requires src.displayTransform.Some?
    ensures r == InsertionAt(value, start, src, s, info, appendSpaceOnAdd)
  {
    var end := start + info.querySequenceEnd - info.querySequenceStart;
    var insert := MakeMentionsMarkup(src.markup, s.id, s.display);
    if appendSpaceOnAdd {
      insert := insert + " ";
    }
    var newValue := SpliceString(value, start, end, insert);
    var displayValue := src.displayTransform.value(s.id, s.display);
    if appendSpaceOnAdd {
      displayValue := displayValue + " ";
    }
    var newCaretPosition := info.querySequenceStart + |displayValue|;
    var newPlainTextValue := SpliceString(info.plainTextValue, info.querySequenceStart, info.querySequenceEnd,
                                          displayValue);
    ghost var intended := InsertionAt(value, start, src, s, info, appendSpaceOnAdd);
    assert intended.newValue == newValue by {
      assert InsertedMarkup(src, s, appendSpaceOnAdd) == insert;
    }
    assert intended.newPlainTextValue == newPlainTextValue && intended.caret == newCaretPosition by {
      assert InsertedDisplay(src, s, appendSpaceOnAdd) == displayValue;
    }
    r := Insertion(newValue, newPlainTextValue, newCaretPosition, start, end);
  }

  /**
   * The insertion always happens (START maps every index to a number); the
   * replaced markup span is as long as the query; the new plain text has the
   * display in place of the query; and the caret lands right after the display.
   */
  lemma InsertMentionSpec(value: string, srcs: seq<Source>, src: Source, s: Suggestion, info: QueryInfo,
                          appendSpaceOnAdd: bool)
    requires ValidSources(srcs)
    requires 0 <= info.querySequenceStart <= info.querySequenceEnd <= |info.plainTextValue|
    ensures var r := InsertMention(value, srcs, src, s, info, appendSpaceOnAdd);
            && (r.Some? <==> src.displayTransform.Some?)
            && (r.Some? ==>
                  var d := InsertedDisplay(src, s, appendSpaceOnAdd);
                  && r.value.end - r.value.start == info.querySequenceEnd - info.querySequenceStart
                  && r.value.newPlainTextValue
                     == info.plainTextValue[..info.querySequenceStart] + d + info.plainTextValue[info.querySequenceEnd..]
                  && r.value.caret == info.querySequenceStart + |d|
                  && r.value.newPlainTextValue[..r.value.caret] == info.plainTextValue[..info.querySequenceStart] + d)
  {
    MapStartEndNumeric(Scan(value, srcs, false), info.querySequenceStart, Start);
  }

  /** With a trailing space the inserted markup and display each gain one space, and the caret moves one further. */
  lemma AppendSpaceOnAdd(value: string, srcs: seq<Source>, src: Source, s: Suggestion, info: QueryInfo)
    requires ValidSources(srcs)
    ensures var with := InsertMention(value, srcs, src, s, info, true);
            var without := InsertMention(value, srcs, src, s, info, false);
            && with.Some? == without.Some?
            && (with.Some? ==> with.value.caret == without.value.caret + 1)
            && InsertedMarkup(src, s, true) == InsertedMarkup(src, s, false) + " "
            && (src.displayTransform.Some? ==> InsertedDisplay(src, s, true) == InsertedDisplay(src, s, false) + " ")
  {
  }

  /** In a value without mentions, the markup span replaced is exactly the query's plain span. */
  lemma InsertWithoutMentions(value: string, srcs: seq<Source>, src: Source, s: Suggestion, info: QueryInfo,
                              appendSpaceOnAdd: bool)
    requires ValidSources(srcs) && MentionsOf(Scan(value, srcs, false)) == []
    requires 0 <= info.querySequenceStart <= info.querySequenceEnd <= |value|
    ensures var r := InsertMention(value, srcs, src, s, info, appendSpaceOnAdd);
            && (r.Some? <==> src.displayTransform.Some?)
            && (r.Some? ==>
                  && r.value.start == info.querySequenceStart && r.value.end == info.querySequenceEnd
                  && r.value.newValue == value[..info.querySequenceStart] + InsertedMarkup(src, s, appendSpaceOnAdd)
                                         + value[info.querySequenceEnd..])
  {
    ScanWithoutMentions(value, srcs, false, false);
    MapWithoutMentions(value, srcs, info.querySequenceStart, Start);
  }

  // ---- The suggestions map and the focus index ----

  /**
   * The suggestions map keyed by source index; entry k holds key k. The
   * object's integer keys enumerate in ascending order, which is the order
   * of this sequence.
   */
  type SuggestionsMap = seq<Option<Suggestions>>

  /** `countSuggestions`: the results of all entries. */
  function CountSuggestions(m: SuggestionsMap): nat
  {
    if m == [] then 0
    else (if m[0].Some? then |m[0].value.results| else 0) + CountSuggestions(m[1..])
  }

  /** A result with the query it answers. */
  datatype Choice = Choice(result: Suggestion, queryInfo: QueryInfo)

  /**
   * All results, each with its entry's query, entry by entry (the list
   * `selectFocused` indexes): one choice per result, each taken from a
   * stored entry.
   */
  function Choices(m: SuggestionsMap): (r: seq<Choice>)
    ensures |r| == CountSuggestions(m)
    ensures forall c :: c in r ==> exists k :: 0 <= k < |m| && m[k].Some? && c.result in m[k].value.results
                                            && c.queryInfo == m[k].value.queryInfo
  {
    if m == [] then []
    else
      var here := if m[0].Some? then seq(|m[0].value.results|, i requires 0 <= i < |m[0].value.results| =>
                                           Choice(m[0].value.results[i], m[0].value.queryInfo))
                  else [];
      var rest := Choices(m[1..]);
      assert forall c :: c in rest ==> exists k :: 0 <= k < |m| && m[k].Some? && c.result in m[k].value.results
                                                && c.queryInfo == m[k].value.queryInfo by {
        forall c | c in rest
          ensures exists k :: 0 <= k < |m| && m[k].Some? && c.result in m[k].value.results
                              && c.queryInfo == m[k].value.queryInfo
        {
          var k :| 0 <= k < |m[1..]| && m[1..][k].Some? && c.result in m[1..][k].value.results
                   && c.queryInfo == m[1..][k].value.queryInfo;
          assert m[k + 1] == m[1..][k];
        }
      }
      here + rest
  }

  /** `{...m, [k]: v}`. */
  function Store(m: SuggestionsMap, k: nat, v: Suggestions): (r: SuggestionsMap)
    ensures |r| == Max(|m|, k + 1)
    ensures r[k] == Some(v)
    ensures forall j :: 0 <= j < |r| && j != k ==> r[j] == (if j < |m| then m[j] else None)
  {
    if k < |m| then m[k := Some(v)] else m + Absent(k - |m|) + [Some(v)]
  }

  /** The entries' counts add up. */
  lemma {:induction false} CountAppend(a: SuggestionsMap, b: SuggestionsMap)
    ensures CountSuggestions(a + b) == CountSuggestions(a) + CountSuggestions(b)
  {
    if a == [] {
      assert a + b == b;
    } else {
      assert (a + b)[1..] == a[1..] + b;
      CountAppend(a[1..], b);
    }
  }

  /** n keys without an entry. */
  function Absent(n: nat): (r: SuggestionsMap)
    ensures |r| == n && forall j :: 0 <= j < n ==> r[j].None?
  {
    seq(n, _ => None)
  }

  lemma {:induction false} CountNone(n: nat)
    ensures CountSuggestions(Absent(n)) == 0
  {
    if n > 0 {
      assert Absent(n)[1..] == Absent(n - 1);
      CountNone(n - 1);
    }
  }

  /** Storing an entry replaces that key's results in the count. */
  lemma StoreCount(m: SuggestionsMap, k: nat, v: Suggestions)
    ensures CountSuggestions(Store(m, k, v))
            == CountSuggestions(m) - (if k < |m| && m[k].Some? then |m[k].value.results| else 0) + |v.results|
  {
    if k < |m| {
      assert m == m[..k] + [m[k]] + m[k + 1..];
      assert Store(m, k, v) == m[..k] + [Some(v)] + m[k + 1..];
      CountAppend(m[..k] + [m[k]], m[k + 1..]);
      CountAppend(m[..k], [m[k]]);
      CountAppend(m[..k] + [Some(v)], m[k + 1..]);
      CountAppend(m[..k], [Some(v)]);
    } else {
      CountAppend(m + Absent(k - |m|), [Some(v)]);
      CountAppend(m, Absent(k - |m|));
      CountNone(k - |m|);
    }
  }

  /**
   * `shiftFocus`: `(count + focus + delta) % count` with JavaScript's
   * remainder, which lands in the list whenever the dividend is not negative.
   */
  function ShiftedFocus(count: nat, focus: int, delta: int): (r: int)
    requires count > 0
    ensures count + focus + delta >= 0 ==> 0 <= r < count
  {
    JsRem(count + focus + delta, count)
  }

  /** Remainders within one wrap of the divisor. */
  lemma ModOnce(x: int, n: int)
    requires n > 0 && 0 <= x < n
    ensures x % n == x && (x + n) % n == x && (n + n) % n == 0
  {
  }

  /** Moving the focus one step down or up from a valid index wraps around the list. */
  lemma ShiftedFocusWraps(count: nat, focus: int, delta: int)
    requires count > 0 && 0 <= focus < count && (delta == 1 || delta == -1)
    ensures 0 <= ShiftedFocus(count, focus, delta) < count
    ensures delta == 1 ==> ShiftedFocus(count, focus, delta) == (if focus == count - 1 then 0 else focus + 1)
    ensures delta == -1 ==> ShiftedFocus(count, focus, delta) == (if focus == 0 then count - 1 else focus - 1)
  {
    if delta == 1 && focus == count - 1 {
      ModOnce(0, count);
    } else if delta == 1 {
      ModOnce(focus + 1, count);
    } else if focus == 0 {
      ModOnce(count - 1, count);
    } else {
      ModOnce(focus - 1, count);
    }
  }

  /** The focus after new results: an index past the list moves to its last entry (0 for an empty list). */
  function ClampedFocus(focus: int, count: nat): int
  {
    if focus >= count then Max(count - 1, 0) else focus
  }

  lemma ClampedFocusInRange(focus: int, count: nat)
    requires 0 <= focus
    ensures 0 <= ClampedFocus(focus, count)
    ensures count > 0 ==> ClampedFocus(focus, count) < count
    ensures focus < count ==> ClampedFocus(focus, count) == focus
  {
  }

  // ---- The selection bookkeeping of handleChange ----

  /** A selection range; a bound is None when it is null. */
  datatype Selection = Selection(start: Option<int>, end: Option<int>)

  /** The stored bound, or the event's when the stored one is not a number. */
  function SelectionBefore(stored: Option<int>, event: Option<int>): (r: Option<int>)
    ensures stored.Some? ==> r == stored
    ensures stored.None? ==> r == event
  {
    if stored.Some? then stored else event
  }

  /**
   * The selection `handleChange` keeps after a change, and whether it was
   * moved because of a mention: when the stored start lay in a mention and
   * the event's end is past that mention's start, the start moves to the
   * mention start plus the length of the inserted data and the end to the
   * stored start; otherwise the event's selection is kept.
   */
  function SelectionAfterChange(value: string, srcs: seq<Source>, selectionStart: Option<int>,
                                eventStart: Option<int>, eventEnd: Option<int>, data: string): (Selection, bool)
    requires ValidSources(srcs)
  {
    SelectionAround(MentionStartAt(Scan(value, srcs, false), OrZero(selectionStart)), selectionStart,
                    eventStart, eventEnd, data)
  }

  /**
   * `handleChange`'s selection bookkeeping: the event's selection, unless
   * the stored start lies in a mention whose start the event's end passed.
   */
  method AdjustSelection(value: string, srcs: seq<Source>, selectionStart: Option<int>, eventStart: Option<int>,
                         eventEnd: Option<int>, data: string)
    returns (after: Selection, moved: bool)
    requires ValidSources(srcs)
    ensures (after, moved) == SelectionAfterChange(value, srcs, selectionStart, eventStart, eventEnd, data)
  {
    var selectionStartAfter := eventStart;
    var selectionEndAfter := eventEnd;
    moved := false;
    var startOfMention := FindStartOfMentionInPlainText(value, srcs, OrZero(selectionStart));
    assert SelectionAfterChange(value, srcs, selectionStart, eventStart, eventEnd, data)
           == SelectionAround(startOfMention, selectionStart, eventStart, eventEnd, data);
    if startOfMention.Some? && selectionEndAfter.Some? && selectionEndAfter.value > startOfMention.value {
      selectionStartAfter := Some(startOfMention.value + |data|);
      selectionEndAfter := selectionStart;
      moved := true;
    }
    after := Selection(selectionStartAfter, selectionEndAfter);
  }

  /** The selection rule given the start of the mention holding the stored start, if any. */
  function SelectionAround(startOfMention: Option<int>, selectionStart: Option<int>, eventStart: Option<int>,
                           eventEnd: Option<int>, data: string): (Selection, bool)
  {
    if startOfMention.Some? && eventEnd.Some? && eventEnd.value > startOfMention.value then
      (Selection(Some(startOfMention.value + |data|), selectionStart), true)
    else
      (Selection(eventStart, eventEnd), false)
  }

  /**
   * A stored start found in a mention starting at x (ScanMentionStart finds
   * the start of the mention holding it), with the event's end past x,
   * moves the selection to x plus the data length, ending at the stored
   * start.
   */
  lemma SelectionInsideMention(value: string, srcs: seq<Source>, selectionStart: Option<int>,
                               eventStart: Option<int>, eventEnd: Option<int>, data: string, x: int)
    requires ValidSources(srcs) && MentionStartAt(Scan(value, srcs, false), OrZero(selectionStart)) == Some(x)
    requires eventEnd.Some? && eventEnd.value > x
    ensures SelectionAfterChange(value, srcs, selectionStart, eventStart, eventEnd, data)
            == (Selection(Some(x + |data|), selectionStart), true)
  {
    SelectionMoves(x, selectionStart, eventStart, eventEnd, data);
  }

  /**
   * The selection rule's first branch: when the event's end lies after the
   * mention's start x, the start moves to x plus the inserted text. Kept apart
   * from SelectionInsideMention so it is proved without the scan's terms.
   */
  lemma SelectionMoves(x: int, selectionStart: Option<int>, eventStart: Option<int>, eventEnd: Option<int>,
                       data: string)
    requires eventEnd.Some? && eventEnd.value > x
    ensures SelectionAround(Some(x), selectionStart, eventStart, eventEnd, data)
            == (Selection(Some(x + |data|), selectionStart), true)
  {
  }

  /** A stored start in no mention keeps the event's selection. */
  lemma SelectionOutsideMentions(value: string, srcs: seq<Source>, selectionStart: Option<int>,
                                 eventStart: Option<int>, eventEnd: Option<int>, data: string)
    requires ValidSources(srcs)
    requires forall i :: 0 <= i < |Scan(value, srcs, false)| ==> !ContainsIndex(Scan(value, srcs, false)[i], OrZero(selectionStart))
    ensures SelectionAfterChange(value, srcs, selectionStart, eventStart, eventEnd, data)
            == (Selection(eventStart, eventEnd), false)
  {
    ScanMentionStartNone(value, srcs, OrZero(selectionStart));
  }
}
