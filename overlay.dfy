/**
 * The suggestions overlay of the text-field component: the effect that
 * extracts the queries around the caret and asks each matching source for
 * data, the merge of a source's results into the suggestions map, and the
 * keyboard listener's focus moves and selection.
 */
module Overlay {
  import opened Js
  import opened Types
  import opened Scanner
  import opened Transcoder
  import opened Query

  /** What each source's own trigger matched in the window. */
  function Matches(srcs: seq<Source>, plainText: string, windowStart: int, caret: int)
    : (r: seq<Option<QuerySpan>>)
    ensures |r| == |srcs|
    ensures forall k :: 0 <= k < |srcs| ==>
              r[k] == ExtractQuery(plainText, windowStart, caret, srcs[k].trigger, srcs[k].allowSpaceInQuery)
  {
    seq(|srcs|, k requires 0 <= k < |srcs| =>
                  ExtractQuery(plainText, windowStart, caret, srcs[k].trigger, srcs[k].allowSpaceInQuery))
  }

  /** The queries of the first n sources, in source order. */
  function Collected(found: seq<Option<QuerySpan>>, n: nat, plainText: string): seq<QueryInfo>
    requires n <= |found|
  {
    if n == 0 then [] else Collected(found, n - 1, plainText) + Entry(found[n - 1], n - 1, plainText)
  }

  lemma CollectedGrows(found: seq<Option<QuerySpan>>, n: nat, plainText: string)
    requires n < |found|
    ensures Collected(found, n + 1, plainText) == Collected(found, n, plainText) + Entry(found[n], n, plainText)
  {
  }

  /** The queries of all sources: one for every source whose own trigger matches before the caret. */
  function SourceQueries(srcs: seq<Source>, plainText: string, windowStart: int, caret: int): seq<QueryInfo>
  {
    Collected(Matches(srcs, plainText, windowStart, caret), |srcs|, plainText)
  }

  /** Each collected query is the entry of one of the first n sources. */
  lemma {:induction false} CollectedFrom(found: seq<Option<QuerySpan>>, n: nat, plainText: string, q: QueryInfo)
    returns (k: nat)
    requires n <= |found| && q in Collected(found, n, plainText)
    ensures k < n && q in Entry(found[k], k, plainText)
  {
    var earlier := Collected(found, n - 1, plainText);
    var here := Entry(found[n - 1], n - 1, plainText);
    assert Collected(found, n, plainText) == earlier + here;
    if q in here {
      k := n - 1;
    } else {
      k := CollectedFrom(found, n - 1, plainText, q);
    }
  }

  /** Every collected query carries what its source's match found. */
  lemma CollectedSound(found: seq<Option<QuerySpan>>, n: nat, plainText: string)
    requires n <= |found|
    ensures forall q :: q in Collected(found, n, plainText) ==>
              && q.childIndex < n && q.plainTextValue == plainText
              && found[q.childIndex] == Some(QuerySpan(q.query, q.querySequenceStart, q.querySequenceEnd))
  {
    forall q | q in Collected(found, n, plainText)
      ensures && q.childIndex < n && q.plainTextValue == plainText
              && found[q.childIndex] == Some(QuerySpan(q.query, q.querySequenceStart, q.querySequenceEnd))
    {
      var k := CollectedFrom(found, n, plainText, q);
    }
  }

  /** Every source among the first n whose match found something has a query. */
  lemma {:induction false} CollectedComplete(found: seq<Option<QuerySpan>>, n: nat, plainText: string)
    requires n <= |found|
    ensures forall j :: 0 <= j < n && found[j].Some? ==>
              exists q :: q in Collected(found, n, plainText) && q.childIndex == j
  {
    if n > 0 {
      CollectedComplete(found, n - 1, plainText);
      var earlier := Collected(found, n - 1, plainText);
      var here := Entry(found[n - 1], n - 1, plainText);
      assert Collected(found, n, plainText) == earlier + here;
      forall j | 0 <= j < n && found[j].Some?
        ensures exists q: QueryInfo :: q in earlier + here && q.childIndex == j
      {
        if j == n - 1 {
          assert here[0] in earlier + here;
        } else {
          var q: QueryInfo :| q in earlier && q.childIndex == j;
          assert q in earlier + here;
        }
      }
    }
  }

  /**
   * Exactly the sources whose own trigger matches get a query, and each
   * query carries what its match extracted.
   */
  lemma SourceQueriesExact(srcs: seq<Source>, plainText: string, windowStart: int, caret: int)
    ensures forall q :: q in SourceQueries(srcs, plainText, windowStart, caret) ==>
              && q.childIndex < |srcs| && q.plainTextValue == plainText
              && ExtractQuery(plainText, windowStart, caret, srcs[q.childIndex].trigger,
                              srcs[q.childIndex].allowSpaceInQuery)
                 == Some(QuerySpan(q.query, q.querySequenceStart, q.querySequenceEnd))
    ensures forall j :: 0 <= j < |srcs|
              && ExtractQuery(plainText, windowStart, caret, srcs[j].trigger, srcs[j].allowSpaceInQuery).Some?
              ==> exists q :: q in SourceQueries(srcs, plainText, windowStart, caret) && q.childIndex == j
  {
    var found := Matches(srcs, plainText, windowStart, caret);
    CollectedSound(found, |srcs|, plainText);
    CollectedComplete(found, |srcs|, plainText);
  }

  /**
   * The queries the effect issues: none unless the selection is collapsed at
   * a non-zero caret; the caret is mapped (NULL) over the plain text, and no
   * query runs when that gives null or 0; the window starts at the end of the
   * last mention found in the plain text up to that position.
   */
  function OverlayQueries(value: string, srcs: seq<Source>, selectionStart: Option<int>, selectionEnd: Option<int>)
    : seq<QueryInfo>
    requires ValidSources(srcs)
  {
    if selectionStart.None? || selectionStart.value == 0 || selectionStart != selectionEnd then []
    else
      var caret := selectionStart.value;
      var plainText := PlainText(value, srcs, false);
      var positionInValue := MappedIndex(plainText, srcs, caret, Null);
      if positionInValue.None? || positionInValue.value == 0 then []
      else
        var windowStart := LastMentionEnd(Mentions(Substring(plainText, 0, positionInValue.value), srcs));
        SourceQueries(srcs, plainText, windowStart, caret)
  }

  /**
   * Inside a window that lies in the text, each query's span holds its
   * source's trigger followed by the query.
   */
  lemma SourceQueriesPlaced(srcs: seq<Source>, plainText: string, windowStart: int, caret: int)
    requires 0 <= windowStart <= caret <= |plainText|
    ensures forall q :: q in SourceQueries(srcs, plainText, windowStart, caret) ==>
              && q.childIndex < |srcs|
              && windowStart <= q.querySequenceStart <= q.querySequenceEnd <= caret
              && plainText[q.querySequenceStart..q.querySequenceEnd] == srcs[q.childIndex].trigger + q.query
              && QueryText(q.query, srcs[q.childIndex].trigger, srcs[q.childIndex].allowSpaceInQuery)
  {
    SourceQueriesExact(srcs, plainText, windowStart, caret);
    forall q | q in SourceQueries(srcs, plainText, windowStart, caret)
      ensures && q.childIndex < |srcs|
              && windowStart <= q.querySequenceStart <= q.querySequenceEnd <= caret
              && plainText[q.querySequenceStart..q.querySequenceEnd] == srcs[q.childIndex].trigger + q.query
              && QueryText(q.query, srcs[q.childIndex].trigger, srcs[q.childIndex].allowSpaceInQuery)
    {
      ExtractQueryPlacesTrigger(plainText, windowStart, caret, srcs[q.childIndex].trigger,
                                srcs[q.childIndex].allowSpaceInQuery);
    }
  }

  /** A caret strictly inside a mention of the text the overlay maps over starts no query. */
  lemma NoQueryInsideMention(value: string, srcs: seq<Source>, caret: int, i: nat)
    requires ValidSources(srcs)
    requires i < |Scan(PlainText(value, srcs, false), srcs, false)|
    requires StrictlyInside(Scan(PlainText(value, srcs, false), srcs, false)[i], caret)
    ensures OverlayQueries(value, srcs, Some(caret), Some(caret)) == []
  {
    MappedIndexNullIffInside(PlainText(value, srcs, false), srcs, caret);
  }

  /** The overlay's state: the suggestions map and the focused entry. */
  class SuggestionsOverlay {
    var suggestions: SuggestionsMap
    var focusIndex: int

    constructor ()
      ensures suggestions == [] && focusIndex == 0
    {
      suggestions := [];
      focusIndex := 0;
    }

    /**
     * `queryDataSource` once the provider has answered: a synchronous array
     * is stored under the source's index, leaving the other entries alone;
     * a promise stores nothing.
     */
    method QueryDataSource(query: string, sourceIndex: nat, querySequenceStart: int, querySequenceEnd: int,
                           fullText: string, results: ProviderResult)
      modifies this
      ensures focusIndex == old(focusIndex)
      ensures suggestions == if results.Sync? then
                               Store(old(suggestions), sourceIndex,
                                     Suggestions(QueryInfo(sourceIndex, query, querySequenceStart, querySequenceEnd,
                                                           fullText), results.results))
                             else old(suggestions)
    {
      if results.Sync? {
        suggestions := Store(suggestions, sourceIndex,
                             Suggestions(QueryInfo(sourceIndex, query, querySequenceStart, querySequenceEnd, fullText),
                                         results.results));
      }
    }

    /**
     * The query-extraction effect: the map is emptied, and each matching
     * source is asked for data. The queries are returned; since every
     * provider answers with a promise, the map stays empty.
     */
    method UpdateQueries(value: string, srcs: seq<Source>, selectionStart: Option<int>, selectionEnd: Option<int>,
                         ops: TextOps)
      returns (queries: seq<QueryInfo>)
      requires ValidSources(srcs)
      modifies this
      ensures queries == OverlayQueries(value, srcs, selectionStart, selectionEnd)
      ensures suggestions == [] && focusIndex == old(focusIndex)
    {
      suggestions := [];
      queries := [];
      if selectionStart.None? || selectionStart.value == 0 || selectionStart != selectionEnd {
        return;
      }
      var caret := selectionStart.value;
      var plainText := GetPlainText(value, srcs, false);
      var positionInValue := MapPlainTextIndex(plainText, srcs, caret, Null);
      if positionInValue.None? || positionInValue.value == 0 {
        return;
      }
      var substringStartIndex := GetEndOfLastMention(Substring(plainText, 0, positionInValue.value), srcs);
      queries := AskSources(srcs, plainText, substringStartIndex, caret, ops);
    }

    /**
     * The effect's loop over the sources: the window is matched against each
     * source's own trigger, and each match is passed to the source's data
     * provider. Providers answer with promises, so nothing is stored.
     */
    method AskSources(srcs: seq<Source>, plainText: string, substringStartIndex: int, caret: int, ops: TextOps)
      returns (queries: seq<QueryInfo>)
      modifies this
      ensures queries == SourceQueries(srcs, plainText, substringStartIndex, caret)
      ensures suggestions == old(suggestions) && focusIndex == old(focusIndex)
    {
      queries := [];
      for sourceIndex := 0 to |srcs|
        invariant suggestions == old(suggestions) && focusIndex == old(focusIndex)
        invariant queries == Collected(Matches(srcs, plainText, substringStartIndex, caret), sourceIndex, plainText)
      {
        queries := AskNext(srcs, sourceIndex, plainText, substringStartIndex, caret, ops, queries);
      }
    }

    /** Extends the queries of the first k sources with source k's. */
    method AskNext(srcs: seq<Source>, sourceIndex: nat, plainText: string, substringStartIndex: int, caret: int,
                   ops: TextOps, queries: seq<QueryInfo>)
      returns (extended: seq<QueryInfo>)
      requires sourceIndex < |srcs|
      requires queries == Collected(Matches(srcs, plainText, substringStartIndex, caret), sourceIndex, plainText)
      modifies this
      ensures extended == Collected(Matches(srcs, plainText, substringStartIndex, caret), sourceIndex + 1, plainText)
      ensures suggestions == old(suggestions) && focusIndex == old(focusIndex)
    {
      var asked := AskSource(srcs, sourceIndex, plainText, substringStartIndex, caret, ops);
      CollectedGrows(Matches(srcs, plainText, substringStartIndex, caret), sourceIndex, plainText);
      extended := queries + asked;
    }

    /** One round of the effect's loop: source k's trigger is matched and, on a match, its provider asked. */
    method AskSource(srcs: seq<Source>, sourceIndex: nat, plainText: string, substringStartIndex: int, caret: int,
                     ops: TextOps)
      returns (asked: seq<QueryInfo>)
      requires sourceIndex < |srcs|
      modifies this
      ensures asked == Entry(Matches(srcs, plainText, substringStartIndex, caret)[sourceIndex], sourceIndex, plainText)
      ensures suggestions == old(suggestions) && focusIndex == old(focusIndex)
    {
      var source := srcs[sourceIndex];
      var span := ExtractQuery(plainText, substringStartIndex, caret, source.trigger, source.allowSpaceInQuery);
      asked := [];
      if span.Some? {
        asked := [QueryInfo(sourceIndex, span.value.query, span.value.querySequenceStart,
                            span.value.querySequenceEnd, plainText)];
        var results := ProvideData(source.data, source.ignoreAccents, ops, span.value.query);
        QueryDataSource(span.value.query, sourceIndex, span.value.querySequenceStart, span.value.querySequenceEnd,
                        plainText, results);
      }
    }

    /** `clearSuggestions`: empty map, focus on the first entry. */
    method ClearSuggestions()
      modifies this
      ensures suggestions == [] && focusIndex == 0
    {
      suggestions := [];
      focusIndex := 0;
    }

    /**
     * The keyboard listener's `shiftFocus`; the listener only exists while
     * there are suggestions. From any focus that is not negative the new
     * focus lies in the list.
     */
    method ShiftFocus(delta: int)
      requires CountSuggestions(suggestions) > 0
      modifies this
      ensures suggestions == old(suggestions)
      ensures focusIndex == ShiftedFocus(CountSuggestions(suggestions), old(focusIndex), delta)
      ensures old(focusIndex) >= 0 && (delta == 1 || delta == -1) ==> 0 <= focusIndex < CountSuggestions(suggestions)
    {
      var suggestionsCount := CountSuggestions(suggestions);
      focusIndex := ShiftedFocus(suggestionsCount, focusIndex, delta);
    }

    /**
     * `selectFocused` followed by the overlay's `handleSelect`: the focused
     * entry of the flattened results is handed on and the suggestions are
     * cleared. A focus outside the list reads no entry (the destructuring
     * throws) and changes nothing.
     */
    method SelectFocused() returns (chosen: Option<Choice>)
      modifies this
      ensures var choices := old(Choices(suggestions));
              if 0 <= old(focusIndex) < |choices| then
                chosen == Some(choices[old(focusIndex)]) && suggestions == [] && focusIndex == 0
              else
                chosen == None && suggestions == old(suggestions) && focusIndex == old(focusIndex)
    {
      var choices := Choices(suggestions);
      if 0 <= focusIndex < |choices| {
        chosen := Some(choices[focusIndex]);
        ClearSuggestions();
      } else {
        chosen := None;
      }
    }

    /**
     * The keyboard listener's `handleKeyDown`. The listener is mounted while
     * the overlay shows (the selection is collapsed and nothing is loading)
     * and there is at least one suggestion. Escape clears, Down and Up move
     * the focus, Return and Tab hand on the focused entry; other keys pass
     * through. A focus outside the list makes the destructuring throw before
     * the event is consumed. Returns the entry handed on and whether the
     * event was consumed.
     */
    method HandleKeyDown(key: Key, shown: bool) returns (chosen: Option<Choice>, consumed: bool)
      modifies this
      ensures var count := CountSuggestions(old(suggestions));
              consumed <==> shown && count > 0 &&
                            (key.Escape? || key.Down? || key.Up? ||
                             ((key.Return? || key.Tab?) && 0 <= old(focusIndex) < count))
      ensures !consumed ==> chosen == None && suggestions == old(suggestions) && focusIndex == old(focusIndex)
      ensures consumed && key.Escape? ==> chosen == None && suggestions == [] && focusIndex == 0
      ensures consumed && (key.Down? || key.Up?) ==>
                && chosen == None && suggestions == old(suggestions)
                && focusIndex == ShiftedFocus(CountSuggestions(suggestions), old(focusIndex), if key.Down? then 1 else -1)
      ensures consumed && (key.Return? || key.Tab?) ==>
                chosen == Some(old(Choices(suggestions))[old(focusIndex)]) && suggestions == [] && focusIndex == 0
    {
      chosen, consumed := None, false;
      if !shown || CountSuggestions(suggestions) == 0 {
        return;
      }
      match key {
        case Escape =>
          ClearSuggestions();
          consumed := true;
        case Down =>
          ShiftFocus(1);
          consumed := true;
        case Up =>
          ShiftFocus(-1);
          consumed := true;
        case Return =>
          chosen := SelectFocused();
          consumed := chosen.Some?;
        case Tab =>
          chosen := SelectFocused();
          consumed := chosen.Some?;
        case OtherKey =>
      }
    }
  }
}
