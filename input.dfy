/**
 * The input flavour of the component: the query generation counter, the
 * suggestions map with its focus clamp, the query extraction over the
 * markup, the insertion with an optional trailing space, and the change,
 * select and key handlers that drive them.
 */
module Input {
  import opened Js
  import opened Types
  import opened Scanner
  import opened Transcoder
  import opened Reconciler
  import opened Query

  /** Where the query window starts: the end of the last mention of the markup up to the mapped caret. */
  function WindowStart(value: string, srcs: seq<Source>, positionInValue: int): nat
    requires ValidSources(srcs)
  {
    LastMentionEnd(Mentions(Substring(value, 0, positionInValue), srcs))
  }

  /** The same query for every child, each under its own index. */
  function EveryChild(n: nat, span: QuerySpan, plainTextValue: string): (r: seq<QueryInfo>)
    ensures |r| == n
    ensures forall k :: 0 <= k < n ==>
              r[k] == QueryInfo(k, span.query, span.querySequenceStart, span.querySequenceEnd, plainTextValue)
  {
    seq(n, k requires 0 <= k => QueryInfo(k, span.query, span.querySequenceStart, span.querySequenceEnd,
                                          plainTextValue))
  }

  /** One more child adds its own entry at the end. */
  lemma EveryChildGrows(n: nat, span: QuerySpan, plainTextValue: string)
    ensures EveryChild(n + 1, span, plainTextValue) == EveryChild(n, span, plainTextValue) + Entry(Some(span), n, plainTextValue)
  {
  }

  /**
   * The queries `updateMentionsQueries` issues: none when the caret maps
   * (NULL) into a mention of the markup; otherwise the window of the plain
   * text from the end of the last mention before the mapped caret up to the
   * caret is matched against the component's one trigger, and a match
   * queries every child.
   */
  function InputQueries(value: string, srcs: seq<Source>, trigger: string, allowSpaceInQuery: bool,
                        plainTextValue: string, caret: int): seq<QueryInfo>
    requires ValidSources(srcs)
  {
    match MappedIndex(value, srcs, caret, Null)
    case None => []
    case Some(positionInValue) =>
      match ExtractQuery(plainTextValue, WindowStart(value, srcs, positionInValue), caret, trigger, allowSpaceInQuery)
      case None => []
      case Some(span) => EveryChild(|srcs|, span, plainTextValue)
  }

  /** A caret strictly inside a mention of the markup starts no query. */
  lemma NoQueryInsideMention(value: string, srcs: seq<Source>, trigger: string, allowSpaceInQuery: bool,
                             plainTextValue: string, caret: int, i: nat)
    requires ValidSources(srcs) && i < |Scan(value, srcs, false)|
    requires StrictlyInside(Scan(value, srcs, false)[i], caret)
    ensures InputQueries(value, srcs, trigger, allowSpaceInQuery, plainTextValue, caret) == []
  {
    MappedIndexNullIffInside(value, srcs, caret);
  }

  /**
   * Either nothing is queried or every child is, each with the same span:
   * the trigger and the query, found in the window and before the caret.
   */
  lemma InputQueriesShared(value: string, srcs: seq<Source>, trigger: string, allowSpaceInQuery: bool,
                           plainTextValue: string, caret: int)
    requires ValidSources(srcs)
    ensures var r := InputQueries(value, srcs, trigger, allowSpaceInQuery, plainTextValue, caret);
            && (r == [] || |r| == |srcs|)
            && forall k :: 0 <= k < |r| ==>
                 && r[k].childIndex == k && r[k].plainTextValue == plainTextValue
                 && r[k].query == r[0].query && r[k].querySequenceStart == r[0].querySequenceStart
                 && r[k].querySequenceEnd == r[0].querySequenceEnd
    ensures var r := InputQueries(value, srcs, trigger, allowSpaceInQuery, plainTextValue, caret);
            var position := MappedIndex(value, srcs, caret, Null);
            r != [] && position.Some? && 0 <= WindowStart(value, srcs, position.value) <= caret <= |plainTextValue|
            ==> && WindowStart(value, srcs, position.value) <= r[0].querySequenceStart
                && r[0].querySequenceStart <= r[0].querySequenceEnd <= caret
                && plainTextValue[r[0].querySequenceStart..r[0].querySequenceEnd] == trigger + r[0].query
                && QueryText(r[0].query, trigger, allowSpaceInQuery)
  {
    var position := MappedIndex(value, srcs, caret, Null);
    if position.Some? {
      var windowStart := WindowStart(value, srcs, position.value);
      if 0 <= windowStart <= caret <= |plainTextValue|
         && ExtractQuery(plainTextValue, windowStart, caret, trigger, allowSpaceInQuery).Some? {
        ExtractQueryPlacesTrigger(plainTextValue, windowStart, caret, trigger, allowSpaceInQuery);
      }
    }
  }

  /** Every stored entry answers a query of one of the n children. */
  predicate EntriesFit(m: SuggestionsMap, n: nat)
  {
    forall k :: 0 <= k < |m| && m[k].Some? ==> m[k].value.queryInfo.childIndex < n
  }

  /** What `addMention` reports: the change for `onChange` and the markup span for `onAdd`. */
  datatype Added = Added(change: Change, start: int, end: int)

  /** The component's state: the query generation, suggestions, focus and selection. */
  class MentionsInput {
    var queryId: int
    var suggestions: SuggestionsMap
    var focusIndex: int
    var selectionStart: Option<int>
    var selectionEnd: Option<int>
    var selectionAfterMentionChange: bool

    /** The focus is never negative, and lies in the list whenever there is one. */
    predicate Valid()
      reads this
    {
      0 <= focusIndex && (CountSuggestions(suggestions) > 0 ==> focusIndex < CountSuggestions(suggestions))
    }

    constructor ()
      ensures Valid()
      ensures queryId == 0 && suggestions == [] && focusIndex == 0
      ensures selectionStart == None && selectionEnd == None && !selectionAfterMentionChange
    {
      queryId := 0;
      suggestions := [];
      focusIndex := 0;
      selectionStart := None;
      selectionEnd := None;
      selectionAfterMentionChange := false;
    }

    /**
     * `updateSuggestions`: results of an earlier generation are dropped;
     * current ones are stored under their child's index, leaving the other
     * entries, and a focus past the new count is clamped to its last entry.
     */
    method UpdateSuggestions(currentQuery: int, childIndex: nat, query: string, querySequenceStart: int,
                             querySequenceEnd: int, plainTextValue: string, results: seq<Suggestion>)
      modifies this
      ensures currentQuery != old(queryId) ==> unchanged(this)
      ensures currentQuery == old(queryId) ==>
                && suggestions == Store(old(suggestions), childIndex,
                                        Suggestions(QueryInfo(childIndex, query, querySequenceStart,
                                                              querySequenceEnd, plainTextValue), results))
                && focusIndex == ClampedFocus(old(focusIndex), CountSuggestions(suggestions))
      ensures queryId == old(queryId) && selectionStart == old(selectionStart) && selectionEnd == old(selectionEnd)
      ensures selectionAfterMentionChange == old(selectionAfterMentionChange)
      ensures old(Valid()) ==> Valid()
    {
      if currentQuery != queryId {
        return;
      }
      var newSuggestions := Store(suggestions, childIndex,
                                  Suggestions(QueryInfo(childIndex, query, querySequenceStart, querySequenceEnd,
                                                        plainTextValue), results));
      var suggestionsCount: int := CountSuggestions(newSuggestions);
      suggestions := newSuggestions;
      if 0 <= focusIndex {
        ClampedFocusInRange(focusIndex, suggestionsCount);
      }
      if focusIndex >= suggestionsCount {
        focusIndex := Max(suggestionsCount - 1, 0);
      }
    }

    /**
     * `queryData` once the provider has answered: a synchronous array is
     * passed on under the current generation; a promise passes nothing.
     */
    method QueryData(query: string, childIndex: nat, querySequenceStart: int, querySequenceEnd: int,
                     plainTextValue: string, syncResult: ProviderResult)
      modifies this
      ensures syncResult.Async? ==> unchanged(this)
      ensures syncResult.Sync? ==>
                && suggestions == Store(old(suggestions), childIndex,
                                        Suggestions(QueryInfo(childIndex, query, querySequenceStart,
                                                              querySequenceEnd, plainTextValue), syncResult.results))
                && focusIndex == ClampedFocus(old(focusIndex), CountSuggestions(suggestions))
      ensures queryId == old(queryId) && selectionStart == old(selectionStart) && selectionEnd == old(selectionEnd)
      ensures selectionAfterMentionChange == old(selectionAfterMentionChange)
      ensures old(Valid()) ==> Valid()
    {
      if syncResult.Sync? {
        UpdateSuggestions(queryId, childIndex, query, querySequenceStart, querySequenceEnd, plainTextValue,
                          syncResult.results);
      }
    }

    /**
     * `updateMentionsQueries`: a new generation starts and the map is
     * emptied; then, unless the caret maps into a mention, every child is
     * queried with the window's match of the one trigger. The queries are
     * returned; the providers answer with promises, so the map stays empty.
     */
    method UpdateMentionsQueries(value: string, srcs: seq<Source>, trigger: string, allowSpaceInQuery: bool,
                                 ignoreAccents: bool, ops: TextOps, plainTextValue: string, caretPosition: int)
      returns (queries: seq<QueryInfo>)
      requires ValidSources(srcs)
      modifies this
      ensures queries == InputQueries(value, srcs, trigger, allowSpaceInQuery, plainTextValue, caretPosition)
      ensures queryId == old(queryId) + 1 && suggestions == [] && focusIndex == old(focusIndex)
      ensures selectionStart == old(selectionStart) && selectionEnd == old(selectionEnd)
      ensures selectionAfterMentionChange == old(selectionAfterMentionChange)
      ensures old(Valid()) ==> Valid()
    {
      queryId := queryId + 1;
      suggestions := [];
      queries := [];
      var positionInValue := MapPlainTextIndex(value, srcs, caretPosition, Null);
      if positionInValue.None? {
        return;
      }
      var substringStartIndex := GetEndOfLastMention(Substring(value, 0, positionInValue.value), srcs);
      queries := AskChildren(srcs, trigger, allowSpaceInQuery, ignoreAccents, ops, plainTextValue,
                             substringStartIndex, caretPosition);
    }

    /** The loop over the children: each matches the window against the component's trigger. */
    method AskChildren(srcs: seq<Source>, trigger: string, allowSpaceInQuery: bool, ignoreAccents: bool,
                       ops: TextOps, plainTextValue: string, substringStartIndex: int, caretPosition: int)
      returns (queries: seq<QueryInfo>)
      modifies this
      ensures var found := ExtractQuery(plainTextValue, substringStartIndex, caretPosition, trigger,
                                        allowSpaceInQuery);
              queries == if found.None? then [] else EveryChild(|srcs|, found.value, plainTextValue)
      ensures unchanged(this)
    {
      queries := [];
      ghost var found := ExtractQuery(plainTextValue, substringStartIndex, caretPosition, trigger,
                                      allowSpaceInQuery);
      for childIndex := 0 to |srcs|
        invariant unchanged(this)
        invariant queries == if found.None? then [] else EveryChild(childIndex, found.value, plainTextValue)
      {
        var asked := AskChild(srcs[childIndex], childIndex, trigger, allowSpaceInQuery, ignoreAccents, ops,
                              plainTextValue, substringStartIndex, caretPosition);
        assert asked == Entry(found, childIndex, plainTextValue);
        if found.Some? {
          EveryChildGrows(childIndex, found.value, plainTextValue);
        }
        queries := queries + asked;
      }
    }

    /** One child's round: the window is matched and, on a match, the child's provider is asked. */
    method AskChild(child: Source, childIndex: nat, trigger: string, allowSpaceInQuery: bool, ignoreAccents: bool,
                    ops: TextOps, plainTextValue: string, substringStartIndex: int, caretPosition: int)
      returns (asked: seq<QueryInfo>)
      modifies this
      ensures asked == Entry(ExtractQuery(plainTextValue, substringStartIndex, caretPosition, trigger,
                                          allowSpaceInQuery), childIndex, plainTextValue)
      ensures unchanged(this)
    {
      var span := ExtractQuery(plainTextValue, substringStartIndex, caretPosition, trigger, allowSpaceInQuery);
      asked := [];
      if span.Some? {
        asked := [QueryInfo(childIndex, span.value.query, span.value.querySequenceStart,
                            span.value.querySequenceEnd, plainTextValue)];
        var syncResult := ProvideData(child.data, ignoreAccents, ops, span.value.query);
        QueryData(span.value.query, childIndex, span.value.querySequenceStart, span.value.querySequenceEnd,
                  plainTextValue, syncResult);
      }
    }

    /** `clearSuggestions`: a new generation, an empty map, focus on the first entry. */
    method ClearSuggestions()
      modifies this
      ensures queryId == old(queryId) + 1 && suggestions == [] && focusIndex == 0
      ensures selectionStart == old(selectionStart) && selectionEnd == old(selectionEnd)
      ensures selectionAfterMentionChange == old(selectionAfterMentionChange)
      ensures Valid()
    {
      queryId := queryId + 1;
      suggestions := [];
      focusIndex := 0;
    }

    /** `shiftFocus`, called only while there are suggestions: the focus wraps around the list. */
    method ShiftFocus(delta: int)
      requires Valid() && CountSuggestions(suggestions) > 0 && (delta == 1 || delta == -1)
      modifies this
      ensures suggestions == old(suggestions) && queryId == old(queryId)
      ensures focusIndex == ShiftedFocus(CountSuggestions(suggestions), old(focusIndex), delta)
      ensures selectionStart == old(selectionStart) && selectionEnd == old(selectionEnd)
      ensures selectionAfterMentionChange == old(selectionAfterMentionChange)
      ensures Valid()
    {
      var suggestionsCount := CountSuggestions(suggestions);
      focusIndex := ShiftedFocus(suggestionsCount, focusIndex, delta);
    }

    /**
     * `addMention`: as in the text field, but the child's `appendSpaceOnAdd`
     * adds a space after both the markup and the display, the selection is
     * marked as moved by a mention change, and the suggestions are cleared.
     * Nothing happens when the query's start does not map to a number.
     */
    method AddMention(value: string, srcs: seq<Source>, suggestion: Suggestion, info: QueryInfo)
      returns (added: Option<Added>)
      requires ValidSources(srcs) && info.childIndex < |srcs|
      modifies this
      ensures var inserted := InsertMention(value, srcs, srcs[info.childIndex], suggestion, info,
                                            srcs[info.childIndex].appendSpaceOnAdd);
              match inserted
              case None => added == None && unchanged(this)
              case Some(ins) =>
                && added == Some(Added(Change(ins.newValue, ins.newPlainTextValue, Mentions(ins.newValue, srcs)),
                                       ins.start, ins.end))
                && selectionStart == Some(ins.caret) && selectionEnd == Some(ins.caret)
                && selectionAfterMentionChange
                && queryId == old(queryId) + 1 && suggestions == [] && focusIndex == 0
      ensures old(Valid()) ==> Valid()
    {
      var mentionsChild := srcs[info.childIndex];
      var inserted := ComputeInsertion(value, srcs, mentionsChild, suggestion, info, mentionsChild.appendSpaceOnAdd);
      if inserted.None? {
        return None;
      }
      var ins := inserted.value;
      selectionStart := Some(ins.caret);
      selectionEnd := Some(ins.caret);
      selectionAfterMentionChange := true;
      var mentions := GetMentions(ins.newValue, srcs);
      added := Some(Added(Change(ins.newValue, ins.newPlainTextValue, mentions), ins.start, ins.end));
      ClearSuggestions();
    }

    /**
     * Whether inserting the focused entry throws: its child has no
     * `displayTransform` and its query's start maps to a number.
     */
    /**
     * The state an insertion leaves: the change reported to `onChange`
     * carries the new value, its plain text and its mentions, and the caret
     * is stored after the inserted mention.
     */
    predicate Inserted(ins: Insertion, srcs: seq<Source>, added: Option<Added>)
      reads this
      requires ValidSources(srcs)
    {
      && added == Some(Added(Change(ins.newValue, ins.newPlainTextValue, Mentions(ins.newValue, srcs)), ins.start, ins.end))
      && selectionStart == Some(ins.caret) && selectionEnd == Some(ins.caret)
      && selectionAfterMentionChange
    }

    /** What inserting the focused entry of the flattened results computes. */
    function FocusedInsertion(value: string, srcs: seq<Source>): Option<Insertion>
      reads this
      requires ValidSources(srcs) && Valid() && CountSuggestions(suggestions) > 0
      requires EntriesFit(suggestions, |srcs|)
    {
      var choice := Choices(suggestions)[focusIndex];
      assert choice in Choices(suggestions);
      InsertMention(value, srcs, srcs[choice.queryInfo.childIndex], choice.result, choice.queryInfo,
                    srcs[choice.queryInfo.childIndex].appendSpaceOnAdd)
    }

    predicate FocusedInsertionThrows(value: string, srcs: seq<Source>)
      reads this
      requires ValidSources(srcs) && Valid() && CountSuggestions(suggestions) > 0
      requires EntriesFit(suggestions, |srcs|)
    {
      var choice := Choices(suggestions)[focusIndex];
      assert choice in Choices(suggestions);
      InsertionThrows(value, srcs, srcs[choice.queryInfo.childIndex], choice.queryInfo)
    }

    /**
     * `selectFocused`, reached only while there are suggestions: the
     * focused entry of the flattened results is inserted, and the focus
     * returns to the first entry. When the insertion throws, the exception
     * leaves before the focus is reset: `threw` reports it and nothing
     * changes.
     */
    method SelectFocused(value: string, srcs: seq<Source>) returns (added: Option<Added>, threw: bool)
      requires ValidSources(srcs) && Valid() && CountSuggestions(suggestions) > 0
      requires EntriesFit(suggestions, |srcs|)
      modifies this
      ensures var inserted := old(FocusedInsertion(value, srcs));
              && (inserted.None? <==> added.None?)
              && (inserted.Some? ==> Inserted(inserted.value, srcs, added))
              && (inserted.Some? ==> suggestions == [] && queryId == old(queryId) + 1)
              && (inserted.None? ==> suggestions == old(suggestions) && queryId == old(queryId)
                                     && selectionStart == old(selectionStart) && selectionEnd == old(selectionEnd)
                                     && selectionAfterMentionChange == old(selectionAfterMentionChange))
      ensures threw == old(FocusedInsertionThrows(value, srcs))
      ensures threw ==> added == None && unchanged(this)
      ensures !threw ==> focusIndex == 0
      ensures Valid()
    {
      var flattened := Choices(suggestions);
      var choice := flattened[focusIndex];
      assert choice in flattened;
      threw := InsertionThrows(value, srcs, srcs[choice.queryInfo.childIndex], choice.queryInfo);
      added := AddMention(value, srcs, choice.result, choice.queryInfo);
      if threw {
        return;
      }
      focusIndex := 0;
    }

    /**
     * `handleKeyDown`: keys pass through while the overlay is hidden or
     * empty; otherwise Escape clears, Down and Up move the focus, Return and
     * Tab insert the focused entry, and other keys pass through. Returns the
     * insertion, if any, whether the key was intercepted, and whether it was
     * handed to the `onKeyDown` prop, which happens only while the overlay
     * is hidden or empty: a key the shown overlay does not handle goes
     * nowhere. An insertion that throws leaves before the key is
     * intercepted.
     */
    method HandleKeyDown(key: Key, overlayShown: bool, value: string, srcs: seq<Source>)
      returns (added: Option<Added>, intercepted: bool, forwarded: bool)
      requires ValidSources(srcs) && Valid() && EntriesFit(suggestions, |srcs|)
      modifies this
      ensures forwarded <==> CountSuggestions(old(suggestions)) == 0 || !overlayShown
      ensures intercepted
              <==> && CountSuggestions(old(suggestions)) > 0 && overlayShown && key != OtherKey
                   && !((key == Return || key == Tab) && old(FocusedInsertionThrows(value, srcs)))
      ensures !intercepted ==> unchanged(this) && added == None
      ensures intercepted && (key == Escape || key == Down || key == Up) ==>
                && added == None
                && selectionStart == old(selectionStart) && selectionEnd == old(selectionEnd)
                && selectionAfterMentionChange == old(selectionAfterMentionChange)
      ensures intercepted && key == Escape ==> suggestions == [] && focusIndex == 0 && queryId == old(queryId) + 1
      ensures intercepted && key == Down ==>
                suggestions == old(suggestions) && focusIndex == ShiftedFocus(CountSuggestions(suggestions), old(focusIndex), 1)
      ensures intercepted && key == Up ==>
                suggestions == old(suggestions) && focusIndex == ShiftedFocus(CountSuggestions(suggestions), old(focusIndex), -1)
      ensures intercepted && (key == Return || key == Tab) ==>
                && CountSuggestions(old(suggestions)) > 0
                && var inserted := old(FocusedInsertion(value, srcs));
                   && (inserted.None? <==> added.None?)
                   && (inserted.Some? ==> Inserted(inserted.value, srcs, added) && suggestions == []
                                          && queryId == old(queryId) + 1)
                   && (inserted.None? ==> suggestions == old(suggestions) && queryId == old(queryId))
                   && focusIndex == 0
      ensures Valid()
    {
      added := None;
      var threw := false;
      var suggestionsCount := CountSuggestions(suggestions);
      if suggestionsCount == 0 || !overlayShown {
        return None, false, true;
      }
      forwarded := false;
      match key {
        case Escape => ClearSuggestions();
        case Down => ShiftFocus(1);
        case Up => ShiftFocus(-1);
        case Return => added, threw := SelectFocused(value, srcs);
        case Tab => added, threw := SelectFocused(value, srcs);
        case OtherKey => return None, false, false;
      }
      intercepted := !threw;
    }

    /** The selection `handleChange` stores, with whether a mention moved it. */
    method StoreSelectionAfterChange(value: string, srcs: seq<Source>, eventSelectionStart: Option<int>,
                                     eventSelectionEnd: Option<int>, data: string)
      requires ValidSources(srcs)
      modifies this
      ensures var adjusted := SelectionAfterChange(value, srcs, old(selectionStart), eventSelectionStart,
                                                   eventSelectionEnd, data);
              && selectionStart == adjusted.0.start && selectionEnd == adjusted.0.end
              && selectionAfterMentionChange == adjusted.1
      ensures queryId == old(queryId) && suggestions == old(suggestions) && focusIndex == old(focusIndex)
    {
      var after, moved := AdjustSelection(value, srcs, selectionStart, eventSelectionStart, eventSelectionEnd,
                                          data);
      selectionStart := after.start;
      selectionEnd := after.end;
      selectionAfterMentionChange := moved;
    }

    /**
     * `handleChange`: as in the text field, and the flag telling whether the
     * selection was moved because of a mention is stored. During an IME
     * composition with the selection held before the change collapsed, the
     * queries are refreshed from the input's current text at that stored
     * start (0 when none).
     */
    method HandleChange(value: string, srcs: seq<Source>, trigger: string, allowSpaceInQuery: bool,
                        ignoreAccents: bool, ops: TextOps, eventValue: string, eventSelectionStart: Option<int>,
                        eventSelectionEnd: Option<int>, data: string, isComposing: bool, inputValue: string)
      returns (change: Change, queries: seq<QueryInfo>)
      requires ValidSources(srcs)
      modifies this
      ensures change.newValue
              == AppliedChange(value, eventValue, SelectionBefore(old(selectionStart), eventSelectionStart),
                               SelectionBefore(old(selectionEnd), eventSelectionEnd), OrZero(eventSelectionEnd),
                               srcs, false)
      ensures change.newPlainTextValue == PlainText(change.newValue, srcs, false)
      ensures change.mentions == Mentions(change.newValue, srcs)
      ensures var adjusted := SelectionAfterChange(value, srcs, old(selectionStart), eventSelectionStart,
                                                   eventSelectionEnd, data);
              && selectionStart == adjusted.0.start && selectionEnd == adjusted.0.end
              && selectionAfterMentionChange == adjusted.1
      ensures if isComposing && old(selectionStart) == old(selectionEnd) then
                && queries == InputQueries(value, srcs, trigger, allowSpaceInQuery, inputValue,
                                           OrZero(old(selectionStart)))
                && queryId == old(queryId) + 1 && suggestions == []
              else
                queries == [] && queryId == old(queryId) && suggestions == old(suggestions)
      ensures focusIndex == old(focusIndex)
      ensures old(Valid()) ==> Valid()
    {
      var renderedStart, renderedEnd := selectionStart, selectionEnd;
      var selectionStartBefore := SelectionBefore(selectionStart, eventSelectionStart);
      var selectionEndBefore := SelectionBefore(selectionEnd, eventSelectionEnd);
      change := ComputeChange(value, srcs, eventValue, selectionStartBefore, selectionEndBefore,
                              OrZero(eventSelectionEnd));
      StoreSelectionAfterChange(value, srcs, eventSelectionStart, eventSelectionEnd, data);
      queries := [];
      if isComposing && renderedStart == renderedEnd {
        queries := UpdateMentionsQueries(value, srcs, trigger, allowSpaceInQuery, ignoreAccents, ops, inputValue,
                                         OrZero(renderedStart));
      }
    }

    /**
     * `handleSelect`: the selection is stored. Its composition guard tests
     * the `isComposing` ref object itself, which is always truthy, so the
     * handler always returns there: queries are neither refreshed nor
     * cleared, and `onSelect` is not called.
     */
    method HandleSelect(eventSelectionStart: Option<int>, eventSelectionEnd: Option<int>)
      modifies this
      ensures selectionStart == eventSelectionStart && selectionEnd == eventSelectionEnd
      ensures queryId == old(queryId) && suggestions == old(suggestions) && focusIndex == old(focusIndex)
      ensures selectionAfterMentionChange == old(selectionAfterMentionChange)
    {
      selectionStart := eventSelectionStart;
      selectionEnd := eventSelectionEnd;
    }
  }
}
