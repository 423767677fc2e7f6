/**
 * The configuration values and data records the mentions engine is built on:
 * the default trigger and markup template, the default display transform, a
 * suggestion, a configured mention source and the records derived from a scan.
 */
module Types {
  import opened Js

  /** The trigger that opens the suggestions overlay when a source names none. */
  const DefaultTrigger: string := "@"

  /** The markup template used when a source gives none. */
  const DefaultMarkupTemplate: string := "@[__display__](__id__)"

  /** U+00A0, which multi-line fields show instead of a space inside a mention. */
  const NoBreakSpace: char := '\U{00A0}'

  /** `s.replace(/ /g, ' ')`. */
  function ConvertSpaces(s: string): (r: string)
    ensures |r| == |s|
    ensures forall i :: 0 <= i < |s| ==> r[i] == (if s[i] == ' ' then NoBreakSpace else s[i])
  {
    if s == [] then [] else [if s[0] == ' ' then NoBreakSpace else s[0]] + ConvertSpaces(s[1..])
  }

  /**
   * The display string of a mention when its source gives no transform:
   * `display || id`, with spaces made non-breaking when `convertSpaces` is set.
   * An empty `display` stands for an absent one.
   */
  function DefaultDisplayTransform(id: string, display: string, convertSpaces: bool): string
  {
    if !convertSpaces then
      (if display != "" then display else id)
    else
      var d := ConvertSpaces(display);
      if d != "" then d else ConvertSpaces(id)
  }

  /** Without `convertSpaces` the result is the display when there is one, else the id. */
  lemma DefaultDisplayChoosesDisplayOrId(id: string, display: string)
    ensures DefaultDisplayTransform(id, display, false) == if display != "" then display else id
  {
  }

  /**
   * With `convertSpaces` the chosen string (display if non-empty, else id)
   * comes back with every ' ' turned into U+00A0, character for character, so
   * its length is kept.
   */
  lemma DefaultDisplayConvertsSpaces(id: string, display: string)
    ensures var chosen := if display != "" then display else id;
            var r := DefaultDisplayTransform(id, display, true);
            && |r| == |chosen|
            && (forall i :: 0 <= i < |chosen| ==>
                  r[i] == (if chosen[i] == ' ' then NoBreakSpace else chosen[i]))
  {
    var d := ConvertSpaces(display);
    assert display != "" ==> d != "" by {
      if display != "" { assert |d| == |display|; }
    }
  }

  /** A suggestion: an id and an optional display string ("" when absent). */
  datatype Suggestion = Suggestion(id: string, display: string)

  /** Where a source's suggestions come from: a static list or an asynchronous lookup. */
  datatype DataSpec =
    | StaticList(items: seq<Suggestion>)
    | AsyncLookup(lookup: string -> seq<Suggestion>)

  /**
   * One configured mention source. `markup == ""` stands for an absent template;
   * the transform is the caller's own `displayTransform`, if any.
   */
  datatype Source = Source(
    trigger: string,
    markup: string,
    data: DataSpec,
    allowSpaceInQuery: bool,
    ignoreAccents: bool,
    appendSpaceOnAdd: bool,
    displayTransform: Option<(string, string) -> string>)

  /** `ds.markup || DefaultMarkupTemplate`. */
  function EffectiveMarkup(markup: string): string
  {
    if markup != "" then markup else DefaultMarkupTemplate
  }

  /** The display string the scanner gives a mention of this source. */
  function SourceDisplay(src: Source, id: string, display: string, multiline: bool): string
  {
    match src.displayTransform
    case Some(f) => f(id, display)
    case None => DefaultDisplayTransform(id, display, multiline)
  }

  /** A mention found in a markup value (`MentionData`). */
  datatype MentionData = MentionData(
    id: string, display: string, dataSourceIndex: nat, index: nat, plainTextIndex: nat)

  /** Where a suggestion query sits in the plain text (`SuggestionsQueryInfo`). */
  datatype QueryInfo = QueryInfo(
    childIndex: nat, query: string, querySequenceStart: int, querySequenceEnd: int, plainTextValue: string)

  /** The results of one source's query (`Suggestions`). */
  datatype Suggestions = Suggestions(queryInfo: QueryInfo, results: seq<Suggestion>)

  /** A key the keyboard handlers distinguish. */
  datatype Key = Escape | Down | Up | Return | Tab | OtherKey
}
