/**
 * The text-field flavour of the component: the stored selection, the
 * insertion of a chosen suggestion, and the handling of an edit of the
 * plain text.
 */
module TextField {
  import opened Js
  import opened Types
  import opened Scanner
  import opened Transcoder
  import opened Reconciler
  import opened Query

  /** The component's state: the selection remembered between renders. */
  class MentionsTextField {
    var selectionStart: Option<int>
    var selectionEnd: Option<int>

    constructor ()
      ensures selectionStart == None && selectionEnd == None
    {
      selectionStart := None;
      selectionEnd := None;
    }

    /**
     * `addMention`: the query's start is mapped into the markup (START); if
     * it maps to a number, the mention's markup replaces a span of the
     * query's length there, the display replaces the query in the plain
     * text, and the caret is put after the display. No space is appended.
     * The change handed to `onChange` is returned; nothing happens when the
     * start does not map.
     */
    method AddMention(value: string, srcs: seq<Source>, suggestion: Suggestion, info: QueryInfo)
      returns (change: Option<Change>)
      requires ValidSources(srcs) && info.childIndex < |srcs|
      modifies this
      ensures var inserted := InsertMention(value, srcs, srcs[info.childIndex], suggestion, info, false);
              match inserted
              case None =>
                change == None && selectionStart == old(selectionStart) && selectionEnd == old(selectionEnd)
              case Some(ins) =>
                && change == Some(Change(ins.newValue, ins.newPlainTextValue, Mentions(ins.newValue, srcs)))
                && selectionStart == Some(ins.caret) && selectionEnd == Some(ins.caret)
    {
      var inserted := ComputeInsertion(value, srcs, srcs[info.childIndex], suggestion, info, false);
      if inserted.None? {
        return None;
      }
      var ins := inserted.value;
      selectionStart := Some(ins.caret);
      selectionEnd := Some(ins.caret);
      var mentions := GetMentions(ins.newValue, srcs);
      change := Some(Change(ins.newValue, ins.newPlainTextValue, mentions));
    }

    /**
     * `handleChange`: the edit of the plain text is carried into the markup
     * (with the stored selection, or the event's where none is stored), the
     * plain text is recomputed from the new markup, and the selection is
     * stored as the event reports it unless the stored start lay in a
     * mention whose start the event's end passed. `data` is the inserted
     * text of the native event ("" when it has none).
     */
    method HandleChange(value: string, srcs: seq<Source>, eventValue: string, eventSelectionStart: Option<int>,
                        eventSelectionEnd: Option<int>, data: string)
      returns (change: Change)
      requires ValidSources(srcs)
      modifies this
      ensures change.newValue
              == AppliedChange(value, eventValue, SelectionBefore(old(selectionStart), eventSelectionStart),
                               SelectionBefore(old(selectionEnd), eventSelectionEnd), OrZero(eventSelectionEnd),
                               srcs, false)
      ensures change.newPlainTextValue == PlainText(change.newValue, srcs, false)
      ensures change.mentions == Mentions(change.newValue, srcs)
      ensures var after := SelectionAfterChange(value, srcs, old(selectionStart), eventSelectionStart,
                                                eventSelectionEnd, data).0;
              selectionStart == after.start && selectionEnd == after.end
    {
      var selectionStartBefore := SelectionBefore(selectionStart, eventSelectionStart);
      var selectionEndBefore := SelectionBefore(selectionEnd, eventSelectionEnd);
      change := ComputeChange(value, srcs, eventValue, selectionStartBefore, selectionEndBefore,
                              OrZero(eventSelectionEnd));
      var after, moved := AdjustSelection(value, srcs, selectionStart, eventSelectionStart, eventSelectionEnd,
                                          data);
      selectionStart := after.start;
      selectionEnd := after.end;
    }
  }
}
