/**
 * `applyChangeToValue` and `spliceString`: an edit the user made to the plain
 * text, described by the new plain text and the selection before and after
 * it, is carried over to the markup value as one splice, with a second pass
 * when the input method changed more than the selection shows.
 */
module Reconciler {
  import opened Js
  import opened Types
  import opened Scanner
  import opened Transcoder

  /** `spliceString`: both bounds are clamped into the string as `substring` does. */
  function SpliceString(str: string, start: int, end: int, insert: string): (r: string)
    ensures r == str[..Clamp(start, |str|)] + insert + str[Clamp(end, |str|)..]
    ensures 0 <= start <= end <= |str| ==>
              r == str[..start] + insert + str[end..] && |r| == |str| - (end - start) + |insert|
  {
    Substring(str, 0, start) + insert + SubstringFrom(str, end)
  }

  // ---- The edit in plain-text coordinates ----

  /** Where the plain text is spliced and what goes in. */
  datatype PlainSplice = PlainSplice(start: int, end: int, insert: string)

  /**
   * The normalised selection of `applyChangeToValue`: a missing start is
   * inferred from the length change, a missing end collapses onto the start,
   * a collapsed unchanged-length edit (a composed character) reaches one
   * character back, and with nothing inserted after the start the end is
   * widened by the length change (the Delete key).
   */
  function NormalisedSplice(oldPlain: string, newPlain: string, selectionStartBefore: Option<int>,
                            selectionEndBefore: Option<int>, selectionEndAfter: int): PlainSplice
  {
    var lengthDelta := |oldPlain| - |newPlain|;
    var startBefore := if selectionStartBefore.None? then selectionEndAfter + lengthDelta else selectionStartBefore.value;
    var endBefore := if selectionEndBefore.None? then startBefore else selectionEndBefore.value;
    var composedStart :=
      if startBefore == endBefore && endBefore == selectionEndAfter && |oldPlain| == |newPlain| then startBefore - 1
      else startBefore;
    var insert := Slice(newPlain, composedStart, selectionEndAfter);
    var spliceStart := Min(composedStart, selectionEndAfter);
    var spliceEnd := if composedStart == selectionEndAfter then Max(endBefore, composedStart + lengthDelta) else endBefore;
    PlainSplice(spliceStart, spliceEnd, insert)
  }

  /** An edit of a string: `removed` characters at `at` replaced by `inserted`. */
  datatype Edit = Edit(at: nat, removed: nat, inserted: string)

  function Edited(before: string, e: Edit): string
    requires e.at + e.removed <= |before|
  {
    before[..e.at] + e.inserted + before[e.at + e.removed..]
  }

  /**
   * The selections a text field reports for an edit: a selection (possibly
   * collapsed) replaced by typed or pasted text, with or without the
   * selection before it; Backspace, after which the caret stands where the
   * removed characters began; Delete, after which it stays; and a composed
   * character replacing the one before the caret.
   */
  predicate ReportsEdit(before: string, e: Edit, selectionStartBefore: Option<int>, selectionEndBefore: Option<int>,
                        selectionEndAfter: int)
  {
    e.at + e.removed <= |before| &&
    ( || (selectionStartBefore == Some(e.at) && selectionEndBefore == Some(e.at + e.removed)
          && selectionEndAfter == e.at + |e.inserted|)
      || (e.removed == 0 && selectionStartBefore.None? && selectionEndBefore.None?
          && selectionEndAfter == e.at + |e.inserted|)
      || (e.inserted == "" && selectionEndAfter == e.at
          && (selectionStartBefore == Some(e.at + e.removed) || selectionStartBefore.None?)
          && (selectionEndBefore == Some(e.at + e.removed) || selectionEndBefore.None?))
      || (e.inserted == "" && selectionStartBefore == Some(e.at) && selectionEndBefore == Some(e.at)
          && selectionEndAfter == e.at)
      || (e.removed == 1 && |e.inserted| == 1 && selectionStartBefore == Some(e.at + 1)
          && selectionEndBefore == Some(e.at + 1) && selectionEndAfter == e.at + 1))
  }

  /** Splicing the old plain text at the normalised selection gives the new plain text, for every reported edit. */
  lemma NormalisedSpliceReproducesEdit(before: string, e: Edit, selectionStartBefore: Option<int>,
                                       selectionEndBefore: Option<int>, selectionEndAfter: int)
    requires ReportsEdit(before, e, selectionStartBefore, selectionEndBefore, selectionEndAfter)
    ensures var sp := NormalisedSplice(before, Edited(before, e), selectionStartBefore, selectionEndBefore, selectionEndAfter);
            SpliceString(before, sp.start, sp.end, sp.insert) == Edited(before, e)
  {
    var edited := Edited(before, e);
    var sp := NormalisedSplice(before, edited, selectionStartBefore, selectionEndBefore, selectionEndAfter);
    if e.removed == 0 && e.inserted == "" {
      UnchangedEditSplice(before, e, selectionStartBefore, selectionEndBefore, selectionEndAfter);
    } else {
      if e.removed == 1 && |e.inserted| == 1 && selectionStartBefore == Some(e.at + 1) {
        assert edited[e.at..e.at + 1] == e.inserted;
      } else if e.inserted == "" && selectionEndAfter == e.at {
      } else {
        assert edited[e.at..e.at + |e.inserted|] == e.inserted;
      }
      assert sp == PlainSplice(e.at, e.at + e.removed, e.inserted);
      SpliceAtEdit(before, e);
    }
  }

  /** Splicing at an edit's own span gives the edited string. */
  lemma SpliceAtEdit(before: string, e: Edit)
    requires e.at + e.removed <= |before|
    ensures SpliceString(before, e.at, e.at + e.removed, e.inserted) == Edited(before, e)
  {
  }

  /**
   * An edit that changes nothing: the composed-character rule re-inserts the
   * character before the caret over itself, which gives the same string.
   */
  lemma UnchangedEditSplice(before: string, e: Edit, selectionStartBefore: Option<int>,
                            selectionEndBefore: Option<int>, selectionEndAfter: int)
    requires ReportsEdit(before, e, selectionStartBefore, selectionEndBefore, selectionEndAfter)
    requires e.removed == 0 && e.inserted == ""
    ensures var sp := NormalisedSplice(before, Edited(before, e), selectionStartBefore, selectionEndBefore, selectionEndAfter);
            SpliceString(before, sp.start, sp.end, sp.insert) == Edited(before, e)
  {
    var sp := NormalisedSplice(before, Edited(before, e), selectionStartBefore, selectionEndBefore, selectionEndAfter);
    assert Edited(before, e) == before;
    if e.at > 0 {
      assert sp == PlainSplice(e.at - 1, e.at, before[e.at - 1..e.at]);
      assert before[..e.at - 1] + before[e.at - 1..e.at] == before[..e.at];
    } else {
      assert sp.insert == "" && sp.end == 0;
    }
    assert before == before[..e.at] + before[e.at..];
  }

  // ---- The second pass ----

  /** `s[i]`: undefined (None) past the end. */
  function CharAt(s: string, i: nat): Option<char>
  {
    if i < |s| then Some(s[i]) else None
  }

  /** The first index at or after i where a and b differ (counting the end of the shorter one). */
  function FirstDifferenceFrom(a: string, b: string, i: nat): (r: nat)
    requires a != b && i <= |a| && i <= |b| && a[..i] == b[..i]
    decreases |a| - i
    ensures i <= r <= |a| && r <= |b| && a[..r] == b[..r]
    ensures CharAt(a, r) != CharAt(b, r)
  {
    if i < |a| && i < |b| && a[i] == b[i] then
      assert a[..i + 1] == a[..i] + [a[i]] && b[..i + 1] == b[..i] + [b[i]];
      FirstDifferenceFrom(a, b, i + 1)
    else
      i
  }

  /** The first index where two different strings disagree. */
  function FirstDifference(a: string, b: string): (r: nat)
    requires a != b
    ensures r <= |a| && r <= |b| && a[..r] == b[..r]
    ensures CharAt(a, r) != CharAt(b, r)
  {
    FirstDifferenceFrom(a, b, 0)
  }

  // ---- applyChangeToValue ----

  /** The markup value spliced between the markup indices of two plain-text indices (START and END). */
  function SplicedValue(value: string, srcs: seq<Source>, start: int, end: int, insert: string): string
    requires ValidSources(srcs)
  {
    SpliceString(value, OrZero(MappedIndex(value, srcs, start, Start)), OrZero(MappedIndex(value, srcs, end, End)), insert)
  }

  /** A bound of the splice lies strictly inside a mention: its NULL mapping is null. */
  predicate TouchesMention(value: string, srcs: seq<Source>, sp: PlainSplice)
    requires ValidSources(srcs)
  {
    MappedIndex(value, srcs, sp.start, Null).None? || MappedIndex(value, srcs, sp.end, Null).None?
  }

  /**
   * The second pass: from the first index where the new plain text and the
   * plain text of the first result differ, to the last occurrence in the old
   * plain text of what follows the caret.
   */
  function CorrectedSplice(oldPlain: string, newPlain: string, controlPlain: string, selectionEndAfter: int): PlainSplice
    requires newPlain != controlPlain
  {
    var spliceStart := FirstDifference(newPlain, controlPlain);
    PlainSplice(spliceStart, LastIndexOf(oldPlain, SubstringFrom(newPlain, selectionEndAfter)),
                Slice(newPlain, spliceStart, selectionEndAfter))
  }

  /** The markup value `applyChangeToValue` produces. */
  function AppliedChange(value: string, plainTextValue: string, selectionStartBefore: Option<int>,
                         selectionEndBefore: Option<int>, selectionEndAfter: int, srcs: seq<Source>,
                         multiline: bool): string
    requires ValidSources(srcs)
  {
    var oldPlainTextValue := PlainText(value, srcs, multiline);
    var sp := NormalisedSplice(oldPlainTextValue, plainTextValue, selectionStartBefore, selectionEndBefore,
                               selectionEndAfter);
    var newValue := SplicedValue(value, srcs, sp.start, sp.end, sp.insert);
    if TouchesMention(value, srcs, sp) then newValue
    else
      var controlPlainTextValue := PlainText(newValue, srcs, multiline);
      if controlPlainTextValue == plainTextValue then newValue
      else
        var c := CorrectedSplice(oldPlainTextValue, plainTextValue, controlPlainTextValue, selectionEndAfter);
        SplicedValue(value, srcs, c.start, c.end, c.insert)
  }

  /** The scan for the start of the difference: the first index where the two strings disagree. */
  method FindDifference(plainTextValue: string, controlPlainTextValue: string) returns (spliceStart: nat)
    requires plainTextValue != controlPlainTextValue
    ensures spliceStart == FirstDifference(plainTextValue, controlPlainTextValue)
  {
    spliceStart := 0;
    while CharAt(plainTextValue, spliceStart) == CharAt(controlPlainTextValue, spliceStart)
      invariant spliceStart <= |plainTextValue| && spliceStart <= |controlPlainTextValue|
      invariant plainTextValue[..spliceStart] == controlPlainTextValue[..spliceStart]
      decreases |plainTextValue| - spliceStart
    {
      assert plainTextValue[..spliceStart + 1] == plainTextValue[..spliceStart] + [plainTextValue[spliceStart]];
      assert controlPlainTextValue[..spliceStart + 1]
             == controlPlainTextValue[..spliceStart] + [controlPlainTextValue[spliceStart]];
      spliceStart := spliceStart + 1;
    }
    FirstDifferenceIsUnique(plainTextValue, controlPlainTextValue, spliceStart);
  }

  /** Any index up to which two strings agree and at which they differ is their first difference. */
  lemma FirstDifferenceIsUnique(a: string, b: string, k: nat)
    requires a != b && k <= |a| && k <= |b| && a[..k] == b[..k] && CharAt(a, k) != CharAt(b, k)
    ensures k == FirstDifference(a, b)
  {
  }

  /** Maps both plain-text bounds to the markup (START, END) and splices the value there. */
  method SpliceAtMapped(value: string, srcs: seq<Source>, start: int, end: int, insert: string) returns (r: string)
    requires ValidSources(srcs)
    ensures r == SplicedValue(value, srcs, start, end, insert)
  {
    var mappedSpliceStart := MapPlainTextIndex(value, srcs, start, Start);
    var mappedSpliceEnd := MapPlainTextIndex(value, srcs, end, End);
    r := SpliceString(value, OrZero(mappedSpliceStart), OrZero(mappedSpliceEnd), insert);
  }

  /** `applyChangeToValue`. */
  method ApplyChangeToValue(value: string, plainTextValue: string, selectionStartBefore: Option<int>,
                            selectionEndBefore: Option<int>, selectionEndAfter: int, srcs: seq<Source>,
                            multiline: bool)
    returns (newValue: string)
    requires ValidSources(srcs)
    ensures newValue == AppliedChange(value, plainTextValue, selectionStartBefore, selectionEndBefore,
                                      selectionEndAfter, srcs, multiline)
  {
    var oldPlainTextValue := GetPlainText(value, srcs, multiline);
    var sp := NormalisedSplice(oldPlainTextValue, plainTextValue, selectionStartBefore, selectionEndBefore,
                               selectionEndAfter);
    newValue := SpliceAtMapped(value, srcs, sp.start, sp.end, sp.insert);
    var controlSpliceStart := MapPlainTextIndex(value, srcs, sp.start, Null);
    var controlSpliceEnd := MapPlainTextIndex(value, srcs, sp.end, Null);
    var willRemoveMention := controlSpliceStart.None? || controlSpliceEnd.None?;
    if !willRemoveMention {
      var controlPlainTextValue := GetPlainText(newValue, srcs, multiline);
      if controlPlainTextValue != plainTextValue {
        var spliceStart := FindDifference(plainTextValue, controlPlainTextValue);
        var insert := Slice(plainTextValue, spliceStart, selectionEndAfter);
        var spliceEnd := LastIndexOf(oldPlainTextValue, SubstringFrom(plainTextValue, selectionEndAfter));
        newValue := SpliceAtMapped(value, srcs, spliceStart, spliceEnd, insert);
      }
    }
  }

  // ---- What the reconciliation guarantees ----

  /**
   * A splice that starts strictly inside a mention takes the mention's whole
   * markup: the value is kept only up to the mention's first character.
   */
  lemma SpliceFromInsideMention(value: string, srcs: seq<Source>, start: int, end: int, insert: string, i: nat)
    requires ValidSources(srcs)
    requires i < |Scan(value, srcs, false)| && StrictlyInside(Scan(value, srcs, false)[i], start)
    ensures MappedIndex(value, srcs, start, Null).None?
    ensures var m := Scan(value, srcs, false)[i];
            && m.start <= |value|
            && SplicedValue(value, srcs, start, end, insert)
               == value[..m.start] + insert + SubstringFrom(value, OrZero(MappedIndex(value, srcs, end, End)))
  {
    var segs := Scan(value, srcs, false);
    ScanTiles(value, srcs, false);
    MapInsideMention(segs, 0, 0, |value|, i, start, Start);
    MapInsideMention(segs, 0, 0, |value|, i, start, Null);
    TilingPlacesRaw(segs, value, 0, 0, i);
  }

  /**
   * A splice that ends strictly inside a mention takes the mention's whole
   * markup: the value resumes after the mention's last character.
   */
  lemma SpliceIntoMention(value: string, srcs: seq<Source>, start: int, end: int, insert: string, i: nat)
    requires ValidSources(srcs)
    requires i < |Scan(value, srcs, false)| && StrictlyInside(Scan(value, srcs, false)[i], end)
    ensures MappedIndex(value, srcs, end, Null).None?
    ensures var m := Scan(value, srcs, false)[i];
            && m.start + |m.markup| <= |value|
            && SplicedValue(value, srcs, start, end, insert)
               == Substring(value, 0, OrZero(MappedIndex(value, srcs, start, Start))) + insert + value[m.start + |m.markup|..]
  {
    var segs := Scan(value, srcs, false);
    ScanTiles(value, srcs, false);
    MapInsideMention(segs, 0, 0, |value|, i, end, End);
    MapInsideMention(segs, 0, 0, |value|, i, end, Null);
    TilingPlacesRaw(segs, value, 0, 0, i);
  }

  /**
   * r is value with value[a..b] replaced by insertLength characters, and the
   * markup of every mention whose display starts before plain-text index
   * start is still at its own index in r, while the markup of every mention
   * whose display starts at or after end has moved by the change in length.
   */
  ghost predicate MentionsKept(segs: seq<Segment>, start: int, end: int, r: string, a: nat, b: nat, insertLength: nat) {
    forall i :: 0 <= i < |segs| && segs[i].Mention? ==>
      && (segs[i].plainStart < start ==>
            segs[i].start + |segs[i].markup| <= a <= |r| && r[segs[i].start..segs[i].start + |segs[i].markup|] == segs[i].markup)
      && (end <= segs[i].plainStart ==>
            && b <= segs[i].start
            && var k := a + insertLength + (segs[i].start - b);
               k + |segs[i].markup| <= |r| && r[k..k + |segs[i].markup|] == segs[i].markup)
  }

  /** Cutting a tiled value at markup indices that separate the mentions keeps the mentions outside the cut. */
  lemma SpliceKeepsMentions(segs: seq<Segment>, value: string, start: int, end: int, x: int, y: int, insert: string)
    requires Tiling(segs, value, 0, 0) && x <= |value| && y <= |value|
    requires SplitsMentions(segs, start, x) && SplitsMentions(segs, end, y)
    ensures var a, b := Clamp(x, |value|), Clamp(y, |value|);
            MentionsKept(segs, start, end, value[..a] + insert + value[b..], a, b, |insert|)
  {
    var a, b := Clamp(x, |value|), Clamp(y, |value|);
    var r := value[..a] + insert + value[b..];
    forall i | 0 <= i < |segs| && segs[i].Mention?
      ensures segs[i].plainStart < start ==>
                segs[i].start + |segs[i].markup| <= a <= |r| && r[segs[i].start..segs[i].start + |segs[i].markup|] == segs[i].markup
      ensures end <= segs[i].plainStart ==>
                && b <= segs[i].start
                && var k := a + |insert| + (segs[i].start - b);
                   k + |segs[i].markup| <= |r| && r[k..k + |segs[i].markup|] == segs[i].markup
    {
      MentionKeptAt(segs, value, start, end, x, y, insert, i);
    }
  }

  /** One mention outside the cut keeps its markup. */
  lemma MentionKeptAt(segs: seq<Segment>, value: string, start: int, end: int, x: int, y: int, insert: string, i: nat)
    requires Tiling(segs, value, 0, 0) && x <= |value| && y <= |value| && i < |segs| && segs[i].Mention?
    requires SplitsMentions(segs, start, x) && SplitsMentions(segs, end, y)
    ensures var a, b := Clamp(x, |value|), Clamp(y, |value|);
            var r := value[..a] + insert + value[b..];
            && (segs[i].plainStart < start ==>
                  segs[i].start + |segs[i].markup| <= a <= |r| && r[segs[i].start..segs[i].start + |segs[i].markup|] == segs[i].markup)
            && (end <= segs[i].plainStart ==>
                  && b <= segs[i].start
                  && var k := a + |insert| + (segs[i].start - b);
                     k + |segs[i].markup| <= |r| && r[k..k + |segs[i].markup|] == segs[i].markup)
  {
    TilingPlacesRaw(segs, value, 0, 0, i);
    MarkupKept(value, insert, Clamp(x, |value|), Clamp(y, |value|), segs[i].start, segs[i].markup);
  }

  /**
   * A splice neither of whose bounds lies strictly inside a mention cuts the
   * value at the bounds' markup indices, on which START, END and NULL agree,
   * and keeps every mention outside the splice (MentionsKept).
   */
  lemma SpliceBetweenMentions(value: string, srcs: seq<Source>, sp: PlainSplice)
    requires ValidSources(srcs) && !TouchesMention(value, srcs, sp)
    ensures var a := Clamp(MappedIndex(value, srcs, sp.start, Null).value, |value|);
            var b := Clamp(MappedIndex(value, srcs, sp.end, Null).value, |value|);
            var r := SplicedValue(value, srcs, sp.start, sp.end, sp.insert);
            && r == value[..a] + sp.insert + value[b..]
            && MentionsKept(Scan(value, srcs, false), sp.start, sp.end, r, a, b, |sp.insert|)
  {
    var segs := Scan(value, srcs, false);
    ScanTiles(value, srcs, false);
    MappedIndexNullIffInside(value, srcs, sp.start);
    MappedIndexNullIffInside(value, srcs, sp.end);
    MapOutsideMentions(segs, 0, 0, |value|, sp.start, Start);
    MapOutsideMentions(segs, 0, 0, |value|, sp.end, End);
    var x, y := MappedIndex(value, srcs, sp.start, Null).value, MappedIndex(value, srcs, sp.end, Null).value;
    SpliceKeepsMentions(segs, value, sp.start, sp.end, x, y, sp.insert);
  }

  /** Text that lies in the kept prefix or the kept suffix of a splice is found again in the result. */
  lemma MarkupKept(value: string, insert: string, a: nat, b: nat, at: nat, markup: string)
    requires a <= |value| && b <= |value| && at + |markup| <= |value| && value[at..at + |markup|] == markup
    ensures var r := value[..a] + insert + value[b..];
            && (at + |markup| <= a ==> r[at..at + |markup|] == markup)
            && (b <= at ==> var k := a + |insert| + (at - b);
                            k + |markup| <= |r| && r[k..k + |markup|] == markup)
  {
    var r := value[..a] + insert + value[b..];
    if at + |markup| <= a {
      assert r[at..at + |markup|] == value[..a][at..at + |markup|];
    }
    if b <= at {
      var pre, post := value[..a] + insert, value[b..];
      var k := |pre| + (at - b);
      assert r == pre + post;
      assert r[k..k + |markup|] == post[at - b..at - b + |markup|];
      assert post[at - b..at - b + |markup|] == value[at..at + |markup|];
    }
  }

  /**
   * An edit whose normalised splice starts or ends strictly inside a mention
   * takes that mention's whole markup with it, and no second pass follows:
   * from inside, the value is cut at the mention's first character; into
   * it, the value resumes after the mention's last character.
   */
  lemma EditTouchingMention(value: string, plainTextValue: string, selectionStartBefore: Option<int>,
                            selectionEndBefore: Option<int>, selectionEndAfter: int, srcs: seq<Source>,
                            multiline: bool, i: nat)
    requires ValidSources(srcs) && i < |Scan(value, srcs, false)|
    requires var sp := NormalisedSplice(PlainText(value, srcs, multiline), plainTextValue, selectionStartBefore,
                                        selectionEndBefore, selectionEndAfter);
             StrictlyInside(Scan(value, srcs, false)[i], sp.start) || StrictlyInside(Scan(value, srcs, false)[i], sp.end)
    ensures var sp := NormalisedSplice(PlainText(value, srcs, multiline), plainTextValue, selectionStartBefore,
                                       selectionEndBefore, selectionEndAfter);
            var m := Scan(value, srcs, false)[i];
            var r := AppliedChange(value, plainTextValue, selectionStartBefore, selectionEndBefore, selectionEndAfter,
                                   srcs, multiline);
            && m.start + |m.markup| <= |value|
            && (StrictlyInside(m, sp.start) ==>
                  r == value[..m.start] + sp.insert + SubstringFrom(value, OrZero(MappedIndex(value, srcs, sp.end, End))))
            && (StrictlyInside(m, sp.end) ==>
                  r == Substring(value, 0, OrZero(MappedIndex(value, srcs, sp.start, Start))) + sp.insert
                       + value[m.start + |m.markup|..])
  {
    var sp := NormalisedSplice(PlainText(value, srcs, multiline), plainTextValue, selectionStartBefore,
                               selectionEndBefore, selectionEndAfter);
    var segs := Scan(value, srcs, false);
    ScanTiles(value, srcs, false);
    TilingPlacesRaw(segs, value, 0, 0, i);
    if StrictlyInside(segs[i], sp.start) {
      SpliceFromInsideMention(value, srcs, sp.start, sp.end, sp.insert, i);
      TouchedSpliceApplied(value, plainTextValue, selectionStartBefore, selectionEndBefore, selectionEndAfter, srcs,
                           multiline, sp);
    }
    if StrictlyInside(segs[i], sp.end) {
      SpliceIntoMention(value, srcs, sp.start, sp.end, sp.insert, i);
      TouchedSpliceApplied(value, plainTextValue, selectionStartBefore, selectionEndBefore, selectionEndAfter, srcs,
                           multiline, sp);
    }
  }

  /** An edit whose splice touches a mention ends with the first splice. */
  lemma TouchedSpliceApplied(value: string, plainTextValue: string, selectionStartBefore: Option<int>,
                             selectionEndBefore: Option<int>, selectionEndAfter: int, srcs: seq<Source>,
                             multiline: bool, sp: PlainSplice)
    requires ValidSources(srcs)
    requires sp == NormalisedSplice(PlainText(value, srcs, multiline), plainTextValue, selectionStartBefore,
                                    selectionEndBefore, selectionEndAfter)
    requires TouchesMention(value, srcs, sp)
    ensures AppliedChange(value, plainTextValue, selectionStartBefore, selectionEndBefore, selectionEndAfter, srcs,
                          multiline) == SplicedValue(value, srcs, sp.start, sp.end, sp.insert)
  {
  }

  /**
   * The first pass: an edit whose normalised splice touches no mention, and
   * after which the spliced value shows the new plain text (no
   * auto-correction is detected), replaces exactly the markup between the
   * bounds' markup indices; SpliceBetweenMentions says which mentions keep
   * their markup. This covers only the case where the second pass does not
   * run; AutoCorrectionBetweenMentions covers the case where it does.
   */
  lemma EditBetweenMentions(value: string, plainTextValue: string, selectionStartBefore: Option<int>,
                            selectionEndBefore: Option<int>, selectionEndAfter: int, srcs: seq<Source>,
                            multiline: bool)
    requires ValidSources(srcs)
    requires var sp := NormalisedSplice(PlainText(value, srcs, multiline), plainTextValue, selectionStartBefore,
                                        selectionEndBefore, selectionEndAfter);
             && !TouchesMention(value, srcs, sp)
             && PlainText(SplicedValue(value, srcs, sp.start, sp.end, sp.insert), srcs, multiline) == plainTextValue
    ensures var sp := NormalisedSplice(PlainText(value, srcs, multiline), plainTextValue, selectionStartBefore,
                                       selectionEndBefore, selectionEndAfter);
            AppliedChange(value, plainTextValue, selectionStartBefore, selectionEndBefore, selectionEndAfter, srcs,
                          multiline)
            == value[..Clamp(MappedIndex(value, srcs, sp.start, Null).value, |value|)] + sp.insert
               + value[Clamp(MappedIndex(value, srcs, sp.end, Null).value, |value|)..]
  {
    SpliceBetweenMentions(value, srcs, NormalisedSplice(PlainText(value, srcs, multiline), plainTextValue,
                                                        selectionStartBefore, selectionEndBefore, selectionEndAfter));
  }

  /**
   * The second pass in plain-text terms: when the old plain text agrees with
   * the new one up to the first difference from the re-scan, and ends with
   * the new text after the caret, the corrected splice runs from that
   * difference to where the unchanged tail begins and turns the old plain
   * text into the new one.
   */
  lemma CorrectedSpliceRebuilds(oldPlain: string, newPlain: string, controlPlain: string, selectionEndAfter: int)
    requires newPlain != controlPlain
    requires var s := FirstDifference(newPlain, controlPlain);
             && s <= selectionEndAfter <= |newPlain| && s + (|newPlain| - selectionEndAfter) <= |oldPlain|
             && oldPlain[..s] == newPlain[..s]
             && oldPlain[|oldPlain| - (|newPlain| - selectionEndAfter)..] == newPlain[selectionEndAfter..]
    ensures var c := CorrectedSplice(oldPlain, newPlain, controlPlain, selectionEndAfter);
            && c.start == FirstDifference(newPlain, controlPlain)
            && c.end == |oldPlain| - (|newPlain| - selectionEndAfter)
            && SpliceString(oldPlain, c.start, c.end, c.insert) == newPlain
  {
    var s := FirstDifference(newPlain, controlPlain);
    var tail := newPlain[selectionEndAfter..];
    var e := |oldPlain| - |tail|;
    assert OccursAt(oldPlain, tail, e);
    var r := LastIndexOf(oldPlain, tail);
    assert r == e;
    assert newPlain == newPlain[..s] + newPlain[s..selectionEndAfter] + tail;
  }

  /**
   * The second pass at the markup level: when the corrected splice touches
   * no mention either, the result replaces exactly the markup between its
   * bounds' markup indices.
   */
  lemma AutoCorrectionBetweenMentions(value: string, plainTextValue: string, selectionStartBefore: Option<int>,
                                      selectionEndBefore: Option<int>, selectionEndAfter: int, srcs: seq<Source>,
                                      multiline: bool)
    requires ValidSources(srcs)
    requires var oldPlain := PlainText(value, srcs, multiline);
             var sp := NormalisedSplice(oldPlain, plainTextValue, selectionStartBefore, selectionEndBefore,
                                        selectionEndAfter);
             var control := PlainText(SplicedValue(value, srcs, sp.start, sp.end, sp.insert), srcs, multiline);
             && !TouchesMention(value, srcs, sp) && control != plainTextValue
             && !TouchesMention(value, srcs, CorrectedSplice(oldPlain, plainTextValue, control, selectionEndAfter))
    ensures var oldPlain := PlainText(value, srcs, multiline);
            var sp := NormalisedSplice(oldPlain, plainTextValue, selectionStartBefore, selectionEndBefore,
                                       selectionEndAfter);
            var control := PlainText(SplicedValue(value, srcs, sp.start, sp.end, sp.insert), srcs, multiline);
            var c := CorrectedSplice(oldPlain, plainTextValue, control, selectionEndAfter);
            AppliedChange(value, plainTextValue, selectionStartBefore, selectionEndBefore, selectionEndAfter, srcs,
                          multiline)
            == value[..Clamp(MappedIndex(value, srcs, c.start, Null).value, |value|)] + c.insert
               + value[Clamp(MappedIndex(value, srcs, c.end, Null).value, |value|)..]
  {
    var oldPlain := PlainText(value, srcs, multiline);
    var sp := NormalisedSplice(oldPlain, plainTextValue, selectionStartBefore, selectionEndBefore, selectionEndAfter);
    var control := PlainText(SplicedValue(value, srcs, sp.start, sp.end, sp.insert), srcs, multiline);
    SpliceBetweenMentions(value, srcs, CorrectedSplice(oldPlain, plainTextValue, control, selectionEndAfter));
  }

  /**
   * Delete with a collapsed caret at c, right after a mention's display,
   * when a text character follows it: the character removed from the value
   * is k, the one after the mention's markup, which is the very character
   * deleted from the plain text, and the mention's markup stays where it was
   * (when the spliced value shows the edited plain text).
   */
  lemma DeleteAfterMention(value: string, srcs: seq<Source>, i: nat, c: int, k: int)
    requires ValidSources(srcs)
    requires var segs := Scan(value, srcs, false);
             && i + 1 < |segs| && segs[i].Mention? && |segs[i].display| > 0
             && segs[i + 1].Text? && |segs[i + 1].text| > 0
             && c == segs[i].plainStart + |segs[i].display| && k == segs[i].start + |segs[i].markup|
    requires var plain := PlainText(value, srcs, false);
             && 0 <= c < |plain| && 0 <= k < |value|
             && PlainText(value[..k] + value[k + 1..], srcs, false) == plain[..c] + plain[c + 1..]
    ensures value[k] == PlainText(value, srcs, false)[c]
    ensures var plain := PlainText(value, srcs, false);
            AppliedChange(value, plain[..c] + plain[c + 1..], Some(c), Some(c), c, srcs, false)
            == value[..k] + value[k + 1..]
    ensures var m := Scan(value, srcs, false)[i];
            (value[..k] + value[k + 1..])[m.start..k] == m.markup
  {
    var plain := PlainText(value, srcs, false);
    var m := Scan(value, srcs, false)[i];
    DeleteInValue(value, srcs, i, c, k);
    DeleteApplied(value, srcs, c, k);
    assert (value[..k] + value[k + 1..])[m.start..k] == value[m.start..k];
  }

  /**
   * A delete right after a mention's display, in the value: both bounds of
   * the splice map next to the mention's markup, around the character after
   * it, which is the character after the display.
   */
  lemma DeleteInValue(value: string, srcs: seq<Source>, i: nat, c: int, k: int)
    requires ValidSources(srcs)
    requires var segs := Scan(value, srcs, false);
             && i + 1 < |segs| && segs[i].Mention? && |segs[i].display| > 0
             && segs[i + 1].Text? && |segs[i + 1].text| > 0
             && c == segs[i].plainStart + |segs[i].display| && k == segs[i].start + |segs[i].markup|
    ensures 0 <= c < |PlainText(value, srcs, false)| && 0 <= k < |value|
    ensures value[k] == PlainText(value, srcs, false)[c]
    ensures var m := Scan(value, srcs, false)[i];
            0 <= m.start <= k && value[m.start..k] == m.markup
    ensures MappedIndex(value, srcs, c, Start) == Some(k) && MappedIndex(value, srcs, c, Null) == Some(k)
    ensures MappedIndex(value, srcs, c + 1, End) == Some(k + 1) && MappedIndex(value, srcs, c + 1, Null) == Some(k + 1)
  {
    var segs := Scan(value, srcs, false);
    ScanTiles(value, srcs, false);
    RawAfterMention(segs, value, i, k);
    ShownAfterMention(segs, value, i, c);
    MapsAroundDelete(segs, value, i, c, k);
  }

  /**
   * Deleting plain-text character c whose splice bounds map around value[k]:
   * both passes remove exactly value[k] (when that shows the edited text).
   */
  lemma DeleteApplied(value: string, srcs: seq<Source>, c: int, k: int)
    requires ValidSources(srcs)
    requires var plain := PlainText(value, srcs, false);
             && 0 <= c < |plain| && 0 <= k < |value|
             && PlainText(value[..k] + value[k + 1..], srcs, false) == plain[..c] + plain[c + 1..]
    requires MappedIndex(value, srcs, c, Start) == Some(k) && MappedIndex(value, srcs, c, Null) == Some(k)
    requires MappedIndex(value, srcs, c + 1, End) == Some(k + 1) && MappedIndex(value, srcs, c + 1, Null) == Some(k + 1)
    ensures var plain := PlainText(value, srcs, false);
            AppliedChange(value, plain[..c] + plain[c + 1..], Some(c), Some(c), c, srcs, false)
            == value[..k] + value[k + 1..]
  {
    var plain := PlainText(value, srcs, false);
    DeleteSplice(plain, c);
    DeleteBetweenMentions(value, srcs, c, k);
    EditBetweenMentions(value, plain[..c] + plain[c + 1..], Some(c), Some(c), c, srcs, false);
  }

  /** A one-character splice whose bounds map around value[k] removes that character and touches no mention. */
  lemma DeleteBetweenMentions(value: string, srcs: seq<Source>, c: int, k: nat)
    requires ValidSources(srcs) && k < |value|
    requires MappedIndex(value, srcs, c, Start) == Some(k) && MappedIndex(value, srcs, c, Null) == Some(k)
    requires MappedIndex(value, srcs, c + 1, End) == Some(k + 1) && MappedIndex(value, srcs, c + 1, Null) == Some(k + 1)
    ensures !TouchesMention(value, srcs, PlainSplice(c, c + 1, ""))
    ensures SplicedValue(value, srcs, c, c + 1, "") == value[..k] + value[k + 1..]
    ensures Clamp(MappedIndex(value, srcs, c, Null).value, |value|) == k
    ensures Clamp(MappedIndex(value, srcs, c + 1, Null).value, |value|) == k + 1
  {
  }

  /** Delete with a collapsed caret at c, in plain-text terms: the splice removes the one character at c. */
  lemma DeleteSplice(plain: string, c: nat)
    requires c < |plain|
    ensures NormalisedSplice(plain, plain[..c] + plain[c + 1..], Some(c), Some(c), c) == PlainSplice(c, c + 1, "")
  {
  }

  /** In the value, the text run after a mention begins right after the mention's markup. */
  lemma RawAfterMention(segs: seq<Segment>, value: string, i: nat, k: int)
    requires Tiling(segs, value, 0, 0)
    requires i + 1 < |segs| && segs[i].Mention? && segs[i + 1].Text? && |segs[i + 1].text| > 0
    requires k == segs[i].start + |segs[i].markup|
    ensures 0 <= segs[i].start <= k < |value| && value[k] == segs[i + 1].text[0]
    ensures value[segs[i].start..k] == segs[i].markup
  {
    var m, t := segs[i], segs[i + 1];
    LayoutAfterMention(segs, 0, 0, |value|, i);
    TilingPlacesRaw(segs, value, 0, 0, i);
    assert m.Raw() == m.markup;
    TilingPlacesRaw(segs, value, 0, 0, i + 1);
    assert t.Raw() == t.text && t.start == k;
    assert value[k] == value[k..k + |t.text|][0];
  }

  /** In the plain text, the text run after a mention begins right after the mention's display. */
  lemma ShownAfterMention(segs: seq<Segment>, value: string, i: nat, c: int)
    requires Tiling(segs, value, 0, 0)
    requires i + 1 < |segs| && segs[i].Mention? && segs[i + 1].Text? && |segs[i + 1].text| > 0
    requires c == segs[i].plainStart + |segs[i].display|
    ensures 0 <= c < |PlainOf(segs)| && PlainOf(segs)[c] == segs[i + 1].text[0]
  {
    var t := segs[i + 1];
    LayoutAfterMention(segs, 0, 0, |value|, i);
    TilingPlacesShown(segs, value, 0, 0, i + 1);
    assert t.Shown() == t.text && t.plainStart == c;
    assert PlainOf(segs)[c] == PlainOf(segs)[c..c + |t.text|][0];
  }

  /**
   * Around the end of a non-empty display followed by text: that index maps
   * to the end of the mention's markup and the next one just after it, under
   * the corrections the delete uses.
   */
  lemma MapsAroundDelete(segs: seq<Segment>, value: string, i: nat, c: int, k: int)
    requires Tiling(segs, value, 0, 0)
    requires i + 1 < |segs| && segs[i].Mention? && |segs[i].display| > 0 && segs[i + 1].Text? && |segs[i + 1].text| > 0
    requires c == segs[i].plainStart + |segs[i].display| && k == segs[i].start + |segs[i].markup|
    ensures MapIndexOf(segs, |value|, c, Start) == Some(k) && MapIndexOf(segs, |value|, c, Null) == Some(k)
    ensures MapIndexOf(segs, |value|, c + 1, End) == Some(k + 1) && MapIndexOf(segs, |value|, c + 1, Null) == Some(k + 1)
  {
    LayoutAfterMention(segs, 0, 0, |value|, i);
    MapAfterMention(segs, 0, 0, |value|, i, Start);
    MapAfterMention(segs, 0, 0, |value|, i, Null);
    MapInsideText(segs, 0, 0, |value|, i + 1, c + 1, End);
    MapInsideText(segs, 0, 0, |value|, i + 1, c + 1, Null);
  }

  // ---- A change event that changes nothing ----

  /**
   * A no-op event in plain-text terms: the same text with a collapsed caret
   * at c. Equal lengths and a caret that did not move make it look like a
   * composed character, so the splice re-inserts the character before the
   * caret over itself.
   */
  lemma NoOpSplice(plain: string, c: int)
    requires 1 <= c <= |plain|
    ensures NormalisedSplice(plain, plain, Some(c), Some(c), c) == PlainSplice(c - 1, c, plain[c - 1..c])
  {
  }

  /**
   * The round trip where it holds: an event that leaves the plain text as it
   * is, with the caret at c just after a text character (not the first
   * character after a mention with an empty display), returns the value
   * unchanged.
   */
  lemma NoOpRoundTrip(value: string, srcs: seq<Source>, j: nat, c: int, x: int)
    requires ValidSources(srcs)
    requires var segs := Scan(value, srcs, false);
             && j < |segs| && segs[j].Text?
             && segs[j].plainStart < c <= segs[j].plainStart + |segs[j].text|
             && (j == 0 || segs[j].plainStart < c - 1 || (segs[j - 1].Mention? && |segs[j - 1].display| > 0))
             && x == segs[j].start + (c - 1 - segs[j].plainStart)
    ensures AppliedChange(value, PlainText(value, srcs, false), Some(c), Some(c), c, srcs, false) == value
  {
    TextCharInValue(value, srcs, j, c, x);
    NoOpApplied(value, srcs, c, x);
  }

  /** The character before a caret inside a text run: its plain-text splice bounds map around it. */
  lemma TextCharInValue(value: string, srcs: seq<Source>, j: nat, c: int, x: int)
    requires ValidSources(srcs)
    requires var segs := Scan(value, srcs, false);
             && j < |segs| && segs[j].Text?
             && segs[j].plainStart < c <= segs[j].plainStart + |segs[j].text|
             && (j == 0 || segs[j].plainStart < c - 1 || (segs[j - 1].Mention? && |segs[j - 1].display| > 0))
             && x == segs[j].start + (c - 1 - segs[j].plainStart)
    ensures 1 <= c <= |PlainText(value, srcs, false)| && 0 <= x < |value|
    ensures value[x] == PlainText(value, srcs, false)[c - 1]
    ensures MappedIndex(value, srcs, c - 1, Start) == Some(x) && MappedIndex(value, srcs, c - 1, Null) == Some(x)
    ensures MappedIndex(value, srcs, c, End) == Some(x + 1) && MappedIndex(value, srcs, c, Null) == Some(x + 1)
  {
    var segs := Scan(value, srcs, false);
    ScanTiles(value, srcs, false);
    TextCharPlaced(segs, value, j, c, x);
    MapsAroundTextChar(segs, value, j, c, x);
  }

  /** The plain-text character before a caret inside a text run is the value's character x. */
  lemma TextCharPlaced(segs: seq<Segment>, value: string, j: nat, c: int, x: int)
    requires Tiling(segs, value, 0, 0)
    requires j < |segs| && segs[j].Text? && segs[j].plainStart < c <= segs[j].plainStart + |segs[j].text|
    requires x == segs[j].start + (c - 1 - segs[j].plainStart)
    ensures 1 <= c <= |PlainOf(segs)| && 0 <= x < |value| && value[x] == PlainOf(segs)[c - 1]
  {
    var t := segs[j];
    var q := c - 1 - t.plainStart;
    TilingPlacesRaw(segs, value, 0, 0, j);
    assert t.Raw() == t.text;
    assert value[x] == value[t.start..t.start + |t.text|][q];
    TilingPlacesShown(segs, value, 0, 0, j);
    assert t.Shown() == t.text;
    assert PlainOf(segs)[c - 1] == PlainOf(segs)[t.plainStart..t.plainStart + |t.text|][q];
  }

  /**
   * Around a character of a text run (not the first one after a mention
   * with an empty display): the index before it maps to it and the index
   * after it to the next one, under the corrections the splice uses.
   */
  lemma MapsAroundTextChar(segs: seq<Segment>, value: string, j: nat, c: int, x: int)
    requires Tiling(segs, value, 0, 0)
    requires j < |segs| && segs[j].Text? && segs[j].plainStart < c <= segs[j].plainStart + |segs[j].text|
    requires j == 0 || segs[j].plainStart < c - 1 || (segs[j - 1].Mention? && |segs[j - 1].display| > 0)
    requires x == segs[j].start + (c - 1 - segs[j].plainStart)
    ensures MapIndexOf(segs, |value|, c - 1, Start) == Some(x) && MapIndexOf(segs, |value|, c - 1, Null) == Some(x)
    ensures MapIndexOf(segs, |value|, c, End) == Some(x + 1) && MapIndexOf(segs, |value|, c, Null) == Some(x + 1)
  {
    MapInsideText(segs, 0, 0, |value|, j, c, End);
    MapInsideText(segs, 0, 0, |value|, j, c, Null);
    if j == 0 || segs[j].plainStart < c - 1 {
      MapInsideText(segs, 0, 0, |value|, j, c - 1, Start);
      MapInsideText(segs, 0, 0, |value|, j, c - 1, Null);
    } else {
      LayoutAfterMention(segs, 0, 0, |value|, j - 1);
      MapAfterMention(segs, 0, 0, |value|, j - 1, Start);
      MapAfterMention(segs, 0, 0, |value|, j - 1, Null);
    }
  }

  /** A no-op event whose splice bounds map around value[x], the character before the caret: nothing changes. */
  lemma NoOpApplied(value: string, srcs: seq<Source>, c: int, x: int)
    requires ValidSources(srcs)
    requires 1 <= c <= |PlainText(value, srcs, false)| && 0 <= x < |value|
    requires value[x] == PlainText(value, srcs, false)[c - 1]
    requires MappedIndex(value, srcs, c - 1, Start) == Some(x) && MappedIndex(value, srcs, c - 1, Null) == Some(x)
    requires MappedIndex(value, srcs, c, End) == Some(x + 1) && MappedIndex(value, srcs, c, Null) == Some(x + 1)
    ensures AppliedChange(value, PlainText(value, srcs, false), Some(c), Some(c), c, srcs, false) == value
  {
    var plain := PlainText(value, srcs, false);
    var insert := plain[c - 1..c];
    SameCharSlice(plain, value, c, x);
    NoOpSplice(plain, c);
    NoOpBetweenMentions(value, srcs, c, x, insert);
    FirstSpliceApplied(value, plain, Some(c), Some(c), c, srcs, PlainSplice(c - 1, c, insert), value);
  }

  /** When the first splice touches no mention and its result r shows the new plain text, r is the result. */
  lemma FirstSpliceApplied(value: string, plainTextValue: string, selectionStartBefore: Option<int>,
                           selectionEndBefore: Option<int>, selectionEndAfter: int, srcs: seq<Source>,
                           sp: PlainSplice, r: string)
    requires ValidSources(srcs)
    requires sp == NormalisedSplice(PlainText(value, srcs, false), plainTextValue, selectionStartBefore,
                                    selectionEndBefore, selectionEndAfter)
    requires !TouchesMention(value, srcs, sp)
    requires r == SplicedValue(value, srcs, sp.start, sp.end, sp.insert) && PlainText(r, srcs, false) == plainTextValue
    ensures AppliedChange(value, plainTextValue, selectionStartBefore, selectionEndBefore, selectionEndAfter, srcs,
                          false) == r
  {
  }

  /** Re-inserting value[x] over itself, with bounds that map around it, touches no mention and changes nothing. */
  lemma NoOpBetweenMentions(value: string, srcs: seq<Source>, c: int, x: int, insert: string)
    requires ValidSources(srcs) && 0 <= x < |value| && insert == [value[x]]
    requires MappedIndex(value, srcs, c - 1, Start) == Some(x) && MappedIndex(value, srcs, c - 1, Null) == Some(x)
    requires MappedIndex(value, srcs, c, End) == Some(x + 1) && MappedIndex(value, srcs, c, Null) == Some(x + 1)
    ensures !TouchesMention(value, srcs, PlainSplice(c - 1, c, insert))
    ensures SplicedValue(value, srcs, c - 1, c, insert) == value
  {
    KeepChar(value, x);
  }

  /** The one-character slice before c is value[x] when the two characters agree. */
  lemma SameCharSlice(plain: string, value: string, c: int, x: int)
    requires 1 <= c <= |plain| && 0 <= x < |value| && value[x] == plain[c - 1]
    ensures plain[c - 1..c] == [value[x]]
  {
  }

  /** Putting a character back where it was gives the same string. */
  lemma KeepChar(s: string, x: nat)
    requires x < |s|
    ensures s[..x] + [s[x]] + s[x + 1..] == s
  {
    assert s[..x] + [s[x]] == s[..x + 1];
  }

  /**
   * The round trip as written fails right after a mention whose display has
   * two characters or more: the no-op splice starts strictly inside the
   * display, so the mention's whole markup gives way to the display's last
   * character, and the value changes whenever the markup is longer than one
   * character.
   */
  lemma NoOpAfterMention(value: string, srcs: seq<Source>, i: nat, c: int, k: int)
    requires ValidSources(srcs)
    requires var segs := Scan(value, srcs, false);
             && i < |segs| && segs[i].Mention? && |segs[i].display| >= 2
             && c == segs[i].plainStart + |segs[i].display| && k == segs[i].start + |segs[i].markup|
    ensures var m := Scan(value, srcs, false)[i];
            var r := AppliedChange(value, PlainText(value, srcs, false), Some(c), Some(c), c, srcs, false);
            && k <= |value|
            && r == value[..m.start] + [m.display[|m.display| - 1]] + value[k..]
            && |r| == |value| - |m.markup| + 1
            && (|m.markup| != 1 ==> r != value)
  {
    var m := Scan(value, srcs, false)[i];
    var plain := PlainText(value, srcs, false);
    MentionEndInValue(value, srcs, i, c, k);
    NoOpSplice(plain, c);
    EditTouchingMention(value, plain, Some(c), Some(c), c, srcs, false, i);
  }

  /**
   * The end of a non-empty display maps to the end of the mention's markup,
   * and the character before it in the plain text is the display's last.
   */
  lemma MentionEndInValue(value: string, srcs: seq<Source>, i: nat, c: int, k: int)
    requires ValidSources(srcs)
    requires var segs := Scan(value, srcs, false);
             && i < |segs| && segs[i].Mention? && |segs[i].display| > 0
             && c == segs[i].plainStart + |segs[i].display| && k == segs[i].start + |segs[i].markup|
    ensures var m := Scan(value, srcs, false)[i];
            && 1 <= c <= |PlainText(value, srcs, false)| && 0 <= m.start <= k <= |value|
            && PlainText(value, srcs, false)[c - 1..c] == [m.display[|m.display| - 1]]
            && MappedIndex(value, srcs, c, End) == Some(k)
  {
    var segs := Scan(value, srcs, false);
    ScanTiles(value, srcs, false);
    MentionEndPlaced(segs, value, i, c, k);
    MentionInValue(segs, value, i, k);
    MapAfterMention(segs, 0, 0, |value|, i, End);
  }

  /** A mention's markup ends at k within the value. */
  lemma MentionInValue(segs: seq<Segment>, value: string, i: nat, k: int)
    requires Tiling(segs, value, 0, 0)
    requires i < |segs| && segs[i].Mention? && k == segs[i].start + |segs[i].markup|
    ensures 0 <= segs[i].start <= k <= |value|
  {
    TilingPlacesRaw(segs, value, 0, 0, i);
    assert segs[i].Raw() == segs[i].markup;
  }

  /** The last character of a non-empty display sits just before the display's end in the plain text. */
  lemma MentionEndPlaced(segs: seq<Segment>, value: string, i: nat, c: int, k: int)
    requires Tiling(segs, value, 0, 0)
    requires i < |segs| && segs[i].Mention? && |segs[i].display| > 0
    requires c == segs[i].plainStart + |segs[i].display| && k == segs[i].start + |segs[i].markup|
    ensures 1 <= c <= |PlainOf(segs)|
    ensures PlainOf(segs)[c - 1..c] == [segs[i].display[|segs[i].display| - 1]]
  {
    var m := segs[i];
    var plain := PlainOf(segs);
    TilingPlacesShown(segs, value, 0, 0, i);
    assert m.Shown() == m.display;
    assert 0 <= m.plainStart < c <= |plain| && plain[m.plainStart..c] == m.display;
    LastOfSlice(plain, m.plainStart, c, m.display);
  }

  /** The last character of a slice that spells d is d's last character. */
  lemma LastOfSlice(s: string, a: int, b: int, d: string)
    requires 0 <= a < b <= |s| && s[a..b] == d
    ensures s[b - 1..b] == [d[|d| - 1]]
  {
    assert s[b - 1] == s[a..b][b - 1 - a];
  }

  /**
   * The reconciliation the round trip calls for, as a correction of
   * `applyChangeToValue`: an event that leaves the plain text as it is
   * leaves the value as it is, and any other event is reconciled as
   * `applyChangeToValue` does. The handlers call `applyChangeToValue`
   * itself, as the components do.
   */
  function Reconciled(value: string, plainTextValue: string, selectionStartBefore: Option<int>,
                      selectionEndBefore: Option<int>, selectionEndAfter: int, srcs: seq<Source>,
                      multiline: bool): (r: string)
    requires ValidSources(srcs)
    ensures plainTextValue == PlainText(value, srcs, multiline) ==> r == value
    ensures plainTextValue != PlainText(value, srcs, multiline)
            ==> r == AppliedChange(value, plainTextValue, selectionStartBefore, selectionEndBefore, selectionEndAfter,
                                   srcs, multiline)
  {
    if plainTextValue == PlainText(value, srcs, multiline) then value
    else AppliedChange(value, plainTextValue, selectionStartBefore, selectionEndBefore, selectionEndAfter, srcs,
                       multiline)
  }

  /**
   * The correction changes nothing where the reconciliation as written
   * already keeps a no-op event a no-op: with the caret just after a text
   * character, both return the value.
   */
  lemma ReconciledAgreesAfterText(value: string, srcs: seq<Source>, j: nat, c: int, x: int)
    requires ValidSources(srcs)
    requires var segs := Scan(value, srcs, false);
             && j < |segs| && segs[j].Text?
             && segs[j].plainStart < c <= segs[j].plainStart + |segs[j].text|
             && (j == 0 || segs[j].plainStart < c - 1 || (segs[j - 1].Mention? && |segs[j - 1].display| > 0))
             && x == segs[j].start + (c - 1 - segs[j].plainStart)
    ensures var plain := PlainText(value, srcs, false);
            Reconciled(value, plain, Some(c), Some(c), c, srcs, false)
            == AppliedChange(value, plain, Some(c), Some(c), c, srcs, false)
  {
    NoOpRoundTrip(value, srcs, j, c, x);
  }

  /**
   * Editing a value without mentions, when the result has none either,
   * gives exactly the edited plain text as the new value, for every edit the
   * text field reports.
   */
  lemma EditWithoutMentions(value: string, e: Edit, selectionStartBefore: Option<int>,
                            selectionEndBefore: Option<int>, selectionEndAfter: int, srcs: seq<Source>,
                            multiline: bool)
    requires ValidSources(srcs) && MentionsOf(Scan(value, srcs, multiline)) == []
    requires ReportsEdit(value, e, selectionStartBefore, selectionEndBefore, selectionEndAfter)
    requires MentionsOf(Scan(Edited(value, e), srcs, multiline)) == []
    ensures AppliedChange(value, Edited(value, e), selectionStartBefore, selectionEndBefore, selectionEndAfter,
                          srcs, multiline) == Edited(value, e)
  {
    var edited := Edited(value, e);
    ScanWithoutMentions(value, srcs, multiline, multiline);
    ScanWithoutMentions(value, srcs, multiline, false);
    TextOnlyPlain(value);
    assert PlainText(value, srcs, multiline) == value;
    var sp := NormalisedSplice(value, edited, selectionStartBefore, selectionEndBefore, selectionEndAfter);
    NormalisedSpliceReproducesEdit(value, e, selectionStartBefore, selectionEndBefore, selectionEndAfter);
    MapWithoutMentions(value, srcs, sp.start, Start);
    MapWithoutMentions(value, srcs, sp.end, End);
    MapWithoutMentions(value, srcs, sp.start, Null);
    MapWithoutMentions(value, srcs, sp.end, Null);
    var newValue := SplicedValue(value, srcs, sp.start, sp.end, sp.insert);
    assert newValue == SpliceString(value, sp.start, sp.end, sp.insert) == edited;
    ScanWithoutMentions(edited, srcs, multiline, multiline);
    TextOnlyPlain(edited);
    assert PlainText(newValue, srcs, multiline) == edited;
  }
}
