/**
 * Grammar derivation: how a markup template such as `@[__display__](__id__)`
 * becomes a matcher, which capture group holds the id and which the display,
 * and what the derived matcher accepts.
 *
 * The derived regular expression is modelled by the pattern it denotes: a
 * sequence of literal characters and holes. Each placeholder becomes a hole,
 * the non-greedy group `([^c]+?)` matching one or more characters other than
 * the template character c that follows the placeholder (any character when
 * nothing follows). MatchFrom tries the shortest hole first and backtracks, as
 * the regular expression engine does.
 */
module Grammar {
  import opened Js
  import opened Types

  const IdPlaceholder: string := "__id__"
  const DisplayPlaceholder: string := "__display__"

  /** The two mention parameters a template can hold. */
  datatype Param = Id | Display {
    function Placeholder(): string {
      match this
      case Id => IdPlaceholder
      case Display => DisplayPlaceholder
    }
    function Other(): Param {
      match this
      case Id => Display
      case Display => Id
    }
  }

  /** The configuration errors of a template, raised when a source is set up. */
  datatype GrammarError =
    | InvalidMarkupTemplate
    | OverlappingPlaceholders
    | GrammarMismatch(groups: nat, placeholders: nat)

  datatype Result<T> = Ok(value: T) | Err(error: GrammarError)

  ghost predicate Occurs(s: string, sub: string) {
    exists i :: OccursAt(s, sub, i)
  }

  lemma IndexOfFindsOccurrence(s: string, sub: string)
    ensures IndexOf(s, sub) >= 0 <==> Occurs(s, sub)
  {
    if Occurs(s, sub) {
      var i :| OccursAt(s, sub, i);
      assert i <= |s|;
    }
  }

  /** `countPlaceholders`: how many of the two placeholders the template uses. */
  function CountPlaceholders(markup: string): (n: nat)
    ensures n <= 2
  {
    (if IndexOf(markup, IdPlaceholder) >= 0 then 1 else 0)
      + (if IndexOf(markup, DisplayPlaceholder) >= 0 then 1 else 0)
  }

  /** The count is 0 exactly when neither placeholder occurs and 2 exactly when both do. */
  lemma CountPlaceholdersCounts(markup: string)
    ensures var n := CountPlaceholders(markup);
            && (n == 0 <==> !Occurs(markup, IdPlaceholder) && !Occurs(markup, DisplayPlaceholder))
            && (n == 2 <==> Occurs(markup, IdPlaceholder) && Occurs(markup, DisplayPlaceholder))
  {
    IndexOfFindsOccurrence(markup, IdPlaceholder);
    IndexOfFindsOccurrence(markup, DisplayPlaceholder);
  }

  /** The two placeholders can never start at the same index. */
  lemma PlaceholdersStartApart(s: string, i: int)
    requires OccursAt(s, IdPlaceholder, i)
    ensures !OccursAt(s, DisplayPlaceholder, i)
  {
    assert s[i + 2] == 'i' by {
      assert s[i..i + 6][2] == s[i + 2];
    }
    if i + 11 <= |s| {
      assert s[i..i + 11][2] == 'i';
    }
  }

  /**
   * `findIndexOfCapturingGroup`: with both placeholders, the one appearing
   * first gets capture 0 and the other 1; with one, both parameters read
   * capture 0; with neither, the invariant fails.
   */
  function FindIndexOfCapturingGroup(markup: string, param: Param): (r: Result<nat>)
    ensures r.Ok? ==> r.value <= 1
  {
    var indexDisplay := IndexOf(markup, DisplayPlaceholder);
    var indexId := IndexOf(markup, IdPlaceholder);
    if indexDisplay < 0 && indexId < 0 then Err(InvalidMarkupTemplate)
    else if indexDisplay >= 0 && indexId >= 0 then
      if (param == Id && indexId <= indexDisplay) || (param == Display && indexDisplay <= indexId) then Ok(0)
      else Ok(1)
    else Ok(0)
  }

  /**
   * The capture index follows the template: an error exactly when neither
   * placeholder is used; 0 when only one is; with both, 0 for the parameter
   * whose placeholder occurs first and 1 for the other, so the two
   * parameters never share a capture.
   */
  lemma CapturingGroupFollowsOrder(markup: string, param: Param)
    ensures var r := FindIndexOfCapturingGroup(markup, param);
            && (r.Err? <==> CountPlaceholders(markup) == 0)
            && (r.Err? ==> r.error == InvalidMarkupTemplate)
            && (CountPlaceholders(markup) == 1 ==> r == Ok(0))
            && (CountPlaceholders(markup) == 2 ==>
                  (r == Ok(0) <==> IndexOf(markup, param.Placeholder()) < IndexOf(markup, param.Other().Placeholder())))
            && (CountPlaceholders(markup) == 2 ==>
                  r.Ok? && r.value + FindIndexOfCapturingGroup(markup, param.Other()).value == 1)
  {
    var indexDisplay := IndexOf(markup, DisplayPlaceholder);
    var indexId := IndexOf(markup, IdPlaceholder);
    IndexOfFindsOccurrence(markup, IdPlaceholder);
    IndexOfFindsOccurrence(markup, DisplayPlaceholder);
    if indexDisplay >= 0 && indexId >= 0 {
      PlaceholdersStartApart(markup, indexId);
      assert indexId != indexDisplay;
    }
  }

  /** The characters `escapeRegex` puts a backslash in front of. */
  predicate IsRegexSpecial(c: char) {
    c in "-[]{}()*+?.,\\^$|#" || IsWhitespace(c)
  }

  /** `escapeRegex`: a backslash before every special character. */
  function EscapeRegex(s: string): (r: string)
    ensures |r| >= |s|
  {
    if s == [] then []
    else (if IsRegexSpecial(s[0]) then ['\\', s[0]] else [s[0]]) + EscapeRegex(s[1..])
  }

  /**
   * The string a regular-expression source denotes when it is a plain
   * literal: `\` before a special character stands for that character, any
   * other character for itself; None when a special character stands bare or
   * a backslash escapes something else.
   */
  function ReadRegexLiteral(e: string): Option<string>
  {
    if e == [] then Some([])
    else if e[0] == '\\' then
      if |e| >= 2 && IsRegexSpecial(e[1]) then
        match ReadRegexLiteral(e[2..])
        case Some(rest) => Some([e[1]] + rest)
        case None => None
      else None
    else if IsRegexSpecial(e[0]) then None
    else
      match ReadRegexLiteral(e[1..])
      case Some(rest) => Some([e[0]] + rest)
      case None => None
  }

  /** The escaped template text matches exactly the template's own characters. */
  lemma {:induction false} EscapeRegexReadsBack(s: string)
    ensures ReadRegexLiteral(EscapeRegex(s)) == Some(s)
  {
    if s != [] {
      EscapeRegexReadsBack(s[1..]);
      var e := EscapeRegex(s);
      if IsRegexSpecial(s[0]) {
        assert e == ['\\', s[0]] + EscapeRegex(s[1..]);
        assert e[2..] == EscapeRegex(s[1..]);
      } else {
        assert e == [s[0]] + EscapeRegex(s[1..]);
        assert e[1..] == EscapeRegex(s[1..]);
        assert s[0] != '\\';
      }
      assert [s[0]] + s[1..] == s;
    }
  }

  /** An element of a derived pattern: a literal character or a placeholder's hole. */
  datatype Token = Lit(c: char) | Hole(stop: Option<char>)

  type Pattern = seq<Token>

  /** The pattern of a literal text: one literal token per character. */
  function Literal(s: string): (p: Pattern)
    ensures |p| == |s|
    ensures forall i :: 0 <= i < |s| ==> p[i] == Lit(s[i])
  {
    seq(|s|, i requires 0 <= i < |s| => Lit(s[i]))
  }

  /** The stop characters of a pattern's holes, in order: one capture group each. */
  function Holes(p: Pattern): seq<Option<char>>
  {
    if p == [] then []
    else (if p[0].Hole? then [p[0].stop] else []) + Holes(p[1..])
  }

  lemma {:induction false} HolesAppend(a: Pattern, b: Pattern)
    ensures Holes(a + b) == Holes(a) + Holes(b)
  {
    if a != [] {
      assert (a + b)[0] == a[0];
      assert (a + b)[1..] == a[1..] + b;
      HolesAppend(a[1..], b);
      assert Holes(a + b) == (if a[0].Hole? then [a[0].stop] else []) + Holes(a[1..] + b);
    } else {
      assert a + b == b;
    }
  }

  lemma {:induction false} HolesOfLiterals(p: Pattern)
    requires forall i :: 0 <= i < |p| ==> p[i].Lit?
    ensures Holes(p) == []
  {
    if p != [] {
      HolesOfLiterals(p[1..]);
    }
  }

  /** The placeholder text occurs at token index i as literal tokens. */
  predicate TokOccursAt(p: Pattern, ph: string, i: int) {
    0 <= i && i + |ph| <= |p| && forall j :: 0 <= j < |ph| ==> p[i + j] == Lit(ph[j])
  }

  /** The first literal occurrence of ph at or after token index i, or -1. */
  function TokIndexFrom(p: Pattern, ph: string, i: nat): (r: int)
    requires i <= |p|
    decreases |p| - i
    ensures r == -1 || (i <= r && TokOccursAt(p, ph, r))
    ensures r == -1 ==> forall j :: i <= j <= |p| ==> !TokOccursAt(p, ph, j)
    ensures r >= 0 ==> forall j :: i <= j < r ==> !TokOccursAt(p, ph, j)
  {
    if TokOccursAt(p, ph, i) then i else if i == |p| then -1 else TokIndexFrom(p, ph, i + 1)
  }

  /** `.replace(placeholder, group)` on the escaped template: only the first occurrence. */
  function ReplaceToken(p: Pattern, ph: string, h: Token): Pattern
  {
    var i := TokIndexFrom(p, ph, 0);
    if i < 0 then p else p[..i] + [h] + p[i + |ph|..]
  }

  /** `markup[markup.indexOf(ph) + ph.length]`, None when undefined. */
  function CharAfter(markup: string, ph: string): Option<char>
  {
    var i := IndexOf(markup, ph) + |ph|;
    if 0 <= i < |markup| then Some(markup[i]) else None
  }

  /** `markupToRegex`: the display placeholder is replaced first, then the id placeholder. */
  function MarkupToRegex(markup: string): Pattern
  {
    var withDisplay := ReplaceToken(Literal(markup), DisplayPlaceholder, Hole(CharAfter(markup, DisplayPlaceholder)));
    ReplaceToken(withDisplay, IdPlaceholder, Hole(CharAfter(markup, IdPlaceholder)))
  }

  /** Both placeholders are used and their first occurrences share characters. */
  predicate PlaceholdersOverlap(markup: string) {
    var d := IndexOf(markup, DisplayPlaceholder);
    var i := IndexOf(markup, IdPlaceholder);
    d >= 0 && i >= 0 && !(d + |DisplayPlaceholder| <= i || i + |IdPlaceholder| <= d)
  }

  /** A compiled source grammar: the pattern and the capture indices of id and display. */
  datatype Grammar = Grammar(pattern: Pattern, idGroup: nat, displayGroup: nat)

  predicate ValidGrammar(g: Grammar) {
    |Holes(g.pattern)| >= 1 && g.idGroup < |Holes(g.pattern)| && g.displayGroup < |Holes(g.pattern)|
  }

  /**
   * A template's grammar: the derived pattern with the capture indices of
   * `findIndexOfCapturingGroup`. A template without placeholders has no
   * capture indices (`findIndexOfCapturingGroup` fails its invariant on it),
   * so it compiles to no grammar here; the scan matches such a template
   * literally (see `PlaceholderlessPattern`). A template whose two
   * placeholders overlap is refused as well.
   */
  function Compile(markup: string): (r: Result<Grammar>)
    ensures r.Ok? ==> ValidGrammar(r.value)
  {
    if CountPlaceholders(markup) == 0 then Err(InvalidMarkupTemplate)
    else if PlaceholdersOverlap(markup) then Err(OverlappingPlaceholders)
    else
      CompiledHoles(markup, Id);
      CompiledHoles(markup, Display);
      Ok(Grammar(MarkupToRegex(markup),
                 FindIndexOfCapturingGroup(markup, Id).value,
                 FindIndexOfCapturingGroup(markup, Display).value))
  }

  /** Neither `.replace` finds a placeholder in a template without any: the pattern is the template's own characters. */
  lemma PlaceholderlessPattern(markup: string)
    requires CountPlaceholders(markup) == 0
    ensures MarkupToRegex(markup) == Literal(markup) && Holes(Literal(markup)) == []
  {
    TokIndexOfLiteral(markup, DisplayPlaceholder);
    TokIndexOfLiteral(markup, IdPlaceholder);
    HolesOfLiterals(Literal(markup));
  }

  // ---- The holes of a derived pattern follow the template ----

  lemma TokOccursInLiteral(s: string, ph: string, j: int)
    ensures TokOccursAt(Literal(s), ph, j) <==> OccursAt(s, ph, j)
  {
    if 0 <= j && j + |ph| <= |s| {
      if TokOccursAt(Literal(s), ph, j) {
        assert forall k :: 0 <= k < |ph| ==> s[j..j + |ph|][k] == ph[k];
      }
      if OccursAt(s, ph, j) {
        forall k | 0 <= k < |ph| ensures Literal(s)[j + k] == Lit(ph[k]) {
          assert s[j..j + |ph|][k] == s[j + k];
        }
      }
    }
  }

  lemma TokIndexOfLiteral(s: string, ph: string)
    ensures TokIndexFrom(Literal(s), ph, 0) == IndexOf(s, ph)
  {
    forall j ensures TokOccursAt(Literal(s), ph, j) <==> OccursAt(s, ph, j) {
      TokOccursInLiteral(s, ph, j);
    }
  }

  /**
   * In a pattern made of the literal text a, one hole h and the literal text b,
   * a placeholder that occurs as tokens lies wholly in a or wholly in b.
   */
  lemma TokOccursAroundHole(a: string, h: Token, b: string, ph: string, j: int)
    requires h.Hole?
    requires TokOccursAt(Literal(a) + [h] + Literal(b), ph, j)
    requires |ph| > 0
    ensures (j + |ph| <= |a| && OccursAt(a, ph, j)) || (j > |a| && OccursAt(b, ph, j - |a| - 1))
  {
    var p := Literal(a) + [h] + Literal(b);
    HoleBlocks(p, ph, j, |a|);
    if j + |ph| <= |a| {
      forall k | 0 <= k < |ph| ensures Literal(a)[j + k] == Lit(ph[k]) {
        assert p[j + k] == Lit(ph[k]);
      }
      assert TokOccursAt(Literal(a), ph, j);
      TokOccursInLiteral(a, ph, j);
    } else if j <= |a| {
      assert false;
    } else {
      var q := j - |a| - 1;
      forall k | 0 <= k < |ph| ensures Literal(b)[q + k] == Lit(ph[k]) {
        assert p[j + k] == Lit(ph[k]);
      }
      assert TokOccursAt(Literal(b), ph, q);
      TokOccursInLiteral(b, ph, q);
    }
  }

  /** A placeholder made of literal characters cannot cover a hole. */
  lemma HoleBlocks(p: Pattern, ph: string, j: int, m: int)
    requires 0 <= m < |p| && p[m].Hole?
    ensures j <= m < j + |ph| ==> !TokOccursAt(p, ph, j)
  {
    if 0 <= j <= m < j + |ph| && j + |ph| <= |p| {
      var k := m - j;
      assert p[j + k] != Lit(ph[k]);
    }
  }

  lemma FirstOccurrenceIsIndex(p: Pattern, ph: string, i: int)
    requires TokOccursAt(p, ph, i)
    requires forall j :: 0 <= j < i ==> !TokOccursAt(p, ph, j)
    ensures TokIndexFrom(p, ph, 0) == i
  {
  }

  lemma NoOccurrenceIsMinusOne(p: Pattern, ph: string)
    requires forall j :: 0 <= j <= |p| ==> !TokOccursAt(p, ph, j)
    ensures TokIndexFrom(p, ph, 0) == -1
  {
  }

  lemma HolesOfSplice(a: string, h: Token, b: string)
    requires h.Hole?
    ensures Holes(Literal(a) + [h] + Literal(b)) == [h.stop]
  {
    HolesAppend(Literal(a) + [h], Literal(b));
    HolesAppend(Literal(a), [h]);
    HolesOfLiterals(Literal(a));
    HolesOfLiterals(Literal(b));
    assert Holes([h]) == [h.stop] + Holes([h][1..]);
  }

  /** A second hole put in after the first one's literal tail. */
  lemma HolesOfSecondSplice(a: string, hd: Token, b: string, k: int, hi: Token)
    requires hd.Hole? && hi.Hole?
    requires |a| < k && k + 6 <= |a| + 1 + |b|
    ensures var p := Literal(a) + [hd] + Literal(b);
            Holes(p[..k] + [hi] + p[k + 6..]) == [hd.stop, hi.stop]
  {
    var p := Literal(a) + [hd] + Literal(b);
    var m := k - |a| - 1;
    assert p[..k] == Literal(a) + [hd] + Literal(b[..m]);
    assert p[k + 6..] == Literal(b[m + 6..]);
    HolesOfSplice(a, hd, b[..m]);
    HolesAppend(p[..k] + [hi], p[k + 6..]);
    HolesAppend(p[..k], [hi]);
    HolesOfLiterals(p[k + 6..]);
    assert Holes([hi]) == [hi.stop] + Holes([hi][1..]);
  }

  /** A hole put in before the first one, inside its literal head. */
  lemma HolesOfFirstSplice(a: string, hd: Token, b: string, k: int, hi: Token)
    requires hd.Hole? && hi.Hole?
    requires 0 <= k && k + 6 <= |a|
    ensures var p := Literal(a) + [hd] + Literal(b);
            Holes(p[..k] + [hi] + p[k + 6..]) == [hi.stop, hd.stop]
  {
    var p := Literal(a) + [hd] + Literal(b);
    assert p[..k] == Literal(a[..k]);
    assert p[k + 6..] == Literal(a[k + 6..]) + [hd] + Literal(b);
    HolesOfSplice(a[k + 6..], hd, b);
    HolesAppend(p[..k] + [hi], p[k + 6..]);
    HolesAppend(p[..k], [hi]);
    HolesOfLiterals(p[..k]);
    assert Holes([hi]) == [hi.stop] + Holes([hi][1..]);
  }

  /** Replacing the first occurrence of a placeholder in a literal template splits it around one hole. */
  lemma ReplaceInLiteral(markup: string, ph: string, h: Token)
    requires IndexOf(markup, ph) >= 0
    ensures var i := IndexOf(markup, ph);
            ReplaceToken(Literal(markup), ph, h) == Literal(markup[..i]) + [h] + Literal(markup[i + |ph|..])
  {
    TokIndexOfLiteral(markup, ph);
    var i := IndexOf(markup, ph);
    assert Literal(markup)[..i] == Literal(markup[..i]);
    assert Literal(markup)[i + |ph|..] == Literal(markup[i + |ph|..]);
  }

  /** The display hole in place, an id placeholder seen as tokens is one of the template's own. */
  lemma IdAfterDisplayHole(markup: string, j: int)
    requires IndexOf(markup, DisplayPlaceholder) >= 0
    requires var d := IndexOf(markup, DisplayPlaceholder);
             TokOccursAt(Literal(markup[..d]) + [Hole(CharAfter(markup, DisplayPlaceholder))] + Literal(markup[d + 11..]),
                         IdPlaceholder, j)
    ensures var d := IndexOf(markup, DisplayPlaceholder);
            (j + 6 <= d && OccursAt(markup, IdPlaceholder, j)) || (j > d && OccursAt(markup, IdPlaceholder, j + 10))
  {
    var d := IndexOf(markup, DisplayPlaceholder);
    var a, b := markup[..d], markup[d + 11..];
    TokOccursAroundHole(a, Hole(CharAfter(markup, DisplayPlaceholder)), b, IdPlaceholder, j);
    if j + 6 <= d {
      assert markup[j..j + 6] == a[j..j + 6];
    } else {
      assert markup[j + 10..j + 16] == b[j - d - 1..j - d + 5];
    }
  }

  lemma HolesIdOnly(markup: string)
    requires IndexOf(markup, DisplayPlaceholder) < 0 && IndexOf(markup, IdPlaceholder) >= 0
    ensures Holes(MarkupToRegex(markup)) == [CharAfter(markup, IdPlaceholder)]
  {
    var i := IndexOf(markup, IdPlaceholder);
    var hi := Hole(CharAfter(markup, IdPlaceholder));
    TokIndexOfLiteral(markup, DisplayPlaceholder);
    ReplaceInLiteral(markup, IdPlaceholder, hi);
    HolesOfSplice(markup[..i], hi, markup[i + 6..]);
  }

  lemma HolesDisplayOnly(markup: string)
    requires IndexOf(markup, DisplayPlaceholder) >= 0 && IndexOf(markup, IdPlaceholder) < 0
    ensures Holes(MarkupToRegex(markup)) == [CharAfter(markup, DisplayPlaceholder)]
  {
    var d := IndexOf(markup, DisplayPlaceholder);
    var hd := Hole(CharAfter(markup, DisplayPlaceholder));
    ReplaceInLiteral(markup, DisplayPlaceholder, hd);
    var p1 := Literal(markup[..d]) + [hd] + Literal(markup[d + 11..]);
    forall j | 0 <= j <= |p1| ensures !TokOccursAt(p1, IdPlaceholder, j) {
      if TokOccursAt(p1, IdPlaceholder, j) {
        IdAfterDisplayHole(markup, j);
      }
    }
    NoOccurrenceIsMinusOne(p1, IdPlaceholder);
    HolesOfSplice(markup[..d], hd, markup[d + 11..]);
  }

  /** The id placeholder, left before the display hole, is still a run of literals in the pattern. */
  lemma IdTokenAtIndex(markup: string, d: int, i: int, p1: seq<Token>)
    requires d == IndexOf(markup, DisplayPlaceholder) && i == IndexOf(markup, IdPlaceholder)
    requires 0 <= i && i + 6 <= d
    requires p1 == Literal(markup[..d]) + [Hole(CharAfter(markup, DisplayPlaceholder))] + Literal(markup[d + 11..])
    ensures TokOccursAt(p1, IdPlaceholder, i)
  {
    forall k | 0 <= k < 6 ensures p1[i + k] == Lit(IdPlaceholder[k]) {
      assert markup[i..i + 6][k] == markup[i + k];
    }
  }

  lemma IdTokenBeforeDisplayHole(markup: string)
    requires 0 <= IndexOf(markup, IdPlaceholder) && IndexOf(markup, IdPlaceholder) + 6 <= IndexOf(markup, DisplayPlaceholder)
    ensures var d := IndexOf(markup, DisplayPlaceholder);
            var p1 := Literal(markup[..d]) + [Hole(CharAfter(markup, DisplayPlaceholder))] + Literal(markup[d + 11..]);
            TokIndexFrom(p1, IdPlaceholder, 0) == IndexOf(markup, IdPlaceholder)
  {
    var d := IndexOf(markup, DisplayPlaceholder);
    var i := IndexOf(markup, IdPlaceholder);
    var p1 := Literal(markup[..d]) + [Hole(CharAfter(markup, DisplayPlaceholder))] + Literal(markup[d + 11..]);
    IdTokenAtIndex(markup, d, i, p1);
    forall j | 0 <= j < i ensures !TokOccursAt(p1, IdPlaceholder, j) {
      if TokOccursAt(p1, IdPlaceholder, j) {
        IdAfterDisplayHole(markup, j);
      }
    }
    FirstOccurrenceIsIndex(p1, IdPlaceholder, i);
  }

  lemma HolesIdFirst(markup: string)
    requires 0 <= IndexOf(markup, IdPlaceholder) && IndexOf(markup, IdPlaceholder) + 6 <= IndexOf(markup, DisplayPlaceholder)
    ensures Holes(MarkupToRegex(markup)) == [CharAfter(markup, IdPlaceholder), CharAfter(markup, DisplayPlaceholder)]
  {
    var d := IndexOf(markup, DisplayPlaceholder);
    var i := IndexOf(markup, IdPlaceholder);
    var hd := Hole(CharAfter(markup, DisplayPlaceholder));
    var hi := Hole(CharAfter(markup, IdPlaceholder));
    ReplaceInLiteral(markup, DisplayPlaceholder, hd);
    var b := markup[d + 11..];
    IdTokenBeforeDisplayHole(markup);
    HolesOfFirstSplice(markup[..d], hd, b, i, hi);
  }

  lemma IdTokenAfterDisplayHole(markup: string)
    requires 0 <= IndexOf(markup, DisplayPlaceholder) && IndexOf(markup, DisplayPlaceholder) + 11 <= IndexOf(markup, IdPlaceholder)
    ensures var d := IndexOf(markup, DisplayPlaceholder);
            var p1 := Literal(markup[..d]) + [Hole(CharAfter(markup, DisplayPlaceholder))] + Literal(markup[d + 11..]);
            TokIndexFrom(p1, IdPlaceholder, 0) == IndexOf(markup, IdPlaceholder) - 10
  {
    var d := IndexOf(markup, DisplayPlaceholder);
    var i := IndexOf(markup, IdPlaceholder);
    var p1 := Literal(markup[..d]) + [Hole(CharAfter(markup, DisplayPlaceholder))] + Literal(markup[d + 11..]);
    var k0 := i - 10;
    assert TokOccursAt(p1, IdPlaceholder, k0) by {
      forall k | 0 <= k < 6 ensures p1[k0 + k] == Lit(IdPlaceholder[k]) {
        assert markup[i..i + 6][k] == markup[i + k];
      }
    }
    forall j | 0 <= j < k0 ensures !TokOccursAt(p1, IdPlaceholder, j) {
      if TokOccursAt(p1, IdPlaceholder, j) {
        IdAfterDisplayHole(markup, j);
      }
    }
    FirstOccurrenceIsIndex(p1, IdPlaceholder, k0);
  }

  lemma HolesDisplayFirst(markup: string)
    requires 0 <= IndexOf(markup, DisplayPlaceholder) && IndexOf(markup, DisplayPlaceholder) + 11 <= IndexOf(markup, IdPlaceholder)
    ensures Holes(MarkupToRegex(markup)) == [CharAfter(markup, DisplayPlaceholder), CharAfter(markup, IdPlaceholder)]
  {
    var d := IndexOf(markup, DisplayPlaceholder);
    var hd := Hole(CharAfter(markup, DisplayPlaceholder));
    var hi := Hole(CharAfter(markup, IdPlaceholder));
    ReplaceInLiteral(markup, DisplayPlaceholder, hd);
    var p1 := Literal(markup[..d]) + [hd] + Literal(markup[d + 11..]);
    IdTokenAfterDisplayHole(markup);
    var k := IndexOf(markup, IdPlaceholder) - 10;
    assert MarkupToRegex(markup) == p1[..k] + [hi] + p1[k + 6..];
    HolesOfSecondSplice(markup[..d], hd, markup[d + 11..], k, hi);
  }

  /**
   * The derived pattern has one hole per placeholder, in the order the
   * placeholders appear, so the capture index `findIndexOfCapturingGroup`
   * gives each parameter is the hole made from that parameter's placeholder,
   * and that hole stops at the template character after the placeholder.
   */
  lemma CompiledHoles(markup: string, param: Param)
    requires CountPlaceholders(markup) >= 1 && !PlaceholdersOverlap(markup)
    ensures var holes := Holes(MarkupToRegex(markup));
            var g := FindIndexOfCapturingGroup(markup, param);
            && |holes| == CountPlaceholders(markup)
            && g.Ok? && g.value < |holes|
            && (Occurs(markup, param.Placeholder()) ==> holes[g.value] == CharAfter(markup, param.Placeholder()))
  {
    var d := IndexOf(markup, DisplayPlaceholder);
    var i := IndexOf(markup, IdPlaceholder);
    IndexOfFindsOccurrence(markup, DisplayPlaceholder);
    IndexOfFindsOccurrence(markup, IdPlaceholder);
    CapturingGroupFollowsOrder(markup, param);
    if d < 0 {
      HolesIdOnly(markup);
    } else if i < 0 {
      HolesDisplayOnly(markup);
    } else if i < d {
      HolesIdFirst(markup);
    } else {
      PlaceholdersStartApart(markup, i);
      HolesDisplayFirst(markup);
    }
  }

  // ---- The derived matcher ----

  /** A hole with this stop character may capture t: one or more characters, none of them the stop. */
  predicate CaptureOk(stop: Option<char>, t: string) {
    |t| > 0 && (stop.Some? ==> stop.value !in t)
  }

  /** The text a pattern stands for once its holes are filled with the captures. */
  function Fill(p: Pattern, caps: seq<string>): string
    requires |caps| == |Holes(p)|
  {
    if p == [] then []
    else match p[0]
      case Lit(c) => [c] + Fill(p[1..], caps)
      case Hole(_) => caps[0] + Fill(p[1..], caps[1..])
  }

  /** A successful match: where it ends and what each capture group holds. */
  datatype Match = Match(end: nat, captures: seq<string>)

  /** m is a way for p to match s from pos: the matched text is p filled with m's captures. */
  predicate Matches(p: Pattern, s: string, pos: nat, m: Match) {
    && pos <= m.end <= |s|
    && |m.captures| == |Holes(p)|
    && s[pos..m.end] == Fill(p, m.captures)
    && forall k :: 0 <= k < |m.captures| ==> CaptureOk(Holes(p)[k], m.captures[k])
  }

  /**
   * The derived regular expression anchored at pos: literals must match one
   * for one; a hole takes the shortest run that lets the rest match,
   * backtracking to longer runs as `+?` does.
   */
  function MatchFrom(p: Pattern, s: string, pos: nat): (r: Option<Match>)
    requires pos <= |s|
    decreases |p|, |s| - pos
    ensures r.Some? ==> pos + |Holes(p)| <= r.value.end <= |s| && |r.value.captures| == |Holes(p)|
  {
    if p == [] then Some(Match(pos, []))
    else match p[0]
      case Lit(c) =>
        if pos < |s| && s[pos] == c then MatchFrom(p[1..], s, pos + 1) else None
      case Hole(stop) =>
        if pos < |s| && stop != Some(s[pos]) then ExtendHole(stop, p[1..], s, pos, pos + 1) else None
  }

  /** The hole opened at start currently holds s[start..k]; try the rest, else take one more character. */
  function ExtendHole(stop: Option<char>, rest: Pattern, s: string, start: nat, k: nat): (r: Option<Match>)
    requires start < k <= |s|
    decreases |rest| + 1, |s| - k
    ensures r.Some? ==> k + |Holes(rest)| <= r.value.end <= |s| && |r.value.captures| == |Holes(rest)| + 1
  {
    match MatchFrom(rest, s, k)
    case Some(m) => Some(Match(m.end, [s[start..k]] + m.captures))
    case None =>
      if k < |s| && stop != Some(s[k]) then ExtendHole(stop, rest, s, start, k + 1) else None
  }

  lemma HolesCons(t: Token, rest: Pattern)
    ensures Holes([t] + rest) == (if t.Hole? then [t.stop] else []) + Holes(rest)
  {
    assert ([t] + rest)[0] == t;
    assert ([t] + rest)[1..] == rest;
  }

  /** A pattern without holes matches exactly as many characters as it has tokens. */
  lemma {:induction false} MatchFromLiterals(p: Pattern, s: string, pos: nat)
    requires pos <= |s| && Holes(p) == []
    decreases |p|
    ensures MatchFrom(p, s, pos).Some? ==> MatchFrom(p, s, pos).value.end == pos + |p|
  {
    if p != [] {
      assert p == [p[0]] + p[1..];
      HolesCons(p[0], p[1..]);
      if pos < |s| {
        MatchFromLiterals(p[1..], s, pos + 1);
      }
    }
  }

  /** Every match MatchFrom reports is a genuine match of the pattern. */
  lemma {:induction false} MatchFromSound(p: Pattern, s: string, pos: nat)
    requires pos <= |s|
    decreases |p|, |s| - pos
    ensures MatchFrom(p, s, pos).Some? ==> Matches(p, s, pos, MatchFrom(p, s, pos).value)
  {
    if p != [] && MatchFrom(p, s, pos).Some? {
      assert p == [p[0]] + p[1..];
      match p[0]
      case Lit(c) =>
        MatchFromSound(p[1..], s, pos + 1);
        LiteralStep(c, p[1..], s, pos, MatchFrom(p, s, pos).value);
      case Hole(stop) =>
        assert CaptureOk(stop, s[pos..pos + 1]);
        ExtendHoleSound(stop, p[1..], s, pos, pos + 1);
    }
  }

  /** A literal matching s[pos] extends a match of the rest from pos + 1. */
  lemma LiteralStep(c: char, rest: Pattern, s: string, pos: nat, m: Match)
    requires pos < |s| && s[pos] == c && Matches(rest, s, pos + 1, m)
    ensures Matches([Lit(c)] + rest, s, pos, m)
  {
    var p := [Lit(c)] + rest;
    HolesCons(Lit(c), rest);
    assert p[0] == Lit(c) && p[1..] == rest;
    assert Fill(p, m.captures) == [c] + Fill(rest, m.captures);
    assert s[pos..m.end] == [s[pos]] + s[pos + 1..m.end];
  }

  /** A hole holding s[start..k] extends a match of the rest from k. */
  lemma HoleStep(stop: Option<char>, rest: Pattern, s: string, start: nat, k: nat, m: Match)
    requires start < k <= |s| && CaptureOk(stop, s[start..k]) && Matches(rest, s, k, m)
    ensures Matches([Hole(stop)] + rest, s, start, Match(m.end, [s[start..k]] + m.captures))
  {
    var p := [Hole(stop)] + rest;
    HolesCons(Hole(stop), rest);
    assert p[0] == Hole(stop) && p[1..] == rest;
    var caps := [s[start..k]] + m.captures;
    assert caps[0] == s[start..k] && caps[1..] == m.captures;
    assert s[start..m.end] == s[start..k] + s[k..m.end];
    assert Fill(p, caps) == s[start..k] + Fill(rest, m.captures);
    assert forall j :: 1 <= j < |caps| ==> caps[j] == m.captures[j - 1] && Holes(p)[j] == Holes(rest)[j - 1];
  }

  lemma {:induction false} ExtendHoleSound(stop: Option<char>, rest: Pattern, s: string, start: nat, k: nat)
    requires start < k <= |s|
    requires CaptureOk(stop, s[start..k])
    decreases |rest| + 1, |s| - k
    ensures ExtendHole(stop, rest, s, start, k).Some? ==>
              Matches([Hole(stop)] + rest, s, start, ExtendHole(stop, rest, s, start, k).value)
  {
    match MatchFrom(rest, s, k)
    case Some(m) =>
      MatchFromSound(rest, s, k);
      HoleStep(stop, rest, s, start, k, m);
    case None =>
      if k < |s| && stop != Some(s[k]) {
        assert s[start..k + 1] == s[start..k] + [s[k]];
        ExtendHoleSound(stop, rest, s, start, k + 1);
      }
  }

  /** A slice that is the concatenation x + y splits into a slice holding x and one holding y. */
  lemma SliceSplits(s: string, a: nat, b: nat, x: string, y: string)
    requires a <= b <= |s| && s[a..b] == x + y
    ensures a + |x| <= b && s[a..a + |x|] == x && s[a + |x|..b] == y
  {
    assert |x| + |y| == b - a;
    forall i | 0 <= i < |x| ensures s[a..a + |x|][i] == x[i] {
      assert s[a..b][i] == (x + y)[i];
    }
    forall i | 0 <= i < |y| ensures s[a + |x|..b][i] == y[i] {
      assert s[a..b][|x| + i] == (x + y)[|x| + i];
    }
  }

  /** MatchFrom misses no match: whenever the pattern can match at pos, it reports one. */
  lemma {:induction false} MatchFromComplete(p: Pattern, s: string, pos: nat, m: Match)
    requires pos <= |s|
    requires Matches(p, s, pos, m)
    decreases |p|, |s| - pos
    ensures MatchFrom(p, s, pos).Some?
  {
    if p != [] {
      assert p == [p[0]] + p[1..];
      HolesCons(p[0], p[1..]);
      match p[0]
      case Lit(c) =>
        assert Fill(p, m.captures) == [c] + Fill(p[1..], m.captures);
        assert s[pos..m.end][0] == s[pos];
        assert s[pos + 1..m.end] == s[pos..m.end][1..];
        MatchFromComplete(p[1..], s, pos + 1, m);
      case Hole(stop) =>
        var cap := m.captures[0];
        assert CaptureOk(stop, cap);
        var rest := Match(m.end, m.captures[1..]);
        assert Fill(p, m.captures) == cap + Fill(p[1..], rest.captures);
        var e := pos + |cap|;
        assert s[pos..m.end] == cap + Fill(p[1..], rest.captures);
        SliceSplits(s, pos, m.end, cap, Fill(p[1..], rest.captures));
        assert Matches(p[1..], s, e, rest) by {
          forall k | 0 <= k < |rest.captures|
            ensures CaptureOk(Holes(p[1..])[k], rest.captures[k])
          {
            assert Holes(p)[k + 1] == Holes(p[1..])[k];
            assert rest.captures[k] == m.captures[k + 1];
          }
        }
        assert s[pos] == cap[0];
        ExtendHoleReaches(stop, p[1..], s, pos, pos + 1, rest);
    }
  }

  /**
   * Growing the hole from s[start..k] will reach the capture s[start..m-start]
   * of a known match unless it finds an earlier one first.
   */
  lemma {:induction false} ExtendHoleReaches(stop: Option<char>, rest: Pattern, s: string, start: nat, k: nat, m: Match)
    requires start < k <= |s|
    requires exists e :: k <= e <= |s| && CaptureOk(stop, s[start..e]) && Matches(rest, s, e, m)
    decreases |rest| + 1, |s| - k
    ensures ExtendHole(stop, rest, s, start, k).Some?
  {
    var e :| k <= e <= |s| && CaptureOk(stop, s[start..e]) && Matches(rest, s, e, m);
    if MatchFrom(rest, s, k).None? {
      if e == k {
        MatchFromComplete(rest, s, k, m);
      } else {
        assert s[k] == s[start..e][k - start];
        ExtendHoleReaches(stop, rest, s, start, k + 1, m);
      }
    }
  }

  /**
   * A hole whose stop character is the literal right after it (`[^c]+?c`)
   * captures exactly the run up to the first c, and the match goes on after
   * that c.
   */
  lemma {:induction false} HoleRunsToDelimiter(c: char, rest: Pattern, s: string, start: nat, k: nat, j: nat)
    requires start < k <= j < |s|
    requires s[j] == c && forall i :: start <= i < j ==> s[i] != c
    decreases j - k
    ensures var r := ExtendHole(Some(c), [Lit(c)] + rest, s, start, k);
            var q := MatchFrom(rest, s, j + 1);
            && (q.None? ==> r.None?)
            && (q.Some? ==> r == Some(Match(q.value.end, [s[start..j]] + q.value.captures)))
  {
    var p := [Lit(c)] + rest;
    if k < j {
      HoleSkipsNonDelimiter(c, rest, s, start, k);
      HoleRunsToDelimiter(c, rest, s, start, k + 1, j);
    } else {
      assert p[0] == Lit(c) && p[1..] == rest;
      assert MatchFrom(p, s, k) == MatchFrom(rest, s, j + 1);
    }
  }

  lemma HoleSkipsNonDelimiter(c: char, rest: Pattern, s: string, start: nat, k: nat)
    requires start < k < |s| && s[k] != c
    ensures ExtendHole(Some(c), [Lit(c)] + rest, s, start, k) == ExtendHole(Some(c), [Lit(c)] + rest, s, start, k + 1)
  {
    var p := [Lit(c)] + rest;
    assert p[0] == Lit(c);
    assert MatchFrom(p, s, k) == None;
  }

  /** `@\[([^\]]+?)\]\(([^\)]+?)\)`: the pattern derived from the default template. */
  const DefaultPattern: Pattern :=
    [Lit('@'), Lit('['), Hole(Some(']')), Lit(']'), Lit('('), Hole(Some(')')), Lit(')')]

  /**
   * The default template `@[__display__](__id__)` compiles to DefaultPattern,
   * with the display in capture 0 and the id in capture 1.
   */
  lemma DefaultTemplateGrammar()
    ensures Compile(DefaultMarkupTemplate) == Ok(Grammar(DefaultPattern, 1, 0))
  {
    var t := DefaultMarkupTemplate;
    DefaultPlaceholderIndices();
    IndexOfFindsOccurrence(t, IdPlaceholder);
    IndexOfFindsOccurrence(t, DisplayPlaceholder);
    DefaultPatternDerived();
  }

  lemma DefaultPlaceholderIndices()
    ensures IndexOf(DefaultMarkupTemplate, DisplayPlaceholder) == 2
    ensures IndexOf(DefaultMarkupTemplate, IdPlaceholder) == 15
  {
    var t := DefaultMarkupTemplate;
    assert OccursAt(t, DisplayPlaceholder, 2);
    assert t[0..11][0] == '@' && t[1..12][0] == '[';
    assert OccursAt(t, IdPlaceholder, 15);
    forall j | 0 <= j < 15 ensures !OccursAt(t, IdPlaceholder, j) {
      if j + 6 <= |t| {
        assert t[j..j + 6][0] == t[j] && t[j..j + 6][1] == t[j + 1] && t[j..j + 6][2] == t[j + 2];
      }
    }
  }

  lemma DefaultPatternDerived()
    ensures MarkupToRegex(DefaultMarkupTemplate) == DefaultPattern
  {
    var t := DefaultMarkupTemplate;
    DefaultPlaceholderIndices();
    var hd := Hole(CharAfter(t, DisplayPlaceholder));
    assert hd == Hole(Some(']'));
    assert CharAfter(t, IdPlaceholder) == Some(')');
    ReplaceInLiteral(t, DisplayPlaceholder, hd);
    IdTokenAfterDisplayHole(t);
    DefaultPieces();
  }

  lemma DefaultPieces()
    ensures var t := DefaultMarkupTemplate;
            var p1 := Literal(t[..2]) + [Hole(Some(']'))] + Literal(t[13..]);
            p1[..5] + [Hole(Some(')'))] + p1[11..] == DefaultPattern
  {
    var t := DefaultMarkupTemplate;
    var p1 := Literal(t[..2]) + [Hole(Some(']'))] + Literal(t[13..]);
    assert |p1| == 12;
    assert t[0] == '@' && t[1] == '[' && t[13] == ']' && t[14] == '(' && t[21] == ')';
    assert p1[0] == Lit('@') && p1[1] == Lit('[') && p1[3] == Lit(']') && p1[4] == Lit('(') && p1[11] == Lit(')');
    assert p1[..5] == [Lit('@'), Lit('['), Hole(Some(']')), Lit(']'), Lit('(')];
    assert p1[11..] == [Lit(')')];
  }
}
