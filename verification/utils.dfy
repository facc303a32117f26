/**
 * lib/utils.ts: the label formatter `formatMachineNames`, the line segmenter
 * inside `parseText`, and the per-post mapping of `fetchData`.
 *
 * `parseText` hands its input to the browser's `DOMParser`; here the parser's
 * output is the input: the body's text content and, for each `<br>` in
 * document order, the text length of its previous sibling (`None` when the
 * `<br>` has no previous sibling).
 */
module Utils {
  import opened Js

  // ---------------------------------------------------------------------------
  // formatMachineNames
  // ---------------------------------------------------------------------------

  /** `/[_-]/g` replaced by a space, on one character. */
  function Readable(c: char): char {
    if c == '_' || c == '-' then ' ' else c
  }

  /** `text.replace(/[_-]/g, " ")`. */
  function ReplaceSeparators(s: string): (r: string)
    ensures |r| == |s| && forall i | 0 <= i < |s| :: r[i] == Readable(s[i])
  {
    seq(|s|, i requires 0 <= i < |s| => Readable(s[i]))
  }

  /** `word.charAt(0).toUpperCase() + word.slice(1)`. */
  function UpperFirst(word: string): string {
    if word == "" then "" else [ToUpper(word[0])] + word[1..]
  }

  /** `words.map(UpperFirst)`. */
  function UpperFirstAll(words: seq<string>): (r: seq<string>)
    ensures |r| == |words|
  {
    if words == [] then [] else [UpperFirst(words[0])] + UpperFirstAll(words[1..])
  }

  /** `s.split(" ").map(UpperFirst).join(" ")`. */
  function CapitalizeWords(s: string): string {
    Join(UpperFirstAll(Split(s, ' ')), ' ')
  }

  /** An override is used only when the map has a truthy (non-empty) entry for the key. */
  predicate HasOverride(text: string, specialCases: map<string, string>) {
    text in specialCases && specialCases[text] != ""
  }

  /** `formatMachineNames(text, specialCases)`. */
  function FormatMachineNames(text: string, specialCases: map<string, string>): (r: string)
    ensures HasOverride(text, specialCases) ==> r == specialCases[text]
    ensures !HasOverride(text, specialCases) ==> |r| == |text|
  {
    if HasOverride(text, specialCases) then specialCases[text]
    else
      TitleCaseIsCapitalizeWords(ReplaceSeparators(text));
      CapitalizeWords(ReplaceSeparators(text))
  }

  /**
   * Reference definition of word capitalisation, one character at a time:
   * a character is upper-cased exactly when it starts a word, that is, when
   * it is first (`atStart`) or follows a space.
   */
  function TitleCase(s: string, atStart: bool): (r: string)
    ensures |r| == |s|
  {
    if s == "" then ""
    else [if atStart then ToUpper(s[0]) else s[0]] + TitleCase(s[1..], s[0] == ' ')
  }

  predicate StartsWord(s: string, i: nat)
    requires i < |s|
  {
    i == 0 || s[i - 1] == ' '
  }

  lemma {:induction false} TitleCaseAt(s: string, atStart: bool, i: nat)
    requires i < |s|
    ensures TitleCase(s, atStart)[i] ==
              if (if i == 0 then atStart else s[i - 1] == ' ') then ToUpper(s[i]) else s[i]
  {
    if i > 0 {
      TitleCaseAt(s[1..], s[0] == ' ', i - 1);
    }
  }

  lemma JoinCons(x: string, tail: seq<string>, c: char)
    ensures Join([[c] + x] + tail, ' ') == [c] + Join([x] + tail, ' ')
  {
    assert ([[c] + x] + tail)[1..] == tail;
    assert ([x] + tail)[1..] == tail;
  }

  /**
   * Splitting at spaces, capitalising every word but (unless `atStart`) the
   * first, and joining again is TitleCase.
   */
  lemma {:induction false} SplitCapitalizeJoin(s: string, atStart: bool)
    ensures var ws := Split(s, ' ');
            Join([if atStart then UpperFirst(ws[0]) else ws[0]] + UpperFirstAll(ws[1..]), ' ')
              == TitleCase(s, atStart)
  {
    if s != "" {
      var rest := Split(s[1..], ' ');
      if s[0] == ' ' {
        SplitCapitalizeJoin(s[1..], true);
        assert Split(s, ' ') == [""] + rest;
        var tail := UpperFirstAll(rest);
        assert tail == [UpperFirst(rest[0])] + UpperFirstAll(rest[1..]);
        assert ([""] + tail)[1..] == tail;
        assert Join([""] + tail, ' ') == " " + Join(tail, ' ');
      } else {
        SplitCapitalizeJoin(s[1..], false);
        var first := [s[0]] + rest[0];
        assert Split(s, ' ') == [first] + rest[1..];
        assert UpperFirst(first) == [ToUpper(s[0])] + rest[0];
        JoinCons(rest[0], UpperFirstAll(rest[1..]), if atStart then ToUpper(s[0]) else s[0]);
      }
    }
  }

  lemma TitleCaseIsCapitalizeWords(s: string)
    ensures CapitalizeWords(s) == TitleCase(s, true)
  {
    SplitCapitalizeJoin(s, true);
    var ws := Split(s, ' ');
    assert UpperFirstAll(ws) == [UpperFirst(ws[0])] + UpperFirstAll(ws[1..]);
  }

  /**
   * Without a truthy override, every `_` and `-` becomes a space, a character
   * that starts a space-separated word is upper-cased, and every other
   * character is kept as it is (the rest of a word is not lower-cased).
   */
  lemma FormatMachineNamesWords(text: string, specialCases: map<string, string>)
    requires !HasOverride(text, specialCases)
    ensures var r := FormatMachineNames(text, specialCases);
            var s := ReplaceSeparators(text);
            |r| == |text| &&
            forall i | 0 <= i < |text| ::
              r[i] == if StartsWord(s, i) then ToUpper(Readable(text[i])) else Readable(text[i])
  {
    var s := ReplaceSeparators(text);
    TitleCaseIsCapitalizeWords(s);
    forall i | 0 <= i < |text|
      ensures TitleCase(s, true)[i] == if StartsWord(s, i) then ToUpper(s[i]) else s[i]
    {
      TitleCaseAt(s, true, i);
    }
  }

  /** Without a truthy override, the label has no `_` and no `-`. */
  lemma FormatMachineNamesNoSeparators(text: string, specialCases: map<string, string>)
    requires !HasOverride(text, specialCases)
    ensures var r := FormatMachineNames(text, specialCases);
            forall i | 0 <= i < |r| :: r[i] != '_' && r[i] != '-'
  {
    FormatMachineNamesWords(text, specialCases);
  }

  /** An override mapped to "" is falsy: the key is formatted as if there were none. */
  lemma EmptyOverrideFallsThrough(text: string, specialCases: map<string, string>)
    requires text in specialCases && specialCases[text] == ""
    ensures FormatMachineNames(text, specialCases) == FormatMachineNames(text, map[])
  {
  }

  lemma {:induction false} TitleCaseIdempotent(s: string, atStart: bool)
    ensures TitleCase(TitleCase(s, atStart), atStart) == TitleCase(s, atStart)
  {
    if s != "" {
      var t := TitleCase(s, atStart);
      TitleCaseIdempotent(s[1..], s[0] == ' ');
      assert t[0] == ' ' <==> s[0] == ' ';
      assert t[1..] == TitleCase(s[1..], s[0] == ' ');
    }
  }

  /** Formatting a label twice (with no overrides) gives the label again. */
  lemma FormatMachineNamesIdempotent(text: string)
    ensures var once := FormatMachineNames(text, map[]);
            FormatMachineNames(once, map[]) == once
  {
    var s := ReplaceSeparators(text);
    var once := FormatMachineNames(text, map[]);
    TitleCaseIsCapitalizeWords(s);
    FormatMachineNamesNoSeparators(text, map[]);
    assert ReplaceSeparators(once) == once;
    TitleCaseIsCapitalizeWords(once);
    TitleCaseIdempotent(s, true);
  }

  /** Inside a word, TitleCase keeps every character. */
  lemma {:induction false} TitleCaseInsideWord(w: string)
    requires forall i | 0 <= i < |w| :: w[i] != ' '
    ensures TitleCase(w, false) == w
  {
    if w != "" {
      TitleCaseInsideWord(w[1..]);
    }
  }

  /** TitleCase works left to right: the second part starts a word when the first ends with a space. */
  lemma {:induction false} TitleCaseAppend(a: string, b: string, atStart: bool)
    ensures TitleCase(a + b, atStart)
              == TitleCase(a, atStart) + TitleCase(b, if a == "" then atStart else a[|a| - 1] == ' ')
  {
    if a == "" {
      assert a + b == b;
    } else {
      assert (a + b)[1..] == a[1..] + b;
      TitleCaseAppend(a[1..], b, a[0] == ' ');
    }
  }

  /** Two space-free words separated by one space: each gets its first letter upper-cased. */
  lemma TitleCaseTwoWords(w1: string, w2: string)
    requires w1 != "" && w2 != ""
    requires forall i | 0 <= i < |w1| :: w1[i] != ' '
    requires forall i | 0 <= i < |w2| :: w2[i] != ' '
    ensures TitleCase(w1 + " " + w2, true) == UpperFirst(w1) + " " + UpperFirst(w2)
  {
    TitleCaseAppend(w1, " " + w2, true);
    TitleCaseInsideWord(w1[1..]);
    TitleCaseInsideWord(w2[1..]);
    assert (" " + w2)[1..] == w2;
    assert w1 + " " + w2 == w1 + (" " + w2);
  }

  lemma FuelTypeTitleCase()
    ensures TitleCase("fuel type", true) == "Fuel Type"
  {
    assert "fuel type" == "fuel" + " " + "type";
    TitleCaseTwoWords("fuel", "type");
    assert UpperFirst("fuel") == "Fuel";
    assert UpperFirst("type") == "Type";
  }

  /** A machine name with an underscore, with and without an override. */
  lemma FormatMachineNamesExample()
    ensures FormatMachineNames("fuel_type", map[]) == "Fuel Type"
    ensures FormatMachineNames("fuel_type", map["fuel_type" := "Carburant"]) == "Carburant"
  {
    var s := ReplaceSeparators("fuel_type");
    assert s == "fuel type";
    TitleCaseIsCapitalizeWords(s);
    FuelTypeTitleCase();
  }

  // ---------------------------------------------------------------------------
  // parseText: the line segmenter
  // ---------------------------------------------------------------------------

  const NullSibling := "Cannot read properties of null (reading 'textContent')"

  /**
   * The untrimmed pieces `parseText` cuts `text` into, starting at `from`: one
   * piece `text.substring(from, cut)` per `<br>` cut, after which the next
   * piece starts at that cut, then `text.substring(lastCut)`.
   */
  function Segments(text: string, from: int, cuts: seq<nat>): (r: seq<string>)
    ensures |r| == |cuts| + 1
    decreases |cuts|
  {
    if cuts == [] then [Substring(text, from, |text|)]
    else [Substring(text, from, cuts[0])] + Segments(text, cuts[0], cuts[1..])
  }

  /** Every `<br>` has a previous sibling, so every cut can be read. */
  predicate AllPresent(cuts: seq<Option<nat>>) {
    forall i | 0 <= i < |cuts| :: cuts[i].Some?
  }

  /** The cut offsets, where present (a missing one reads as 0 and is never used). */
  function CutValues(cuts: seq<Option<nat>>): seq<nat> {
    seq(|cuts|, i requires 0 <= i < |cuts| => if cuts[i].Some? then cuts[i].value else 0)
  }

  /** Every offset present: the cuts of a body whose `<br>`s are all located. */
  function Present(offsets: seq<nat>): (r: seq<Option<nat>>)
    ensures AllPresent(r) && CutValues(r) == offsets
  {
    seq(|offsets|, i requires 0 <= i < |offsets| => Some(offsets[i]))
  }

  /** `lines.map(l => l.trim())`. */
  function TrimAll(lines: seq<string>): seq<string> {
    seq(|lines|, i requires 0 <= i < |lines| => Trim(lines[i]))
  }

  /** `lines.filter(line => line)`: the non-empty lines, in order. */
  function NonEmpty(lines: seq<string>): (r: seq<string>)
    ensures |r| <= |lines|
  {
    if lines == [] then []
    else (if lines[0] == "" then [] else [lines[0]]) + NonEmpty(lines[1..])
  }

  /** The filter keeps exactly the non-empty lines. */
  lemma {:induction false} NonEmptyMembers(lines: seq<string>)
    ensures forall l | l in NonEmpty(lines) :: l in lines && l != ""
    ensures forall l | l in lines && l != "" :: l in NonEmpty(lines)
  {
    if lines != [] {
      NonEmptyMembers(lines[1..]);
      assert lines == [lines[0]] + lines[1..];
    }
  }

  /**
   * The result of `parseText` for a body with text `text` and `<br>` cuts
   * `cuts`: a `<br>` without a previous sibling (`None`) makes it throw.
   */
  function ParsedLines(text: string, cuts: seq<Option<nat>>): (r: Completion<seq<string>>)
    ensures r.Throw? ==> r == Throw(NullSibling)
    ensures r.Normal? ==> AllPresent(cuts)
  {
    if AllPresent(cuts) then Normal(NonEmpty(TrimAll(Segments(text, 0, CutValues(cuts)))))
    else Throw(NullSibling)
  }

  /** The segmentation loop of `parseText`. */
  method ParseText(text: string, cuts: seq<Option<nat>>) returns (r: Completion<seq<string>>)
    ensures r == ParsedLines(text, cuts)
  {
    var lineBreaks: seq<string> := [];
    var lastIndex: int := 0;
    for i := 0 to |cuts|
      invariant Scanned(text, cuts, i, lineBreaks, lastIndex)
    {
      if cuts[i].None? {
        ScanThrows(text, cuts, i);
        return Throw(NullSibling);
      }
      var precedingText := Substring(text, lastIndex, cuts[i].value);
      ScanStep(text, cuts, i, lineBreaks, lastIndex);
      lineBreaks := lineBreaks + [Trim(precedingText)];
      lastIndex := cuts[i].value;
    }
    var rest := Substring(text, lastIndex, |text|);
    ScanDone(text, cuts, lineBreaks, lastIndex);
    lineBreaks := lineBreaks + [Trim(rest)];
    return Normal(NonEmpty(lineBreaks));
  }

  /**
   * The state of `ParseText` after `i` cuts: each was present, `lineBreaks`
   * holds the first `i` trimmed pieces, and `lastIndex` is where the next starts.
   */
  ghost predicate Scanned(text: string, cuts: seq<Option<nat>>, i: nat, lineBreaks: seq<string>, lastIndex: int) {
    && i <= |cuts|
    && (forall j | 0 <= j < i :: cuts[j].Some?)
    && lineBreaks == TrimAll(Segments(text, 0, CutValues(cuts)))[..i]
    && lastIndex == Start(CutValues(cuts), i)
  }

  lemma ScanStep(text: string, cuts: seq<Option<nat>>, i: nat, lineBreaks: seq<string>, lastIndex: int)
    requires i < |cuts| && cuts[i].Some? && Scanned(text, cuts, i, lineBreaks, lastIndex)
    ensures Scanned(text, cuts, i + 1,
                    lineBreaks + [Trim(Substring(text, lastIndex, cuts[i].value))], cuts[i].value)
  {
    LinesStep(text, CutValues(cuts), i);
  }

  lemma ScanThrows(text: string, cuts: seq<Option<nat>>, i: nat)
    requires i < |cuts| && cuts[i].None?
    ensures ParsedLines(text, cuts) == Throw(NullSibling)
  {
  }

  lemma ScanDone(text: string, cuts: seq<Option<nat>>, lineBreaks: seq<string>, lastIndex: int)
    requires Scanned(text, cuts, |cuts|, lineBreaks, lastIndex)
    ensures ParsedLines(text, cuts)
              == Normal(NonEmpty(lineBreaks + [Trim(Substring(text, lastIndex, |text|))]))
  {
    LinesLast(text, CutValues(cuts));
    assert AllPresent(cuts);
  }

  /** `parseText` throws exactly when some `<br>` has no previous sibling. */
  lemma ParsedLinesThrows(text: string, cuts: seq<Option<nat>>)
    ensures ParsedLines(text, cuts).Throw? <==> exists i | 0 <= i < |cuts| :: cuts[i].None?
  {
  }

  /** Where piece `i` starts: at the cut before it, or at 0. */
  function Start(offsets: seq<nat>, i: nat): int
    requires i <= |offsets|
  {
    if i == 0 then 0 else offsets[i - 1]
  }

  /** The loop of `ParseText` pushes the trimmed piece `i`. */
  lemma LinesStep(text: string, offsets: seq<nat>, i: nat)
    requires i < |offsets|
    ensures var lines := TrimAll(Segments(text, 0, offsets));
            lines[..i + 1] == lines[..i] + [Trim(Substring(text, Start(offsets, i), offsets[i]))]
  {
    SegmentAt(text, 0, offsets, i);
    TrimAllPrefix(Segments(text, 0, offsets), i);
  }

  /** The trimmed lines up to `i` extend those before `i` by the trim of piece `i`. */
  lemma TrimAllPrefix(pieces: seq<string>, i: nat)
    requires i < |pieces|
    ensures TrimAll(pieces)[..i + 1] == TrimAll(pieces)[..i] + [Trim(pieces[i])]
  {
    var lines := TrimAll(pieces);
    assert lines[..i + 1] == lines[..i] + [lines[i]];
  }

  /** After the loop, the trimmed rest of the text is the last line. */
  lemma LinesLast(text: string, offsets: seq<nat>)
    ensures var lines := TrimAll(Segments(text, 0, offsets));
            lines == lines[..|offsets|] + [Trim(Substring(text, Start(offsets, |offsets|), |text|))]
  {
    SegmentAt(text, 0, offsets, |offsets|);
    TrimAllLast(Segments(text, 0, offsets));
  }

  /** The last trimmed line is the trim of the last piece. */
  lemma TrimAllLast(pieces: seq<string>)
    requires pieces != []
    ensures TrimAll(pieces) == TrimAll(pieces)[..|pieces| - 1] + [Trim(pieces[|pieces| - 1])]
  {
    var lines := TrimAll(pieces);
    assert lines == lines[..|pieces| - 1] + [lines[|pieces| - 1]];
  }

  /** Piece `i` runs from the previous cut (or `from`) to cut `i` (or the end of the text). */
  lemma {:induction false} SegmentAt(text: string, from: int, offsets: seq<nat>, i: nat)
    requires i <= |offsets|
    ensures Segments(text, from, offsets)[i]
              == Substring(text, if i == 0 then from else offsets[i - 1],
                                 if i < |offsets| then offsets[i] else |text|)
    decreases i
  {
    if i > 0 {
      SegmentAt(text, offsets[0], offsets[1..], i - 1);
    }
  }

  /** No line of the result is empty, and every line equals its own trim. */
  lemma ParsedLinesClean(text: string, cuts: seq<Option<nat>>)
    ensures ParsedLines(text, cuts).Normal? ==>
              forall l | l in ParsedLines(text, cuts).value :: l != "" && Trim(l) == l
  {
    if AllPresent(cuts) {
      var pieces := Segments(text, 0, CutValues(cuts));
      var trimmed := TrimAll(pieces);
      NonEmptyMembers(trimmed);
      forall l | l in NonEmpty(trimmed)
        ensures l != "" && Trim(l) == l
      {
        var i :| 0 <= i < |trimmed| && trimmed[i] == l;
        TrimIdempotent(pieces[i]);
      }
    }
  }

  /** At most one line per `<br>`, plus one. */
  lemma ParsedLinesCount(text: string, cuts: seq<Option<nat>>)
    ensures ParsedLines(text, cuts).Normal? ==> |ParsedLines(text, cuts).value| <= |cuts| + 1
  {
  }

  /** Without `<br>`, the result is the trimmed text, or nothing when that is empty. */
  lemma ParsedLinesWithoutBreaks(text: string)
    ensures ParsedLines(text, []) == Normal(if Trim(text) == "" then [] else [Trim(text)])
  {
    assert CutValues([]) == [];
    assert Substring(text, 0, |text|) == text;
    assert Segments(text, 0, []) == [text];
    assert TrimAll([text]) == [Trim(text)];
    assert [Trim(text)][1..] == [];
    assert NonEmpty([Trim(text)]) == if Trim(text) == "" then [] else [Trim(text)];
  }

  // ---------------------------------------------------------------------------
  // parseText on a flat body: where the cut offsets come from
  // ---------------------------------------------------------------------------

  /** A child of `<body>`: a `<br>`, or any other node with its text content. */
  datatype Node = Br | Content(text: string)

  function TextOf(n: Node): string {
    if n.Br? then "" else n.text
  }

  /** `body.textContent`. */
  function TextContent(body: seq<Node>): string {
    if body == [] then "" else TextOf(body[0]) + TextContent(body[1..])
  }

  /**
   * The cut `parseText` reads at each `<br>` child, in document order:
   * `br.previousSibling.textContent.length`, the previous sibling's OWN length.
   */
  function SiblingCuts(body: seq<Node>, previous: Option<Node>): seq<Option<nat>> {
    if body == [] then []
    else
      var cut := match previous case None => None case Some(p) => Some(|TextOf(p)|);
      (if body[0].Br? then [cut] else []) + SiblingCuts(body[1..], Some(body[0]))
  }

  /**
   * As written: `parseText` on a body whose children are `body`. Only the
   * first child lacks a previous sibling, so it throws exactly when that
   * child is a `<br>`.
   */
  function ParseBody(body: seq<Node>): (r: Completion<seq<string>>)
    ensures r.Throw? <==> body != [] && body[0].Br?
  {
    FirstCutOnly(body);
    ParsedLines(TextContent(body), SiblingCuts(body, None))
  }

  lemma FirstCutOnly(body: seq<Node>)
    ensures AllPresent(SiblingCuts(body, None)) <==> !(body != [] && body[0].Br?)
  {
    if body != [] {
      var rest := SiblingCuts(body[1..], Some(body[0]));
      assert [body[0]] + body[1..] == body;
      PrependCut(body[0], body[1..], None);
      SiblingCutsPresent(body[1..], body[0]);
      if body[0].Br? {
        assert SiblingCuts(body, None) == [None] + rest;
        assert SiblingCuts(body, None)[0] == None;
      } else {
        assert SiblingCuts(body, None) == rest;
      }
    }
  }

  /** After the first child, every `<br>` has a previous sibling. */
  lemma {:induction false} SiblingCutsPresent(body: seq<Node>, previous: Node)
    ensures AllPresent(SiblingCuts(body, Some(previous)))
  {
    if body != [] {
      SiblingCutsPresent(body[1..], body[0]);
    }
  }

  /** The offset in `body.textContent` at which each `<br>` child stands. */
  function BreakOffsets(body: seq<Node>, before: nat): (r: seq<nat>)
    ensures forall i | 0 <= i < |r| :: before <= r[i] <= before + |TextContent(body)|
  {
    if body == [] then []
    else (if body[0].Br? then [before] else []) + BreakOffsets(body[1..], before + |TextOf(body[0])|)
  }

  /** The text between consecutive `<br>` children: one entry per `<br>`, plus one. */
  function BreakSeparatedText(body: seq<Node>): (r: seq<string>)
    ensures |r| >= 1
  {
    if body == [] then [""]
    else
      var rest := BreakSeparatedText(body[1..]);
      if body[0].Br? then [""] + rest else [body[0].text + rest[0]] + rest[1..]
  }

  /** Starting a segmentation earlier only lengthens its first piece. */
  lemma SegmentsShift(text: string, a: nat, b: nat, cuts: seq<nat>)
    requires a <= b <= |text|
    requires cuts == [] || b <= cuts[0] <= |text|
    ensures var pieces := Segments(text, b, cuts);
            Segments(text, a, cuts) == [text[a..b] + pieces[0]] + pieces[1..]
  {
    var end := if cuts == [] then |text| else cuts[0];
    assert Substring(text, b, end) == text[b..end];
    assert Substring(text, a, end) == text[a..b] + text[b..end];
  }

  /** Cutting at the `<br>` offsets yields exactly the text between consecutive breaks. */
  lemma {:induction false} SegmentsAtBreakOffsets(text: string, from: nat, body: seq<Node>)
    requires from <= |text| && text[from..] == TextContent(body)
    ensures Segments(text, from, BreakOffsets(body, from)) == BreakSeparatedText(body)
    decreases |body|
  {
    if body == [] {
      assert Substring(text, from, |text|) == "";
    } else if body[0].Br? {
      assert TextContent(body) == TextContent(body[1..]);
      SegmentsAtBreakOffsets(text, from, body[1..]);
      BreakStep(text, from, body);
    } else {
      var next := from + |body[0].text|;
      ContentSuffix(text, from, body);
      SegmentsAtBreakOffsets(text, next, body[1..]);
      ContentStep(text, from, body);
    }
  }

  /** After a content child, the rest of the text is the rest of the body's. */
  lemma ContentSuffix(text: string, from: nat, body: seq<Node>)
    requires from <= |text| && text[from..] == TextContent(body)
    requires body != [] && body[0].Content?
    ensures from + |body[0].text| <= |text|
    ensures text[from..from + |body[0].text|] == body[0].text
    ensures text[from + |body[0].text|..] == TextContent(body[1..])
  {
    var t := body[0].text;
    var next := from + |t|;
    assert TextContent(body) == t + TextContent(body[1..]);
    assert text[from..][|t|..] == text[next..];
    assert text[from..][..|t|] == text[from..next];
  }

  /** A leading `<br>` cuts an empty first piece. */
  lemma BreakStep(text: string, from: nat, body: seq<Node>)
    requires from <= |text| && body != [] && body[0].Br?
    requires Segments(text, from, BreakOffsets(body[1..], from)) == BreakSeparatedText(body[1..])
    ensures Segments(text, from, BreakOffsets(body, from)) == BreakSeparatedText(body)
  {
    var cuts := BreakOffsets(body, from);
    assert cuts == [from] + BreakOffsets(body[1..], from);
    assert Substring(text, from, from) == "";
  }

  /** A leading content child lengthens the first piece by its text. */
  lemma ContentStep(text: string, from: nat, body: seq<Node>)
    requires from <= |text| && text[from..] == TextContent(body)
    requires body != [] && body[0].Content?
    requires var next := from + |body[0].text|;
             Segments(text, next, BreakOffsets(body[1..], next)) == BreakSeparatedText(body[1..])
    ensures Segments(text, from, BreakOffsets(body, from)) == BreakSeparatedText(body)
  {
    var t := body[0].text;
    var next := from + |t|;
    ContentSuffix(text, from, body);
    var cuts := BreakOffsets(body[1..], next);
    assert BreakOffsets(body, from) == cuts;
    assert |text| == next + |TextContent(body[1..])|;
    SegmentsShift(text, from, next, cuts);
    var lines := BreakSeparatedText(body[1..]);
    assert BreakSeparatedText(body) == [t + lines[0]] + lines[1..];
  }

  /**
   * Corrected: `parseText` with each `<br>` cut at the offset where it stands
   * in the body text, instead of at its previous sibling's length.
   */
  function ParseBodyCorrected(body: seq<Node>): (r: Completion<seq<string>>)
    ensures r.Normal?
  {
    ParsedLines(TextContent(body), Present(BreakOffsets(body, 0)))
  }

  /** Corrected, the lines are the trimmed, non-empty texts between consecutive `<br>`s. */
  lemma ParseBodyCorrectedLines(body: seq<Node>)
    ensures ParseBodyCorrected(body) == Normal(NonEmpty(TrimAll(BreakSeparatedText(body))))
  {
    SegmentsAtBreakOffsets(TextContent(body), 0, body);
  }

  // Unfolding helpers for the examples below: one node, cut or line at a time.

  lemma PrependText(n: Node, rest: seq<Node>)
    ensures TextContent([n] + rest) == TextOf(n) + TextContent(rest)
  {
    assert ([n] + rest)[1..] == rest;
  }

  lemma PrependCut(n: Node, rest: seq<Node>, previous: Option<Node>)
    ensures var cut := match previous case None => None case Some(p) => Some(|TextOf(p)|);
            SiblingCuts([n] + rest, previous) == (if n.Br? then [cut] else []) + SiblingCuts(rest, Some(n))
  {
    assert ([n] + rest)[1..] == rest;
  }

  lemma PrependLine(n: Node, rest: seq<Node>)
    ensures var lines := BreakSeparatedText(rest);
            BreakSeparatedText([n] + rest) == if n.Br? then [""] + lines else [n.text + lines[0]] + lines[1..]
  {
    assert ([n] + rest)[1..] == rest;
  }

  lemma LastContent(t: string)
    ensures BreakSeparatedText([Content(t)]) == [t]
  {
    assert [Content(t)][1..] == [];
    assert t + "" == t;
  }

  lemma SegmentsCons(text: string, from: int, cut: nat, rest: seq<nat>)
    ensures Segments(text, from, [cut] + rest) == [Substring(text, from, cut)] + Segments(text, cut, rest)
  {
    assert ([cut] + rest)[1..] == rest;
  }

  lemma NonEmptyCons(line: string, rest: seq<string>)
    ensures NonEmpty([line] + rest) == (if line == "" then [] else [line]) + NonEmpty(rest)
  {
    assert ([line] + rest)[1..] == rest;
  }

  /** A string without white space at either end is its own trim. */
  predicate Clean(s: string) {
    s == [] || (!IsWhitespace(s[0]) && !IsWhitespace(s[|s| - 1]))
  }

  lemma TrimAllClean(lines: seq<string>)
    requires forall i | 0 <= i < |lines| :: Clean(lines[i])
    ensures TrimAll(lines) == lines
  {
    forall i | 0 <= i < |lines| ensures Trim(lines[i]) == lines[i] {
      var l := lines[i];
      assert TrimStart(l) == l;
    }
  }

  /** A line as the examples use it: not empty, and without white space at either end. */
  predicate Line(s: string) {
    s != "" && Clean(s)
  }

  /** Lines that are already clean pass through trimming and filtering unchanged. */
  lemma CleanLinesKept(a: string, b: string, c: string)
    requires Line(a) && Line(b) && Line(c)
    ensures NonEmpty(TrimAll([a, b, c])) == [a, b, c]
  {
    TrimAllClean([a, b, c]);
    var last: seq<string> := [c];
    var tail := [b] + last;
    assert [a, b, c] == [a] + tail;
    assert last == [c] + [];
    NonEmptyCons(c, []);
    NonEmptyCons(b, last);
    NonEmptyCons(a, tail);
  }

  /** With every `<br>` located, `parseText` trims the pieces and drops the empty ones. */
  lemma ParsedLinesPresent(text: string, offsets: seq<nat>)
    ensures ParsedLines(text, Present(offsets)) == Normal(NonEmpty(TrimAll(Segments(text, 0, offsets))))
  {
  }

  /** The body `a<br>b<br>c`. */
  function ThreeLines(a: string, b: string, c: string): seq<Node> {
    [Content(a), Br, Content(b), Br, Content(c)]
  }

  lemma ThreeLinesText(a: string, b: string, c: string)
    ensures TextContent(ThreeLines(a, b, c)) == a + b + c
  {
    var n5: seq<Node> := [Content(c)];
    var n4 := [Br] + n5;
    var n3 := [Content(b)] + n4;
    var n2 := [Br] + n3;
    assert ThreeLines(a, b, c) == [Content(a)] + n2;
    assert n5 == [Content(c)] + [];
    PrependText(Content(c), []);
    PrependText(Br, n5);
    PrependText(Content(b), n4);
    PrependText(Br, n3);
    PrependText(Content(a), n2);
    assert c + "" == c;
    assert a + (b + c) == a + b + c;
  }

  lemma ThreeLinesCuts(a: string, b: string, c: string)
    ensures SiblingCuts(ThreeLines(a, b, c), None) == Present([|a|, |b|])
  {
    var n5: seq<Node> := [Content(c)];
    var n4 := [Br] + n5;
    var n3 := [Content(b)] + n4;
    var n2 := [Br] + n3;
    assert ThreeLines(a, b, c) == [Content(a)] + n2;
    assert n5 == [Content(c)] + [];
    PrependCut(Content(c), [], Some(Br));
    PrependCut(Br, n5, Some(Content(b)));
    PrependCut(Content(b), n4, Some(Br));
    PrependCut(Br, n3, Some(Content(a)));
    PrependCut(Content(a), n2, None);
  }

  lemma ThreeLinesBetweenBreaks(a: string, b: string, c: string)
    ensures BreakSeparatedText(ThreeLines(a, b, c)) == [a, b, c]
  {
    var n5: seq<Node> := [Content(c)];
    var n4 := [Br] + n5;
    var n3 := [Content(b)] + n4;
    var n2 := [Br] + n3;
    assert ThreeLines(a, b, c) == [Content(a)] + n2;
    LastContent(c);
    PrependLine(Br, n5);
    PrependLine(Content(b), n4);
    assert b + "" == b;
    PrependLine(Br, n3);
    PrependLine(Content(a), n2);
    assert a + "" == a;
  }

  /** As written, the cuts are the lengths of `a` and of `b`: equal lengths leave an empty middle piece. */
  lemma ThreeLinesSegments(a: string, b: string, c: string)
    requires |a| == |b|
    ensures Segments(a + b + c, 0, [|a|, |b|]) == [a, "", b + c]
  {
    var text := a + b + c;
    var second: seq<nat> := [|b|];
    assert [|a|, |b|] == [|a|] + second && second == [|b|] + [];
    SegmentsCons(text, |a|, |b|, []);
    SegmentsCons(text, 0, |a|, second);
    assert Substring(text, 0, |a|) == text[0..|a|] == a;
    assert Substring(text, |a|, |b|) == "";
    assert Segments(text, |b|, []) == [Substring(text, |b|, |text|)];
    assert Substring(text, |b|, |text|) == text[|a|..] == b + c;
  }

  /** Two lines joined are a line. */
  lemma LineConcat(x: string, y: string)
    requires Line(x) && Line(y)
    ensures Line(x + y)
  {
    assert (x + y)[0] == x[0];
    assert (x + y)[|x + y| - 1] == y[|y| - 1];
  }

  /** An empty piece between two lines is filtered out. */
  lemma GapDropped(x: string, gap: string, y: string)
    requires Line(x) && gap == "" && Line(y)
    ensures NonEmpty(TrimAll([x, gap, y])) == [x, y]
  {
    TrimAllClean([x, gap, y]);
    var last: seq<string> := [y];
    var tail := [gap] + last;
    assert [x, gap, y] == [x] + tail;
    assert last == [y] + [];
    NonEmptyCons(y, []);
    NonEmptyCons(gap, last);
    NonEmptyCons(x, tail);
  }

  /**
   * As written, `a<br>b<br>c` with `a` and `b` of the same length loses a line
   * break: both cuts equal that length, so the middle piece is empty and `b`
   * and `c` merge (`A<br>B<br>C` gives "A" and "BC").
   */
  lemma ParseBodyMergesLines(a: string, b: string, c: string)
    requires Line(a) && Line(b) && Line(c) && |a| == |b|
    ensures ParseBody(ThreeLines(a, b, c)) == Normal([a, b + c])
  {
    ThreeLinesText(a, b, c);
    ThreeLinesCuts(a, b, c);
    ParsedLinesPresent(a + b + c, [|a|, |b|]);
    ThreeLinesSegments(a, b, c);
    LineConcat(b, c);
    GapDropped(a, "", b + c);
  }

  /** Corrected, `a<br>b<br>c` gives its three lines, whatever their lengths. */
  lemma ParseBodyCorrectedThreeLines(a: string, b: string, c: string)
    requires Line(a) && Line(b) && Line(c)
    ensures ParseBodyCorrected(ThreeLines(a, b, c)) == Normal([a, b, c])
  {
    ParseBodyCorrectedLines(ThreeLines(a, b, c));
    ThreeLinesBetweenBreaks(a, b, c);
    CleanLinesKept(a, b, c);
  }

  /** The body `a<br><br>b`: two breaks in a row. */
  function DoubleBreak(a: string, b: string): seq<Node> {
    [Content(a), Br, Br, Content(b)]
  }

  lemma DoubleBreakText(a: string, b: string)
    ensures TextContent(DoubleBreak(a, b)) == a + b
  {
    var n4: seq<Node> := [Content(b)];
    var n3 := [Br] + n4;
    var n2 := [Br] + n3;
    assert DoubleBreak(a, b) == [Content(a)] + n2;
    assert n4 == [Content(b)] + [];
    PrependText(Content(b), []);
    PrependText(Br, n4);
    PrependText(Br, n3);
    PrependText(Content(a), n2);
    assert b + "" == b;
  }
  lemma DoubleBreakCuts(a: string, b: string)
    ensures SiblingCuts(DoubleBreak(a, b), None) == Present([|a|, 0])
  {
    var n4: seq<Node> := [Content(b)];
    var n3 := [Br] + n4;
    var n2 := [Br] + n3;
    assert DoubleBreak(a, b) == [Content(a)] + n2;
    assert n4 == [Content(b)] + [];
    PrependCut(Content(b), [], Some(Br));
    PrependCut(Br, n4, Some(Br));
    PrependCut(Br, n3, Some(Content(a)));
    PrependCut(Content(a), n2, None);
  }


  lemma DoubleBreakBetweenBreaks(a: string, b: string)
    ensures BreakSeparatedText(DoubleBreak(a, b)) == [a, "", b]
  {
    var n4: seq<Node> := [Content(b)];
    var n3 := [Br] + n4;
    var n2 := [Br] + n3;
    assert DoubleBreak(a, b) == [Content(a)] + n2;
    LastContent(b);
    PrependLine(Br, n4);
    PrependLine(Br, n3);
    PrependLine(Content(a), n2);
    assert a + "" == a;
  }

  /** As written, the second cut is 0, and `substring(|a|, 0)` reads `a` again. */
  lemma DoubleBreakSegments(a: string, b: string)
    ensures Segments(a + b, 0, [|a|, 0]) == [a, a, a + b]
  {
    var text := a + b;
    var second: seq<nat> := [0];
    assert [|a|, 0] == [|a|] + second && second == [0] + [];
    SegmentsCons(text, |a|, 0, []);
    SegmentsCons(text, 0, |a|, second);
    assert Substring(text, 0, |a|) == text[0..|a|] == a;
    assert Substring(text, |a|, 0) == text[0..|a|];
    assert Segments(text, 0, []) == [Substring(text, 0, |text|)];
    assert Substring(text, 0, |text|) == text;
  }

  /**
   * As written, `a<br><br>b` repeats `a` and merges `a` with `b` (`A<br><br>B`
   * gives "A", "A" and "AB"): the second `<br>`'s previous sibling is the
   * first `<br>`, whose text is empty, so its cut is 0.
   */
  lemma ParseBodyRepeatsLines(a: string, b: string)
    requires Line(a) && Line(b)
    ensures ParseBody(DoubleBreak(a, b)) == Normal([a, a, a + b])
  {
    DoubleBreakText(a, b);
    DoubleBreakCuts(a, b);
    ParsedLinesPresent(a + b, [|a|, 0]);
    DoubleBreakSegments(a, b);
    LineConcat(a, b);
    CleanLinesKept(a, a, a + b);
  }

  /** Corrected, `a<br><br>b` gives `a` and `b`: the empty line between the breaks is dropped. */
  lemma ParseBodyCorrectedDoubleBreak(a: string, b: string)
    requires Line(a) && Line(b)
    ensures ParseBodyCorrected(DoubleBreak(a, b)) == Normal([a, b])
  {
    ParseBodyCorrectedLines(DoubleBreak(a, b));
    DoubleBreakBetweenBreaks(a, b);
    GapDropped(a, "", b);
  }

  /** As written, a body that starts with `<br>` throws: that `<br>` has no previous sibling. */
  lemma ParseBodyLeadingBreakThrows(rest: seq<Node>)
    ensures ParseBody([Br] + rest).Throw?
  {
    assert ([Br] + rest)[1..] == rest;
    assert SiblingCuts([Br] + rest, None)[0] == None;
  }

  lemma TrimAllEmptyFirst(lines: seq<string>)
    ensures TrimAll([""] + lines) == [""] + TrimAll(lines)
  {
    assert Trim("") == "";
  }

  lemma NonEmptyEmptyFirst(lines: seq<string>)
    ensures NonEmpty([""] + lines) == NonEmpty(lines)
  {
    assert ([""] + lines)[1..] == lines;
  }

  /** Corrected, a leading `<br>` only adds an empty first line, which is dropped. */
  lemma ParseBodyCorrectedLeadingBreak(rest: seq<Node>)
    ensures ParseBodyCorrected([Br] + rest) == ParseBodyCorrected(rest)
  {
    assert ([Br] + rest)[1..] == rest;
    var lines := BreakSeparatedText(rest);
    assert BreakSeparatedText([Br] + rest) == [""] + lines;
    ParseBodyCorrectedLines([Br] + rest);
    ParseBodyCorrectedLines(rest);
    TrimAllEmptyFirst(lines);
    NonEmptyEmptyFirst(TrimAll(lines));
  }

  // ---------------------------------------------------------------------------
  // fetchData: one REST API post to one DataOption
  // ---------------------------------------------------------------------------

  /** One `_embedded["wp:featuredmedia"]` entry: its `media_details.sizes.full.source_url`,
      `None` when any link of that path is missing. */
  datatype Media = Media(fullSourceUrl: Option<string>)

  /** A post's `_embedded` object and its `"wp:featuredmedia"` list, if any. */
  datatype Embedded = Embedded(featuredMedia: Option<seq<Media>>)

  /** A `{ rendered }` object of the REST API; `rendered` may be missing. */
  datatype Rendered = Rendered(rendered: Option<string>)

  /** A post as the REST API returns it. */
  datatype Post = Post(
    id: int,
    title: Option<Rendered>,
    content: Option<Rendered>,
    embedded: Option<Embedded>,
    date: Option<string>,
    acf: Option<Fields>)

  /** The record `fetchData` builds from a post. */
  datatype DataOption = DataOption(
    id: int,
    title: string,
    image: Option<string>,
    content: string,
    date: Option<string>,
    acf: Option<Fields>)

  /** `["wp:featuredmedia"]?.[0]?.media_details?.sizes?.full?.source_url` on an `_embedded` object. */
  function MediaUrl(e: Embedded): Option<string> {
    match e.featuredMedia
    case None => None
    case Some(media) => if media == [] then None else media[0].fullSourceUrl
  }

  /** `embedded?.["wp:featuredmedia"]?.[0]?.media_details?.sizes?.full?.source_url`. */
  function FeaturedImage(embedded: Option<Embedded>): (r: Option<string>)
    ensures r.Some? <==> embedded.Some? && embedded.value.featuredMedia.Some?
                         && |embedded.value.featuredMedia.value| > 0
                         && embedded.value.featuredMedia.value[0].fullSourceUrl.Some?
    ensures r.Some? ==> r == embedded.value.featuredMedia.value[0].fullSourceUrl
  {
    match embedded
    case None => None
    case Some(e) => MediaUrl(e)
  }

  /** `x?.rendered || ""`. */
  function RenderedOrEmpty(x: Option<Rendered>): string {
    match x
    case None => ""
    case Some(r) => match r.rendered case None => "" case Some(s) => s
  }

  /** The mapping of `fetchData`: missing titles and contents become "". */
  function ToDataOption(p: Post): (r: DataOption)
    ensures r.id == p.id && r.acf == p.acf && r.date == p.date
    ensures r.image == FeaturedImage(p.embedded)
    ensures r.title == "" <==> p.title.None? || p.title.value.rendered in {None, Some("")}
    ensures r.title != "" ==> p.title == Some(Rendered(Some(r.title)))
    ensures r.content == "" <==> p.content.None? || p.content.value.rendered in {None, Some("")}
    ensures r.content != "" ==> p.content == Some(Rendered(Some(r.content)))
  {
    DataOption(p.id, RenderedOrEmpty(p.title), FeaturedImage(p.embedded), RenderedOrEmpty(p.content), p.date, p.acf)
  }
}
