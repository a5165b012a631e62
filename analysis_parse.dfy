/** The three readings of analyser output in the source:
    - the worker's (`performAnalysis` in `packages/core/src/worker.ts`) reads
      Apertium-style lines `surface<TAB>lemma<tag1><tag2>ε<TAB>weight`;
    - the bundled worker's (`performAnalysis` in `dist-worker/worker.js`) reads
      `lemma+TAG1+TAG2` lines;
    - the engine-backed runtime of `packages/core/src/index.ts` reads the first
      word of each `lemma+TAG1+TAG2` line, and writes generation requests in
      that same form. */
module AnalysisParse {
  import opened Text
  import opened Wrappers
  import opened Protocol
  import Shim

  /** The epsilon symbol the worker cuts an analysis at. */
  const Epsilon: char := '\U{03B5}'

  predicate NoLineTerminator(s: string) {
    forall i :: 0 <= i < |s| ==> !IsLineTerminator(s[i])
  }

  /** `analysis.replace(/ε.*$/, '')`: cut at the first ε that has no line
      terminator after it (`.` does not cross one, `$` is the end of the text). */
  function StripEpsilon(s: string): (r: string)
    ensures |r| <= |s|
  {
    if s == [] then ""
    else if s[0] == Epsilon && NoLineTerminator(s[1..]) then ""
    else [s[0]] + StripEpsilon(s[1..])
  }

  /** The cut is at the first ε that has no line terminator after it: there is
      one where the text is cut, and none before. */
  lemma {:induction false} StripEpsilonCut(s: string)
    ensures var r := StripEpsilon(s);
      && r == s[..|r|]
      && (|r| < |s| ==> s[|r|] == Epsilon && NoLineTerminator(s[|r| + 1..]))
      && (forall i :: 0 <= i < |r| ==> !(s[i] == Epsilon && NoLineTerminator(s[i + 1..])))
  {
    if s != [] && !(s[0] == Epsilon && NoLineTerminator(s[1..])) {
      StripEpsilonCut(s[1..]);
      var r := StripEpsilon(s);
      forall i | 1 <= i < |r| ensures !(s[i] == Epsilon && NoLineTerminator(s[i + 1..])) {
        assert s[i + 1..] == s[1..][i..];
        assert s[i] == s[1..][i - 1];
      }
      if |r| < |s| {
        assert s[|r| + 1..] == s[1..][|r|..];
      }
    }
  }

  /** The longest prefix without `<`: what `[^<]+` takes before backtracking. */
  function LemmaRun(s: string): (r: string)
    ensures |r| <= |s|
  {
    if s == [] || s[0] == '<' then "" else [s[0]] + LemmaRun(s[1..])
  }

  /** The lemma run is a prefix without `<`, and it stops only at a `<` or at the end. */
  lemma {:induction false} LemmaRunLongest(s: string)
    ensures var r := LemmaRun(s);
      && r == s[..|r|] && '<' !in r
      && (|r| < |s| ==> s[|r|] == '<')
  {
    if s != [] && s[0] != '<' {
      LemmaRunLongest(s[1..]);
      var rest := LemmaRun(s[1..]);
      assert s[1..][..|rest|] == s[1..|rest| + 1];
      assert [s[0]] + s[1..|rest| + 1] == s[..|rest| + 1];
    }
  }

  /** `clean.match(/^([^<]+)(.*)$/)`: the lemma run and the rest, when the run is
      not empty and the rest holds no line terminator (else no backtracking helps). */
  function MatchLemma(clean: string): (r: Option<(string, string)>)
    ensures r.Some? ==> r.value.0 != ""
  {
    var run := LemmaRun(clean);
    if run != "" && NoLineTerminator(clean[|run|..]) then Some((run, clean[|run|..]))
    else None
  }

  /** A match splits the cleaned field into a lemma without `<` and the rest. */
  lemma MatchLemmaSplits(clean: string)
    ensures var r := MatchLemma(clean);
      r.Some? ==> r.value.0 + r.value.1 == clean && '<' !in r.value.0
  {
    LemmaRunLongest(clean);
    var run := LemmaRun(clean);
    assert run + clean[|run|..] == clean;
  }

  /** The index of the first `>` at or after `from`, or `|s|` if there is none. */
  function CloseIndex(s: string, from: nat): (j: nat)
    requires from <= |s|
    ensures from <= j <= |s|
    decreases |s| - from
  {
    if from == |s| || s[from] == '>' then from else CloseIndex(s, from + 1)
  }

  /** `CloseIndex` finds the first `>`: none lies between `from` and it. */
  lemma {:induction false} CloseIndexFirst(s: string, from: nat)
    requires from <= |s|
    ensures var j := CloseIndex(s, from);
      && (forall k :: from <= k < j ==> s[k] != '>')
      && (j < |s| ==> s[j] == '>')
    decreases |s| - from
  {
    if from < |s| && s[from] != '>' {
      CloseIndexFirst(s, from + 1);
    }
  }

  /** The tags `/<([^>]+)>/g` finds, in order: at a `<` whose next `>` is not
      right after it, the text between the two, and the search goes on after the
      `>`; anywhere else the search moves one character on. */
  function AngleTags(s: string): (tags: seq<string>)
    decreases |s|
  {
    if s == [] then []
    else if s[0] == '<' && CloseIndex(s, 1) < |s| && CloseIndex(s, 1) > 1 then
      var j := CloseIndex(s, 1);
      [s[1..j]] + AngleTags(s[j + 1..])
    else AngleTags(s[1..])
  }

  /** Every tag found is non-empty and holds no `>`. */
  lemma {:induction false} AngleTagsShape(s: string)
    ensures forall k :: 0 <= k < |AngleTags(s)| ==> AngleTags(s)[k] != "" && '>' !in AngleTags(s)[k]
    decreases |s|
  {
    if s == [] {
    } else if s[0] == '<' && CloseIndex(s, 1) < |s| && CloseIndex(s, 1) > 1 {
      var j := CloseIndex(s, 1);
      CloseIndexFirst(s, 1);
      AngleTagsShape(s[j + 1..]);
      assert '>' !in s[1..j];
    } else {
      AngleTagsShape(s[1..]);
    }
  }

  /** The `exec` loop of the worker that collects the tags of an analysis. */
  method ExtractTags(s: string) returns (tags: seq<string>)
    ensures tags == AngleTags(s)
  {
    tags := [];
    var i := 0;
    while i < |s|
      invariant 0 <= i <= |s|
      invariant tags + AngleTags(s[i..]) == AngleTags(s)
      decreases |s| - i
    {
      var start := i;
      if s[i] == '<' {
        var j := i + 1;
        while j < |s| && s[j] != '>'
          invariant i + 1 <= j <= |s|
          invariant forall k :: i + 1 <= k < j ==> s[k] != '>'
        {
          j := j + 1;
        }
        CloseIndexShift(s, i, j);
        if j < |s| && j > i + 1 {
          AngleTagsAtTag(s, i, j);
          AppendAssociates(tags, [s[i + 1..j]], AngleTags(s[j + 1..]));
          tags := tags + [s[i + 1..j]];
          i := j + 1;
          continue;
        }
      }
      AngleTagsSkip(s, i);
      i := i + 1;
    }
  }

  lemma AppendAssociates<T>(a: seq<T>, b: seq<T>, c: seq<T>)
    ensures (a + b) + c == a + (b + c)
  {
  }

  /** At a tag, `AngleTags` takes it and goes on after its `>`. */
  lemma AngleTagsAtTag(s: string, i: nat, j: nat)
    requires i + 1 < j < |s| && s[i] == '<' && CloseIndex(s[i..], 1) == j - i
    ensures AngleTags(s[i..]) == [s[i + 1..j]] + AngleTags(s[j + 1..])
  {
    assert s[i..][j - i + 1..] == s[j + 1..];
    assert s[i..][1..j - i] == s[i + 1..j];
  }

  /** Anywhere but at a tag, `AngleTags` moves one character on. */
  lemma AngleTagsSkip(s: string, i: nat)
    requires i < |s|
    requires !(s[i] == '<' && CloseIndex(s[i..], 1) < |s| - i && CloseIndex(s[i..], 1) > 1)
    ensures AngleTags(s[i..]) == AngleTags(s[i + 1..])
  {
    assert s[i..][1..] == s[i + 1..];
  }

  /** `CloseIndex` on a suffix, seen from the whole text. */
  lemma {:induction false} CloseIndexShift(s: string, i: nat, j: nat)
    requires i < |s| && i + 1 <= j <= |s|
    requires forall k :: i + 1 <= k < j ==> s[k] != '>'
    requires j < |s| ==> s[j] == '>'
    ensures CloseIndex(s[i..], 1) == j - i
  {
    CloseIndexFirst(s[i..], 1);
  }

  /** One analysis field (the text after the first tab): cut at ε, trimmed, then
      split into lemma and tags, or taken whole as a lemma without tags. */
  function ParseField(surface: string, analysis: string): (a: MorphAnalysis)
    ensures a.surface == surface
  {
    var clean := Trim(StripEpsilon(analysis));
    match MatchLemma(clean)
    case Some((lemmaForm, rest)) => MorphAnalysis(lemmaForm, surface, AngleTags(rest))
    case None => MorphAnalysis(clean, surface, [])
  }

  /** One line of analyser output: an analysis when it has a second tab-separated field. */
  function ApertiumLine(surface: string, line: string): Option<MorphAnalysis> {
    var parts := Split(line, '\t');
    if |parts| >= 2 then Some(ParseField(surface, parts[1])) else None
  }

  /** The analyses of the lines that parse, in order. */
  function ApertiumLines(surface: string, lines: seq<string>): (r: seq<MorphAnalysis>)
    ensures |r| <= |lines|
  {
    if lines == [] then []
    else
      var first := ApertiumLine(surface, lines[0]);
      (if first.Some? then [first.value] else []) + ApertiumLines(surface, lines[1..])
  }

  /** Every analysis read from the lines is for the surface form that was looked up. */
  lemma {:induction false} ApertiumLinesSurface(surface: string, lines: seq<string>)
    ensures forall k :: 0 <= k < |ApertiumLines(surface, lines)| ==> ApertiumLines(surface, lines)[k].surface == surface
  {
    if lines != [] {
      ApertiumLinesSurface(surface, lines[1..]);
    }
  }

  /** All analyses of an analyser text: its non-blank lines, parsed. */
  function ApertiumAnalyses(surface: string, text: string): seq<MorphAnalysis> {
    ApertiumLines(surface, NonBlank(Split(text, '\n')))
  }

  /** The parsed analyses, or the unanalysed form when there are none. */
  function WithFallback(analyses: seq<MorphAnalysis>, surface: string): (r: seq<MorphAnalysis>)
    ensures |r| >= 1
    ensures |analyses| > 0 ==> r == analyses
  {
    if |analyses| > 0 then analyses else Unanalysed(surface)
  }

  /** The worker's parsing of an analyser text: its non-blank lines parsed, or
      the unanalysed form when none parses. */
  method ParseApertium(surface: string, text: string) returns (analyses: seq<MorphAnalysis>)
    ensures analyses == WithFallback(ApertiumAnalyses(surface, text), surface)
  {
    var lines := NonBlank(Split(text, '\n'));
    var found := ParseApertiumLines(surface, lines);
    analyses := if |found| > 0 then found else Unanalysed(surface);
  }

  /** The worker's loop over the lines: each line with a second tab-separated
      field contributes its analysis. */
  method ParseApertiumLines(surface: string, lines: seq<string>) returns (found: seq<MorphAnalysis>)
    ensures found == ApertiumLines(surface, lines)
  {
    found := [];
    var i := 0;
    assert lines[0..] == lines;
    while i < |lines|
      invariant 0 <= i <= |lines|
      invariant found + ApertiumLines(surface, lines[i..]) == ApertiumLines(surface, lines)
    {
      var a := ParseLine(surface, lines[i]);
      ApertiumLinesStep(surface, lines, i, found, a);
      if a.Some? {
        found := found + [a.value];
      }
      i := i + 1;
    }
  }

  /** One step of the loop: the analyses still to come are those of the current
      line, if it has any, followed by those of the lines after it. */
  lemma {:induction false} ApertiumLinesStep(surface: string, lines: seq<string>, i: nat,
                                             found: seq<MorphAnalysis>, a: Option<MorphAnalysis>)
    requires i < |lines|
    requires a == ApertiumLine(surface, lines[i])
    ensures found + ApertiumLines(surface, lines[i..])
         == (if a.Some? then found + [a.value] else found) + ApertiumLines(surface, lines[i + 1..])
  {
    assert lines[i..][1..] == lines[i + 1..];
    assert lines[i..][0] == lines[i];
    var later := ApertiumLines(surface, lines[i + 1..]);
    if a.Some? {
      assert ApertiumLines(surface, lines[i..]) == [a.value] + later;
      assert found + ([a.value] + later) == (found + [a.value]) + later;
    } else {
      assert ApertiumLines(surface, lines[i..]) == [] + later;
    }
  }

  /** The body of the loop for one line: the analysis of its second
      tab-separated field, when there is one. */
  method ParseLine(surface: string, line: string) returns (a: Option<MorphAnalysis>)
    ensures a == ApertiumLine(surface, line)
  {
    var parts := Split(line, '\t');
    if |parts| >= 2 {
      var analysis := ExtractTagsOf(surface, parts[1]);
      a := Some(analysis);
    } else {
      a := None;
    }
  }

  /** The body of the loop for one analysis field. */
  method ExtractTagsOf(surface: string, analysis: string) returns (a: MorphAnalysis)
    ensures a == ParseField(surface, analysis)
  {
    var clean := Trim(StripEpsilon(analysis));
    var m := MatchLemma(clean);
    if m.Some? {
      var tags := ExtractTags(m.value.1);
      a := MorphAnalysis(m.value.0, surface, tags);
    } else {
      a := MorphAnalysis(clean, surface, []);
    }
  }

  // ------------------------------------------------- writing Apertium-style lines

  /** `<t1><t2>...` */
  function TagText(tags: seq<string>): (s: string)
    ensures s == [] || s[0] == '<'
  {
    if tags == [] then "" else "<" + tags[0] + ">" + TagText(tags[1..])
  }

  /** One line in the form the worker expects. */
  function ApertiumText(surface: string, lemmaForm: string, tags: seq<string>, weight: string): string {
    surface + "\t" + lemmaForm + TagText(tags) + [Epsilon] + "\t" + weight
  }

  /** Text free of the characters that delimit the format. */
  predicate Plain(s: string) {
    forall i :: 0 <= i < |s| ==> s[i] != '\t' && s[i] != Epsilon && !IsLineTerminator(s[i])
  }

  /** What a line needs for the worker to read it back: a tab-free surface, a
      lemma with no `<` that does not start or end with white space, and tags that
      are not empty and hold no `>`. */
  predicate Readable(surface: string, lemmaForm: string, tags: seq<string>, weight: string) {
    && '\t' !in surface && '\n' !in surface
    && lemmaForm != [] && Plain(lemmaForm) && '<' !in lemmaForm && !IsSpace(lemmaForm[0]) && !IsSpace(lemmaForm[|lemmaForm| - 1])
    && (forall k :: 0 <= k < |tags| ==> tags[k] != "" && Plain(tags[k]) && '>' !in tags[k])
    && '\n' !in weight
  }

  lemma {:induction false} TagTextPlain(tags: seq<string>)
    requires forall k :: 0 <= k < |tags| ==> Plain(tags[k])
    ensures Plain(TagText(tags))
  {
    if tags != [] {
      TagTextPlain(tags[1..]);
      var s := "<" + tags[0] + ">" + TagText(tags[1..]);
      forall i | 0 <= i < |s| ensures s[i] != '\t' && s[i] != Epsilon && !IsLineTerminator(s[i]) {
        if 1 <= i < 1 + |tags[0]| {
          assert s[i] == tags[0][i - 1];
        } else if i >= 2 + |tags[0]| {
          assert s[i] == TagText(tags[1..])[i - 2 - |tags[0]|];
        }
      }
    }
  }

  /** Reading the tags of `TagText` gives the tags back. */
  lemma {:induction false} AngleTagsOfTagText(tags: seq<string>)
    requires forall k :: 0 <= k < |tags| ==> tags[k] != "" && '>' !in tags[k]
    ensures AngleTags(TagText(tags)) == tags
  {
    if tags != [] {
      var s := TagText(tags);
      var t := tags[0];
      assert s == "<" + t + ">" + TagText(tags[1..]);
      CloseIndexShift(s, 0, 1 + |t|);
      assert s[0..] == s;
      assert s[1..1 + |t|] == t;
      assert s[2 + |t|..] == TagText(tags[1..]);
      AngleTagsOfTagText(tags[1..]);
    }
  }

  /** Cutting at the last character, an ε, when no other ε precedes it. */
  lemma {:induction false} StripEpsilonAtEnd(p: string)
    requires Epsilon !in p
    ensures StripEpsilon(p + [Epsilon]) == p
  {
    if p != [] {
      StripEpsilonAtEnd(p[1..]);
      assert (p + [Epsilon])[1..] == p[1..] + [Epsilon];
    } else {
      assert NoLineTerminator([]);
    }
  }

  /** The lemma run of a lemma followed by its tag text is the lemma. */
  lemma {:induction false} LemmaRunOfLemma(lemmaForm: string, rest: string)
    requires '<' !in lemmaForm && (rest == [] || rest[0] == '<')
    ensures LemmaRun(lemmaForm + rest) == lemmaForm
  {
    if lemmaForm != [] {
      LemmaRunOfLemma(lemmaForm[1..], rest);
      assert (lemmaForm + rest)[1..] == lemmaForm[1..] + rest;
    } else {
      assert lemmaForm + rest == rest;
    }
  }

  /** A line written in the worker's format is read back as the analysis it was written from. */
  lemma {:induction false} ApertiumRoundTrip(surface: string, lemmaForm: string, tags: seq<string>, weight: string)
    requires Readable(surface, lemmaForm, tags, weight)
    ensures ApertiumLine(surface, ApertiumText(surface, lemmaForm, tags, weight)) == Some(MorphAnalysis(lemmaForm, surface, tags))
  {
    TagTextPlain(tags);
    var body := lemmaForm + TagText(tags);
    ApertiumFields(surface, body, weight);
    assert ApertiumText(surface, lemmaForm, tags, weight) == surface + "\t" + body + [Epsilon] + "\t" + weight;
    FieldOfTagged(surface, lemmaForm, tags);
  }

  /** The second tab-separated field of a written line is the analysis with its ε. */
  lemma {:induction false} ApertiumFields(surface: string, body: string, weight: string)
    requires '\t' !in surface && Plain(body)
    ensures var parts := Split(surface + "\t" + body + [Epsilon] + "\t" + weight, '\t');
      |parts| >= 2 && parts[1] == body + [Epsilon]
  {
    var field := body + [Epsilon];
    assert '\t' !in field by {
      forall i | 0 <= i < |field| ensures field[i] != '\t' {
        if i < |body| { assert field[i] == body[i]; }
      }
    }
    assert surface + "\t" + body + [Epsilon] + "\t" + weight == surface + ['\t'] + (field + ['\t'] + weight);
    SplitAppend(surface, field + ['\t'] + weight, '\t');
    SplitAppend(field, weight, '\t');
  }

  /** The analysis field of a written line parses back into its lemma and tags. */
  lemma {:induction false} FieldOfTagged(surface: string, lemmaForm: string, tags: seq<string>)
    requires lemmaForm != [] && Plain(lemmaForm) && '<' !in lemmaForm
    requires !IsSpace(lemmaForm[0]) && !IsSpace(lemmaForm[|lemmaForm| - 1])
    requires forall k :: 0 <= k < |tags| ==> tags[k] != "" && Plain(tags[k]) && '>' !in tags[k]
    ensures ParseField(surface, lemmaForm + TagText(tags) + [Epsilon]) == MorphAnalysis(lemmaForm, surface, tags)
  {
    TagTextPlain(tags);
    CleanField(lemmaForm, tags);
    MatchTagged(lemmaForm, TagText(tags));
    AngleTagsOfTagText(tags);
  }

  /** Cutting at ε and trimming leave a written analysis as it was. */
  lemma {:induction false} CleanField(lemmaForm: string, tags: seq<string>)
    requires lemmaForm != [] && Plain(lemmaForm) && Plain(TagText(tags))
    requires !IsSpace(lemmaForm[0]) && !IsSpace(lemmaForm[|lemmaForm| - 1])
    requires forall k :: 0 <= k < |tags| ==> tags[k] != ""
    ensures Trim(StripEpsilon(lemmaForm + TagText(tags) + [Epsilon])) == lemmaForm + TagText(tags)
  {
    var tagText := TagText(tags);
    var body := lemmaForm + tagText;
    assert Epsilon !in body by {
      forall i | 0 <= i < |body| ensures body[i] != Epsilon {
        if i < |lemmaForm| { assert body[i] == lemmaForm[i]; }
        else { assert body[i] == tagText[i - |lemmaForm|]; }
      }
    }
    StripEpsilonAtEnd(body);
    assert !IsSpace(body[0]) by { assert body[0] == lemmaForm[0]; }
    assert !IsSpace(body[|body| - 1]) by {
      if tags == [] {
        assert body == lemmaForm;
      } else {
        TagTextEndsClosed(tags);
        assert body[|body| - 1] == tagText[|tagText| - 1];
      }
    }
    TrimUnchanged(body);
  }

  /** A lemma followed by a tag text matches as that lemma and that tag text. */
  lemma {:induction false} MatchTagged(lemmaForm: string, tagText: string)
    requires lemmaForm != [] && '<' !in lemmaForm && Plain(tagText)
    requires tagText == [] || tagText[0] == '<'
    ensures MatchLemma(lemmaForm + tagText) == Some((lemmaForm, tagText))
  {
    var body := lemmaForm + tagText;
    LemmaRunOfLemma(lemmaForm, tagText);
    assert body[|lemmaForm|..] == tagText;
  }

  lemma {:induction false} TagTextEndsClosed(tags: seq<string>)
    requires tags != []
    ensures |TagText(tags)| > 0 && TagText(tags)[|TagText(tags)| - 1] == '>'
  {
    if tags[1..] != [] {
      TagTextEndsClosed(tags[1..]);
    }
  }

  // ---------------------------------------------------------- `lemma+TAG` lines

  /** The bundled worker's reading of one line: split the trimmed line at `+`;
      the first piece is the lemma (the surface form if it is empty), the other
      non-empty pieces are the tags. */
  function PlusLine(surface: string, line: string): MorphAnalysis {
    var parts := Split(Trim(line), '+');
    MorphAnalysis(if parts[0] != "" then parts[0] else surface, surface, NonEmpty(parts[1..]))
  }

  /** The reading of a line keeps the surface; its lemma is the surface or a
      non-empty piece without `+`, and its tags are non-empty pieces without `+`. */
  lemma PlusLineShape(surface: string, line: string)
    ensures var a := PlusLine(surface, line);
      && a.surface == surface
      && (a.lemmaForm == surface || (a.lemmaForm != "" && '+' !in a.lemmaForm))
      && (forall k :: 0 <= k < |a.tags| ==> a.tags[k] != "" && '+' !in a.tags[k])
  {
    var parts := Split(Trim(line), '+');
    SplitNoSeparator(Trim(line), '+');
    NonEmptyMembers(parts[1..]);
    var tags := NonEmpty(parts[1..]);
    forall k | 0 <= k < |tags| ensures '+' !in tags[k] {
      assert tags[k] in parts[1..];
    }
  }

  /** The bundled worker's parsing: its non-blank lines read in the `+` form,
      or the unanalysed form when there are none. */
  method ParsePlus(surface: string, text: string) returns (analyses: seq<MorphAnalysis>)
    ensures analyses == WithFallback(PlusAnalyses(surface, text), surface)
  {
    var lines := NonBlank(Split(text, '\n'));
    var found := ParsePlusLines(surface, lines);
    analyses := if |found| > 0 then found else Unanalysed(surface);
  }

  /** The bundled worker's loop over the lines: one analysis per line, in order. */
  method ParsePlusLines(surface: string, lines: seq<string>) returns (found: seq<MorphAnalysis>)
    ensures found == PlusLines(surface, lines)
  {
    found := [];
    var i := 0;
    while i < |lines|
      invariant 0 <= i <= |lines|
      invariant found == PlusLines(surface, lines)[..i]
    {
      assert PlusLines(surface, lines)[..i + 1] == PlusLines(surface, lines)[..i] + [PlusLines(surface, lines)[i]];
      found := found + [PlusLine(surface, lines[i])];
      i := i + 1;
    }
    assert PlusLines(surface, lines)[..i] == PlusLines(surface, lines);
  }

  /** The analyses of lines in the `+` form, one per line. */
  function PlusLines(surface: string, lines: seq<string>): (r: seq<MorphAnalysis>)
    ensures |r| == |lines|
    ensures forall k :: 0 <= k < |lines| ==> r[k] == PlusLine(surface, lines[k])
  {
    seq(|lines|, k requires 0 <= k < |lines| => PlusLine(surface, lines[k]))
  }

  /** All analyses of a text in the `+` form. */
  function PlusAnalyses(surface: string, text: string): seq<MorphAnalysis> {
    PlusLines(surface, NonBlank(Split(text, '\n')))
  }

  /** The engine-backed runtime's reading of one output line: the first word of
      the trimmed line, split at `+` with empty pieces dropped; the first piece is
      the lemma (the surface form if there is none), the rest the tags. */
  function FirstWordLine(surface: string, line: string): (a: MorphAnalysis)
    ensures a.surface == surface
    ensures forall k :: 0 <= k < |a.tags| ==> a.tags[k] != "" && '+' !in a.tags[k]
  {
    var parts := NonEmpty(Split(FirstWord(Trim(line)), '+'));
    SplitNoSeparator(FirstWord(Trim(line)), '+');
    NonEmptyMembers(Split(FirstWord(Trim(line)), '+'));
    assert forall k :: 0 <= k < |parts| ==> parts[k] in Split(FirstWord(Trim(line)), '+');
    if parts == [] then MorphAnalysis(surface, surface, [])
    else MorphAnalysis(parts[0], surface, parts[1..])
  }

  /** The request the engine-backed runtime sends for a generation: `[lemma, ...tags].join('+')`. */
  function GenerateRequest(lemmaForm: string, tags: seq<string>): string {
    Join([lemmaForm] + tags, "+")
  }

  /** Text free of `+` and of white space. */
  predicate Solid(s: string) {
    s != "" && '+' !in s && forall i :: 0 <= i < |s| ==> !IsSpace(s[i])
  }

  /** A generation request for a lemma and tags without `+` or white space is
      read back as that lemma and those tags, both by the bundled worker and by
      the engine-backed runtime. */
  lemma {:induction false} PlusRoundTrip(surface: string, lemmaForm: string, tags: seq<string>)
    requires Solid(lemmaForm) && forall k :: 0 <= k < |tags| ==> Solid(tags[k])
    ensures PlusLine(surface, GenerateRequest(lemmaForm, tags)) == MorphAnalysis(lemmaForm, surface, tags)
    ensures FirstWordLine(surface, GenerateRequest(lemmaForm, tags)) == MorphAnalysis(lemmaForm, surface, tags)
  {
    var parts := [lemmaForm] + tags;
    assert forall k :: 0 <= k < |parts| ==> Solid(parts[k]) by {
      forall k | 0 <= k < |parts| ensures Solid(parts[k]) {
        if k > 0 { assert parts[k] == tags[k - 1]; }
      }
    }
    var r := GenerateRequest(lemmaForm, tags);
    JoinUnspaced(parts, "+");
    assert r != [] by {
      if |parts| == 1 { assert r == lemmaForm; }
      else { assert r == lemmaForm + "+" + Join(parts[1..], "+"); }
    }
    TrimUnchanged(r);
    FirstWordUnspaced(r);
    assert "+" == ['+'];
    SplitJoin(parts, '+');
    assert parts[1..] == tags;
    NonEmptyKeepsAll(tags);
    NonEmptyKeepsAll(parts);
  }

  /** The pieces of a split avoid every character the text avoids. */
  lemma {:induction false} SplitAvoids(s: string, sep: char, c: char)
    requires c !in s
    ensures forall k :: 0 <= k < |Split(s, sep)| ==> c !in Split(s, sep)[k]
  {
    if s != [] {
      SplitAvoids(s[1..], sep, c);
    }
  }

  /** Lines without a tab give no analyses. */
  lemma {:induction false} TablessLines(surface: string, lines: seq<string>)
    requires forall k :: 0 <= k < |lines| ==> '\t' !in lines[k]
    ensures ApertiumLines(surface, lines) == []
  {
    if lines != [] {
      SplitPlain(lines[0], '\t');
      TablessLines(surface, lines[1..]);
    }
  }

  /** The worker's reader finds no analysis in the shim's output unless some
      output symbol holds a tab: the shim separates symbols with spaces, while the
      reader looks for the analysis after a tab. */
  lemma {:induction false} ShimTextHasNoApertiumLines(surface: string, results: seq<seq<string>>)
    requires forall i, j :: 0 <= i < |results| && 0 <= j < |results[i]| ==> '\t' !in results[i][j]
    ensures ApertiumAnalyses(surface, Shim.Formatted(results)) == []
  {
    var lines := Shim.Lines(results);
    forall k | 0 <= k < |lines| ensures '\t' !in lines[k] {
      Shim.JoinAvoids(results[k], " ", '\t');
    }
    Shim.JoinAvoids(lines, "\n", '\t');
    var text := Shim.Formatted(results);
    SplitAvoids(text, '\n', '\t');
    var kept := NonBlank(Split(text, '\n'));
    NonBlankMembers(Split(text, '\n'));
    assert forall k :: 0 <= k < |kept| ==> kept[k] in Split(text, '\n');
    TablessLines(surface, kept);
  }

  /** The engine-backed runtime keeps only the first symbol of a shim line:
      the shim separates a result's symbols with spaces and the runtime reads
      the first word. A first symbol without `+` becomes the lemma, and the tags
      carried by the later symbols are lost. */
  lemma FirstWordOfShimLine(surface: string, results: seq<seq<string>>, k: nat)
    requires k < |results| && results[k] != [] && results[k][0] != ""
    requires forall i :: 0 <= i < |results[k][0]| ==> !IsSpace(results[k][0][i])
    ensures FirstWordLine(surface, Shim.Lines(results)[k]) == FirstWordLine(surface, results[k][0])
    ensures '+' !in results[k][0] ==> FirstWordLine(surface, Shim.Lines(results)[k]) == MorphAnalysis(results[k][0], surface, [])
  {
    var symbols := results[k];
    var w := symbols[0];
    var line := Join(symbols, " ");
    assert Shim.Lines(results)[k] == line;
    var tail := if |symbols| == 1 then "" else " " + Join(symbols[1..], " ");
    assert line == w + tail;
    StartsWithConcat(w, tail);
    assert TrimStart(line) == line;
    TrimEndDropsSpaces(line);
    var t := Trim(line);
    assert t == TrimEnd(line);
    assert !IsSpace(line[|w| - 1]);
    assert |t| >= |w|;
    assert t[..|w|] == line[..|w|];
    assert |t| == |w| || t[|w|] == ' ';
    FirstWordOfPrefix(t, w);
    TrimUnchanged(w);
    FirstWordUnspaced(w);
    if '+' !in w {
      SplitPlain(w, '+');
      assert NonEmpty([w]) == [w];
    }
  }

  /** The shim's line for `cats` when the analyser outputs one symbol per
      character: the runtime reads the lemma `c` and no tags. */
  lemma FirstWordOfShimLineExample()
    ensures FirstWordLine("cats", Shim.Lines([["c", "a", "t", "+N", "+Pl"]])[0]) == MorphAnalysis("c", "cats", [])
  {
    FirstWordOfShimLine("cats", [["c", "a", "t", "+N", "+Pl"]], 0);
  }
}
