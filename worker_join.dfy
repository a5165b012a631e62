/** The join coordinator of the worker (`TempFSTJoinCoordinator` in
    `packages/core/src/worker.ts`). A feature tier is used when both tokens have
    a real morphological analysis; otherwise French, Spanish and German have
    surface fallbacks; every other pair keeps its space. The worker has no
    punctuation tier. */
module WorkerJoin {
  import opened Text
  import opened Wrappers
  import opened Protocol

  /** The part-of-speech tags that make an analysis count as real. */
  const FeatureTags: set<string> := {"prn", "det", "vblex", "n", "adj", "adv", "prep", "conj"}

  /** The tag that marks an analysis the engine could not produce. */
  const AnalysisFailed: string := "HFST_ANALYSIS_FAILED"

  predicate IsRealAnalysis(a: MorphAnalysis) {
    && |a.tags| > 0
    && AnalysisFailed !in a.tags
    && exists k :: 0 <= k < |a.tags| && a.tags[k] in FeatureTags
  }

  /** `analyses.some(...)`: some analysis of the token is real. */
  predicate HasRealAnalysis(analyses: seq<MorphAnalysis>) {
    exists k :: 0 <= k < |analyses| && IsRealAnalysis(analyses[k])
  }

  /** The tags of the first (best) analysis, or none. */
  function FirstTags(analyses: seq<MorphAnalysis>): seq<string> {
    if |analyses| > 0 then analyses[0].tags else []
  }

  /** `word[tag1,tag2]`, the way the feature tier quotes a token in its reasons. */
  function Annotated(word: string, tags: seq<string>): string {
    word + "[" + Join(tags, ",") + "]"
  }

  /** The categories of a function word that may elide in the feature tier. */
  const ElidingCategories: set<string> := {"det", "prn", "prep", "conj", "adv"}

  /** `/^[aeiouàáâäèéêëìíîïòóôöùúûüÿh]/i`: the onsets the feature tier elides before
      (any `h`, mute or aspirated). */
  const FeatureOnsets: string :=
    "aeiou\U{00E0}\U{00E1}\U{00E2}\U{00E4}\U{00E8}\U{00E9}\U{00EA}\U{00EB}\U{00EC}\U{00ED}\U{00EE}\U{00EF}"
    + "\U{00F2}\U{00F3}\U{00F4}\U{00F6}\U{00F9}\U{00FA}\U{00FB}\U{00FC}\U{00FF}h"

  /** `/^[aeiouàáâäèéêëìíîïòóôöùúûüÿ]/i`: the vowels the French fallback elides before. */
  const FallbackVowels: string :=
    "aeiou\U{00E0}\U{00E1}\U{00E2}\U{00E4}\U{00E8}\U{00E9}\U{00EA}\U{00EB}\U{00EC}\U{00ED}\U{00EE}\U{00EF}"
    + "\U{00F2}\U{00F3}\U{00F4}\U{00F6}\U{00F9}\U{00FA}\U{00FB}\U{00FC}\U{00FF}"

  /** The elision table of the feature tier (ten words). */
  const FeatureElided: map<string, string> := map[
    "je" := "j\U{2019}", "le" := "l\U{2019}", "la" := "l\U{2019}", "de" := "d\U{2019}",
    "ne" := "n\U{2019}", "me" := "m\U{2019}", "te" := "t\U{2019}", "se" := "s\U{2019}",
    "ce" := "c\U{2019}", "que" := "qu\U{2019}"]

  /** The elision table of the French fallback: the same ten words and `si`. */
  const FallbackElided: map<string, string> := FeatureElided["si" := "s\U{2019}"]

  /** The words whose initial h blocks elision; a word starting with one of them is aspirated. */
  const HAspirePrefixes: seq<string> := ["haricot", "h\U{00E9}ros", "hibou", "honte", "hurler"]

  predicate IsHAspire(word: string) {
    exists k :: 0 <= k < |HAspirePrefixes| && StartsWith(word, HAspirePrefixes[k])
  }

  /** `/^h[aeiou]/i`: an `h` followed by a plain vowel. */
  predicate StartsWithHMuet(s: string) {
    |s| >= 2 && InClassIgnoringCase(s[0], "h") && InClassIgnoringCase(s[1], "aeiou")
  }

  /** The decision that keeps both tokens and their space, and names the rule. */
  function Spaced(prev: string, next: string, reason: string): JoinDecision {
    JoinDecision(prev, next, " ", false, reason)
  }

  // ---------------------------------------------------------------- feature tier

  predicate HasElidingCategory(tags: seq<string>) {
    exists k :: 0 <= k < |tags| && tags[k] in ElidingCategories
  }

  /** `frenchMorphologyJoin`: elide a function word before a vowel or any h. */
  function FrenchMorphologyJoin(prev: string, next: string, prevTags: seq<string>, nextTags: seq<string>): (d: JoinDecision)
    ensures WellFormed(d) && d.surfaceNext == next
    ensures StartsWith(d.reason, "French FST-based ")
  {
    var quoted := Annotated(prev, prevTags) + " + " + Annotated(next, nextTags);
    var pl := ToLower(prev);
    var head := "French FST-based ";
    if HasElidingCategory(prevTags) && StartsWithClassIgnoringCase(next, FeatureOnsets) && pl in FeatureElided then
      var tail := "elision using Apertium morphological features: " + quoted;
      StartsWithConcat(head, tail);
      JoinDecision(FeatureElided[pl], next, "", true, head + tail)
    else
      var tail := "join (no elision): " + quoted;
      StartsWithConcat(head, tail);
      Spaced(prev, next, head + tail)
  }

  /** `morphologyBasedJoin`: the feature tier, dispatched on the language. Only
      French has a rule; Italian, Spanish and every other language are spaced. */
  function MorphologyBasedJoin(prev: string, next: string, lang: string,
                               prevAnalyses: seq<MorphAnalysis>, nextAnalyses: seq<MorphAnalysis>): (d: JoinDecision)
    ensures WellFormed(d) && d.surfaceNext == next
    ensures FromFeatureTier(d)
  {
    var prevTags := FirstTags(prevAnalyses);
    var nextTags := FirstTags(nextAnalyses);
    var quoted := Annotated(prev, prevTags) + " + " + Annotated(next, nextTags);
    if lang == "fr-FR" then FrenchMorphologyJoin(prev, next, prevTags, nextTags)
    else
      var head := if lang == "it-IT" then "Italian FST-based " else if lang == "es-ES" then "Spanish FST-based " else "Generic FST-based ";
      var tail := if lang == "it-IT" || lang == "es-ES" then "join: " + quoted else "join for " + lang + ": " + quoted;
      StartsWithConcat(head, tail);
      Spaced(prev, next, head + tail)
  }

  // ------------------------------------------------------------ language fallbacks

  /** `frenchElision`: elide a listed word (`si` only before `il`/`ils`) before a
      vowel or a mute h that does not start an aspirated word. */
  function FrenchElision(prev: string, next: string): (r: Option<JoinDecision>)
    ensures r.Some? ==> WellFormed(r.value) && r.value.noSpace && r.value.surfaceNext == next
    ensures r.Some? ==> StartsWith(r.value.reason, "French elision: ")
  {
    var pl := ToLower(prev);
    var nl := ToLower(next);
    if pl !in FallbackElided then None
    else if pl == "si" && nl != "il" && nl != "ils" then None
    else if StartsWithClassIgnoringCase(next, FallbackVowels) || (StartsWithHMuet(next) && !IsHAspire(nl)) then
      var elided := FallbackElided[pl];
      var head := "French elision: ";
      var tail := prev + " + " + next + " \U{2192} " + elided + next;
      StartsWithConcat(head, tail);
      Some(JoinDecision(elided, next, "", true, head + tail))
    else None
  }

  const SpanishContractions: map<string, string> := map["de+el" := "del", "a+el" := "al"]

  const SpanishClitics: seq<string> := ["me", "te", "se", "le", "la", "lo", "nos", "os", "les", "las", "los"]

  /** The lookup key both the Spanish and the German tables use. */
  function PairKey(prev: string, next: string): string {
    prev + "+" + next
  }

  /** `spanishCliticJoin`: the two contractions, then an infinitive and a clitic. */
  function SpanishCliticJoin(prev: string, next: string): (r: Option<JoinDecision>)
    ensures r.Some? ==> WellFormed(r.value) && r.value.noSpace
    ensures r.Some? ==> StartsWith(r.value.reason, FallbackHeads[1]) || StartsWith(r.value.reason, FallbackHeads[2])
  {
    var key := PairKey(prev, next);
    if key in SpanishContractions then
      var fused := SpanishContractions[key];
      var tail := prev + " + " + next + " \U{2192} " + fused;
      StartsWithConcat(FallbackHeads[1], tail);
      Some(JoinDecision(fused, "", "", true, FallbackHeads[1] + tail))
    else if EndsWith(prev, "r") && next in SpanishClitics then
      var tail := prev + " + " + next + " (FST needed for proper accent placement)";
      StartsWithConcat(FallbackHeads[2], tail);
      Some(JoinDecision(prev, next, "", true, FallbackHeads[2] + tail))
    else None
  }

  const GermanCompounds: map<string, string> := map[
    "Haus+T\U{00FC}r" := "Haust\U{00FC}r",
    "Auto+Bahn" := "Autobahn",
    "Bahn+Hof" := "Bahnhof",
    "Wasser+Fall" := "Wasserfall",
    "Liebe+s+Lied" := "Liebeslied",
    "Hund+e+H\U{00FC}tte" := "Hundeh\U{00FC}tte"]

  /** `/^[A-ZÄÖÜ]/`: an upper-case initial (no `i` flag). */
  predicate StartsCapitalised(s: string) {
    s != [] && (('A' <= s[0] <= 'Z') || s[0] == '\U{00C4}' || s[0] == '\U{00D6}' || s[0] == '\U{00DC}')
  }

  /** `germanCompoundJoin`: a listed compound, then two capitalised nouns. */
  function GermanCompoundJoin(prev: string, next: string): (r: Option<JoinDecision>)
    ensures r.Some? ==> WellFormed(r.value) && r.value.noSpace
    ensures r.Some? ==> StartsWith(r.value.reason, FallbackHeads[3]) || StartsWith(r.value.reason, FallbackHeads[4])
  {
    var key := PairKey(prev, next);
    if key in GermanCompounds then
      var compound := GermanCompounds[key];
      var tail := prev + " + " + next + " \U{2192} " + compound;
      StartsWithConcat(FallbackHeads[3], tail);
      Some(JoinDecision(compound, "", "", true, FallbackHeads[3] + tail))
    else if StartsCapitalised(prev) && StartsCapitalised(next) then
      var tail := prev + " + " + next + " (FST needed for linking elements)";
      StartsWithConcat(FallbackHeads[4], tail);
      Some(JoinDecision(prev, next, "", true, FallbackHeads[4] + tail))
    else None
  }

  /** The decision for a pair no rule covers. */
  function NoRule(prev: string, next: string, lang: string): (d: JoinDecision)
    ensures StartsWith(d.reason, FallbackHeads[5])
  {
    var tail := lang + ": " + prev + " + " + next;
    StartsWithConcat(FallbackHeads[5], tail);
    Spaced(prev, next, FallbackHeads[5] + tail)
  }

  /** `languageSpecificJoin`: the fallback of the language, or the spaced default. */
  function LanguageSpecificJoin(prev: string, next: string, lang: string): (d: JoinDecision)
    ensures WellFormed(d)
    ensures lang !in {"fr-FR", "es-ES", "de-DE"} ==> d == NoRule(prev, next, lang)
  {
    var rule :=
      if lang == "fr-FR" then FrenchElision(prev, next)
      else if lang == "es-ES" then SpanishCliticJoin(prev, next)
      else if lang == "de-DE" then GermanCompoundJoin(prev, next)
      else None;
    if rule.Some? then rule.value else NoRule(prev, next, lang)
  }

  /** `applyJoin`: the feature tier when both tokens have a real analysis, the
      language fallback otherwise. The analyses are those the worker obtained
      for the two tokens. */
  function ApplyJoin(prev: string, next: string, lang: string,
                     prevAnalyses: seq<MorphAnalysis>, nextAnalyses: seq<MorphAnalysis>): (d: JoinDecision)
    ensures WellFormed(d)
  {
    if HasRealAnalysis(prevAnalyses) && HasRealAnalysis(nextAnalyses) then
      MorphologyBasedJoin(prev, next, lang, prevAnalyses, nextAnalyses)
    else
      LanguageSpecificJoin(prev, next, lang)
  }

  /** The feature-tier reasons all carry "FST-based"; the fallback reasons never
      start with the words the feature tier starts with. */
  predicate FromFeatureTier(d: JoinDecision) {
    || StartsWith(d.reason, "French FST-based ")
    || StartsWith(d.reason, "Italian FST-based ")
    || StartsWith(d.reason, "Spanish FST-based ")
    || StartsWith(d.reason, "Generic FST-based ")
  }

  // --------------------------------------------------------------------- lemmas

  /** A text that starts with `head` does not start with a prefix that differs
      from `head` at position `i`. */
  lemma {:induction false} HeadExcludes(s: string, head: string, prefix: string, i: nat)
    requires StartsWith(s, head)
    requires i < |head| && i < |prefix| && head[i] != prefix[i]
    ensures !StartsWith(s, prefix)
  {
    assert s[i] == s[..|head|][i];
  }

  /** The heads the fallback reasons start with. */
  const FallbackHeads: seq<string> := ["French elision: ", "Spanish contraction: ", "Spanish clitic attachment: ",
                                        "German compound: ", "German compound formation: ", "No join rule found for "]

  /** A reason whose head differs from each feature-tier head at the given
      positions is not a feature-tier reason. */
  lemma {:induction false} HeadNotFeature(d: JoinDecision, head: string, f: nat, sp: nat, g: nat)
    requires StartsWith(d.reason, head) && head != [] && head[0] != 'I'
    requires f < |head| && f < 17 && head[f] != "French FST-based "[f]
    requires sp < |head| && sp < 18 && head[sp] != "Spanish FST-based "[sp]
    requires g < |head| && g < 18 && head[g] != "Generic FST-based "[g]
    ensures !FromFeatureTier(d)
  {
    HeadExcludes(d.reason, head, "French FST-based ", f);
    HeadExcludes(d.reason, head, "Italian FST-based ", 0);
    HeadExcludes(d.reason, head, "Spanish FST-based ", sp);
    HeadExcludes(d.reason, head, "Generic FST-based ", g);
  }

  lemma {:induction false} FallbackHeadNotFeature(d: JoinDecision, k: nat)
    requires k < |FallbackHeads| && StartsWith(d.reason, FallbackHeads[k])
    ensures !FromFeatureTier(d)
  {
    if k == 0 {
      HeadNotFeature(d, "French elision: ", 7, 0, 0);
    } else if k == 1 {
      HeadNotFeature(d, "Spanish contraction: ", 0, 8, 0);
    } else if k == 2 {
      HeadNotFeature(d, "Spanish clitic attachment: ", 0, 8, 0);
    } else if k == 3 {
      HeadNotFeature(d, "German compound: ", 0, 0, 3);
    } else if k == 4 {
      HeadNotFeature(d, "German compound formation: ", 0, 0, 3);
    } else {
      HeadNotFeature(d, "No join rule found for ", 0, 0, 0);
    }
  }

  /** No fallback reason reads like a feature-tier reason. */
  lemma {:induction false} FallbackNotFeature(prev: string, next: string, lang: string)
    ensures !FromFeatureTier(LanguageSpecificJoin(prev, next, lang))
  {
    var d := LanguageSpecificJoin(prev, next, lang);
    if lang == "fr-FR" && FrenchElision(prev, next).Some? {
      FallbackHeadNotFeature(d, 0);
    } else if lang == "es-ES" && SpanishCliticJoin(prev, next).Some? {
      if StartsWith(d.reason, FallbackHeads[1]) {
        FallbackHeadNotFeature(d, 1);
      } else {
        FallbackHeadNotFeature(d, 2);
      }
    } else if lang == "de-DE" && GermanCompoundJoin(prev, next).Some? {
      if StartsWith(d.reason, FallbackHeads[3]) {
        FallbackHeadNotFeature(d, 3);
      } else {
        FallbackHeadNotFeature(d, 4);
      }
    } else {
      assert d == NoRule(prev, next, lang);
      FallbackHeadNotFeature(d, 5);
    }
  }

  /** The feature tier is used exactly when both tokens have a real analysis. */
  lemma {:induction false} FeatureTierChosenIff(prev: string, next: string, lang: string,
                                                pa: seq<MorphAnalysis>, na: seq<MorphAnalysis>)
    ensures FromFeatureTier(ApplyJoin(prev, next, lang, pa, na)) <==> HasRealAnalysis(pa) && HasRealAnalysis(na)
  {
    if !(HasRealAnalysis(pa) && HasRealAnalysis(na)) {
      FallbackNotFeature(prev, next, lang);
    }
  }

  /** In the feature tier French elides exactly when the first analysis of the
      previous token has a function-word category, the next token starts with a
      vowel or any h, and the previous word is in the ten-word table. */
  lemma FeatureTierFrench(prev: string, next: string, pa: seq<MorphAnalysis>, na: seq<MorphAnalysis>)
    requires HasRealAnalysis(pa) && HasRealAnalysis(na)
    ensures var d := ApplyJoin(prev, next, "fr-FR", pa, na);
      && (d.noSpace <==> HasElidingCategory(pa[0].tags) && StartsWithClassIgnoringCase(next, FeatureOnsets)
                         && ToLower(prev) in FeatureElided)
      && (d.noSpace ==> d.surfacePrev == FeatureElided[ToLower(prev)] && d.surfaceNext == next)
      && (!d.noSpace ==> d.surfacePrev == prev && d.surfaceNext == next)
  {
  }

  /** In the feature tier every language but French keeps both tokens and the space. */
  lemma FeatureTierOtherLanguages(prev: string, next: string, lang: string, pa: seq<MorphAnalysis>, na: seq<MorphAnalysis>)
    requires HasRealAnalysis(pa) && HasRealAnalysis(na)
    requires lang != "fr-FR"
    ensures var d := ApplyJoin(prev, next, lang, pa, na);
      d.surfacePrev == prev && d.surfaceNext == next && d.joiner == " " && !d.noSpace
  {
  }

  /** The French fallback elides exactly the eleven listed words, `si` only
      before `il`/`ils`, before a listed vowel or a mute h that does not begin an
      aspirated word; otherwise the pair is reported as unmatched. */
  lemma FrenchFallback(prev: string, next: string, pa: seq<MorphAnalysis>, na: seq<MorphAnalysis>)
    requires !(HasRealAnalysis(pa) && HasRealAnalysis(na))
    ensures var d := ApplyJoin(prev, next, "fr-FR", pa, na);
      var pl := ToLower(prev);
      var nl := ToLower(next);
      var elides := pl in FallbackElided && (pl == "si" ==> nl in {"il", "ils"})
                    && (StartsWithClassIgnoringCase(next, FallbackVowels) || (StartsWithHMuet(next) && !IsHAspire(nl)));
      && (elides ==> d.surfacePrev == FallbackElided[pl] && d.surfaceNext == next && d.joiner == "" && d.noSpace)
      && (!elides ==> d == NoRule(prev, next, "fr-FR"))
  {
  }

  /** The contraction key matches exactly the pairs `de`+`el` and `a`+`el`:
      neither key has a second `+` that a token could hide. */
  lemma {:induction false} ContractionKeyExact(prev: string, next: string)
    ensures PairKey(prev, next) in SpanishContractions <==> (prev == "de" || prev == "a") && next == "el"
  {
    var key := PairKey(prev, next);
    if key == "de+el" {
      assert key[|prev|] == '+';
      assert |prev| == 2;
      assert prev == key[..2];
      assert next == key[3..];
    } else if key == "a+el" {
      assert key[|prev|] == '+';
      assert |prev| == 1;
      assert prev == key[..1];
      assert next == key[2..];
    }
  }

  /** The Spanish fallback: `de`+`el` and `a`+`el` fuse into one token; an
      `r`-final word takes one of the eleven clitics without a space; every
      other pair is reported as unmatched. */
  lemma SpanishFallback(prev: string, next: string, pa: seq<MorphAnalysis>, na: seq<MorphAnalysis>)
    requires !(HasRealAnalysis(pa) && HasRealAnalysis(na))
    ensures var d := ApplyJoin(prev, next, "es-ES", pa, na);
      var contraction := (prev == "de" || prev == "a") && next == "el";
      && (contraction ==> d.surfacePrev == (if prev == "de" then "del" else "al") && d.surfaceNext == "" && d.noSpace)
      && (!contraction && EndsWith(prev, "r") && next in SpanishClitics ==>
            d.surfacePrev == prev && d.surfaceNext == next && d.joiner == "" && d.noSpace)
      && (!contraction && !(EndsWith(prev, "r") && next in SpanishClitics) ==> d == NoRule(prev, next, "es-ES"))
  {
    var d := ApplyJoin(prev, next, "es-ES", pa, na);
    var r := SpanishCliticJoin(prev, next);
    assert d == if r.Some? then r.value else NoRule(prev, next, "es-ES");
    ContractionKeyExact(prev, next);
  }

  /** The German fallback: a listed compound replaces both tokens; two
      capitalised tokens concatenate; anything else is unmatched. */
  lemma GermanFallback(prev: string, next: string, pa: seq<MorphAnalysis>, na: seq<MorphAnalysis>)
    requires !(HasRealAnalysis(pa) && HasRealAnalysis(na))
    ensures var d := ApplyJoin(prev, next, "de-DE", pa, na);
      var key := PairKey(prev, next);
      && (key in GermanCompounds ==> d.surfacePrev == GermanCompounds[key] && d.surfaceNext == "" && d.noSpace)
      && (key !in GermanCompounds && StartsCapitalised(prev) && StartsCapitalised(next) ==>
            Rendered(d) == prev + next && d.noSpace)
      && (key !in GermanCompounds && !(StartsCapitalised(prev) && StartsCapitalised(next)) ==>
            d == NoRule(prev, next, "de-DE"))
  {
  }

  /** A compound key with a linking element has two splits, and both reach the entry. */
  lemma LinkingElementKeys()
    ensures PairKey("Liebe", "s+Lied") == PairKey("Liebe+s", "Lied") == "Liebe+s+Lied"
    ensures GermanFallbackCompound("Liebe", "s+Lied") == GermanFallbackCompound("Liebe+s", "Lied") == "Liebeslied"
  {
  }

  /** The text a German fallback decision renders. */
  function GermanFallbackCompound(prev: string, next: string): string {
    Rendered(LanguageSpecificJoin(prev, next, "de-DE"))
  }

  /** Unmatched pairs of any language keep both tokens, keep the space, and say
      which language had no rule. */
  lemma UnmatchedReason(prev: string, next: string, lang: string, pa: seq<MorphAnalysis>, na: seq<MorphAnalysis>)
    requires !(HasRealAnalysis(pa) && HasRealAnalysis(na))
    requires lang !in {"fr-FR", "es-ES", "de-DE"}
    ensures var d := ApplyJoin(prev, next, lang, pa, na);
      && d.surfacePrev == prev && d.surfaceNext == next && d.joiner == " " && !d.noSpace
      && StartsWith(d.reason, "No join rule found for " + lang + ": ")
  {
    var d := ApplyJoin(prev, next, lang, pa, na);
    var head := FallbackHeads[5] + lang + ": ";
    assert d.reason == head + (prev + " + " + next);
    StartsWithConcat(head, prev + " + " + next);
  }

  /** An unanalysed token (tags empty) never enters the feature tier. */
  lemma UnanalysedUsesFallback(prev: string, next: string, lang: string, na: seq<MorphAnalysis>)
    ensures ApplyJoin(prev, next, lang, Unanalysed(prev), na) == LanguageSpecificJoin(prev, next, lang)
  {
    assert !IsRealAnalysis(Unanalysed(prev)[0]);
  }

  /** Without analyses, a listed word other than `si` elides before a listed vowel. */
  lemma FallbackElidesBeforeVowel(prev: string, next: string)
    requires ToLower(prev) in FallbackElided && ToLower(prev) != "si"
    requires StartsWithClassIgnoringCase(next, FallbackVowels)
    ensures Rendered(ApplyJoin(prev, next, "fr-FR", [], [])) == FallbackElided[ToLower(prev)] + next
  {
    FrenchFallback(prev, next, [], []);
    var d := ApplyJoin(prev, next, "fr-FR", [], []);
    assert d.surfacePrev == FallbackElided[ToLower(prev)] && d.joiner == "" && d.surfaceNext == next;
    assert d.surfacePrev + d.joiner == d.surfacePrev;
  }

  // Examples. Each lemma below checks one input against what the source does
  // with it; the properties themselves are the general lemmas above.

  /** Without analyses, `je` elides before `aime`. */
  lemma FrenchElidesBeforeVowel()
    ensures Rendered(ApplyJoin("je", "aime", "fr-FR", [], [])) == "j\U{2019}aime"
  {
    ToLowerOfLower("je");
    AimeStartsWithVowel();
    ElisionTableEntries();
    FallbackElidesBeforeVowel("je", "aime");
  }

  /** The table entries the examples use. */
  lemma ElisionTableEntries()
    ensures "je" in FallbackElided && FallbackElided["je"] == "j\U{2019}"
    ensures "le" in FallbackElided && FallbackElided["le"] == "l\U{2019}"
    ensures "le" in FeatureElided && FeatureElided["le"] == "l\U{2019}"
    ensures "si" in FallbackElided && FallbackElided["si"] == "s\U{2019}"
  {
  }

  lemma AimeStartsWithVowel()
    ensures StartsWithClassIgnoringCase("aime", FallbackVowels)
  {
    assert InClassIgnoringCase('a', FallbackVowels) by { assert FallbackVowels[0] == 'a'; }
  }

  /** `homme` starts with a mute h and is not an aspirated word. */
  lemma HommeHasMuteH()
    ensures !StartsWithClassIgnoringCase("homme", FallbackVowels)
    ensures StartsWithHMuet("homme") && !IsHAspire(ToLower("homme"))
  {
    ToLowerOfLower("homme");
    forall k | 0 <= k < |HAspirePrefixes| ensures !StartsWith("homme", HAspirePrefixes[k]) {
      assert |HAspirePrefixes[k]| >= 3 && HAspirePrefixes[k][2] != 'm';
      HeadExcludes("homme", "hom", HAspirePrefixes[k], 2);
    }
  }

  /** `le` elides before the mute h of `homme`. */
  lemma FrenchElidesBeforeMuteH()
    ensures Rendered(ApplyJoin("le", "homme", "fr-FR", [], [])) == "l\U{2019}homme"
  {
    FrenchFallback("le", "homme", [], []);
    ToLowerOfLower("le");
    HommeHasMuteH();
    ElisionTableEntries();
  }

  /** `héros` starts with an aspirated h. */
  lemma HerosIsAspirated()
    ensures !StartsWithClassIgnoringCase("h\U{00E9}ros", FallbackVowels)
    ensures IsHAspire(ToLower("h\U{00E9}ros"))
  {
    assert ToLower("h\U{00E9}ros") == "h\U{00E9}ros";
    assert StartsWith("h\U{00E9}ros", HAspirePrefixes[1]);
  }

  /** `le` keeps its space before the aspirated h of `héros`. */
  lemma FrenchKeepsSpaceBeforeHAspire()
    ensures Rendered(ApplyJoin("le", "h\U{00E9}ros", "fr-FR", [], [])) == "le h\U{00E9}ros"
  {
    FrenchFallback("le", "h\U{00E9}ros", [], []);
    HerosIsAspirated();
  }

  /** `si` elides before `il` ... */
  lemma FrenchSiBeforeIl()
    ensures Rendered(ApplyJoin("si", "il", "fr-FR", [], [])) == "s\U{2019}il"
  {
    ToLowerOfLower("si");
    ToLowerOfLower("il");
  }

  /** ... and not before `elle`. */
  lemma FrenchSiNotBeforeElle()
    ensures Rendered(ApplyJoin("si", "elle", "fr-FR", [], [])) == "si elle"
  {
    ToLowerOfLower("si");
    ToLowerOfLower("elle");
  }

  /** An infinitive takes a clitic. */
  lemma SpanishCliticExample()
    ensures Rendered(ApplyJoin("dar", "me", "es-ES", [], [])) == "darme"
  {
    ContractionKeyExact("dar", "me");
    assert EndsWith("dar", "r") && "me" in SpanishClitics;
    var r := SpanishCliticJoin("dar", "me");
    assert r.Some? && r.value.surfacePrev == "dar" && r.value.surfaceNext == "me" && r.value.joiner == "";
  }

  /** `de`+`el` contracts to `del`. */
  lemma SpanishContractionExample()
    ensures Rendered(ApplyJoin("de", "el", "es-ES", [], [])) == "del"
  {
    assert PairKey("de", "el") == "de+el";
    var r := SpanishCliticJoin("de", "el");
    assert r.Some? && r.value.surfacePrev == "del" && r.value.surfaceNext == "";
  }

  /** A listed compound replaces both tokens. */
  lemma GermanCompoundExample()
    ensures Rendered(ApplyJoin("Haus", "T\U{00FC}r", "de-DE", [], [])) == "Haust\U{00FC}r"
  {
    assert PairKey("Haus", "T\U{00FC}r") == "Haus+T\U{00FC}r";
    var r := GermanCompoundJoin("Haus", "T\U{00FC}r");
    assert r.Some? && r.value.surfacePrev == "Haust\U{00FC}r" && r.value.surfaceNext == "";
  }

  /** A lower-case pair is unmatched. */
  lemma GermanUnmatchedExample()
    ensures Rendered(ApplyJoin("der", "Mann", "de-DE", [], [])) == "der Mann"
  {
    assert PairKey("der", "Mann") !in GermanCompounds by {
      assert PairKey("der", "Mann")[0] == 'd';
    }
    assert GermanCompoundJoin("der", "Mann") == None;
  }

  /** A determiner analysis of `le` and a noun analysis of `héros` are both real,
      and `héros` starts with one of the feature tier's onsets. */
  lemma LeHerosAnalysed(pa: seq<MorphAnalysis>, na: seq<MorphAnalysis>)
    requires pa == [MorphAnalysis("le", "le", ["det", "def"])]
    requires na == [MorphAnalysis("h\U{00E9}ros", "h\U{00E9}ros", ["n", "m"])]
    ensures HasRealAnalysis(pa) && HasRealAnalysis(na) && HasElidingCategory(pa[0].tags)
    ensures StartsWithClassIgnoringCase("h\U{00E9}ros", FeatureOnsets)
  {
    assert pa[0].tags[0] in FeatureTags && pa[0].tags[0] in ElidingCategories;
    assert na[0].tags[0] in FeatureTags;
    assert AnalysisFailed !in pa[0].tags && AnalysisFailed !in na[0].tags;
    assert InClassIgnoringCase('h', FeatureOnsets) by { assert FeatureOnsets[|FeatureOnsets| - 1] == 'h'; }
  }

  /** With a determiner analysis for `le`, the feature tier elides even before an aspirated h. */
  lemma FeatureTierElidesBeforeAnyH()
    ensures var pa := [MorphAnalysis("le", "le", ["det", "def"])];
            var na := [MorphAnalysis("h\U{00E9}ros", "h\U{00E9}ros", ["n", "m"])];
            Rendered(ApplyJoin("le", "h\U{00E9}ros", "fr-FR", pa, na)) == "l\U{2019}h\U{00E9}ros"
  {
    ToLowerOfLower("le");
    ElisionTableEntries();
    var pa := [MorphAnalysis("le", "le", ["det", "def"])];
    var na := [MorphAnalysis("h\U{00E9}ros", "h\U{00E9}ros", ["n", "m"])];
    LeHerosAnalysed(pa, na);
    FeatureTierFrench("le", "h\U{00E9}ros", pa, na);
  }
}
