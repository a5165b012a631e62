/** The rule-based runtime of the core package (`packages/core/src/index.ts`):
    pluralisation by suffix rules, generation from a lemma and tags, analysis
    by stemming, and the language-specific join rules. */
module RuleRuntime {
  import opened Text
  import opened Wrappers
  import opened Protocol

  /** The input of `generate`: a lemma and the tags to realise. */
  datatype GenerateInput = GenerateInput(lemmaForm: string, tags: seq<string>)

  /** The languages `pluralize` has a rule for; every other language keeps the lemma. */
  const PluralLanguages: set<string> := {"en-US", "es-ES", "es-MX", "fr-FR", "de-DE", "it-IT", "fi-FI"}

  /** `/[^aeiou]y$/`: a final `y` after a character that is not a lower-case vowel. */
  predicate ConsonantY(w: string) {
    |w| >= 2 && w[|w| - 1] == 'y' && w[|w| - 2] !in "aeiou"
  }

  /** `/(s|x|z|ch|sh)$/` */
  predicate SibilantEnd(w: string) {
    EndsWith(w, "s") || EndsWith(w, "x") || EndsWith(w, "z") || EndsWith(w, "ch") || EndsWith(w, "sh")
  }

  /** The English rule: `y` after a consonant becomes `ies`, a sibilant takes `es`, anything else `s`. */
  function EnglishPlural(word: string): (r: string)
    ensures EndsWith(r, "s") && |r| > |word|
    ensures ConsonantY(word) ==> StartsWith(r, word[..|word| - 1])
    ensures !ConsonantY(word) ==> StartsWith(r, word)
  {
    if ConsonantY(word) then word[..|word| - 1] + "ies"
    else if SibilantEnd(word) then word + "es"
    else word + "s"
  }

  /** The Spanish rule: `s` after a vowel, `es` after anything else. */
  function SpanishPlural(word: string): (r: string)
    ensures EndsWith(r, "s") && StartsWith(r, word) && |r| > |word|
  {
    if |word| > 0 && word[|word| - 1] in "aeiou" then word + "s" else word + "es"
  }

  /** The French rule: `al` becomes `aux`, anything else takes `s`. */
  function FrenchPlural(word: string): (r: string)
    ensures (EndsWith(r, "s") || EndsWith(r, "aux")) && |r| > |word|
    ensures EndsWith(word, "al") ==> StartsWith(r, word[..|word| - 2])
    ensures !EndsWith(word, "al") ==> StartsWith(r, word)
  {
    if EndsWith(word, "al") then word[..|word| - 2] + "aux" else word + "s"
  }

  /** The Italian rule: final `o` becomes `i`, final `a` becomes `e`, anything else takes `i`. */
  function ItalianPlural(word: string): (r: string)
    ensures (EndsWith(r, "i") || EndsWith(r, "e")) && |r| >= |word|
    ensures |word| >= 1 ==> StartsWith(r, word[..|word| - 1])
  {
    if EndsWith(word, "o") then word[..|word| - 1] + "i"
    else if EndsWith(word, "a") then word[..|word| - 1] + "e"
    else word + "i"
  }

  /** `pluralize`: the plural of a lemma by the suffix rule of its language;
      a language without a rule keeps the lemma. */
  function Pluralize(word: string, lang: string): (r: string)
    ensures lang !in PluralLanguages ==> r == word
  {
    if lang == "en-US" then EnglishPlural(word)
    else if lang == "es-ES" || lang == "es-MX" then SpanishPlural(word)
    else if lang == "fr-FR" then FrenchPlural(word)
    else if lang == "de-DE" then word + "e"
    else if lang == "it-IT" then ItalianPlural(word)
    else if lang == "fi-FI" then word + "t"
    else word
  }

  /** Every rule keeps the lemma up to its last two letters and ends the plural
      in its language's plural ending. */
  lemma PluralizeKeepsStem(word: string, lang: string)
    requires lang in PluralLanguages
    ensures var r := Pluralize(word, lang);
      && |r| >= |word|
      && (|word| >= 2 ==> StartsWith(r, word[..|word| - 2]))
      && (lang in {"en-US", "es-ES", "es-MX"} ==> EndsWith(r, "s"))
      && (lang == "de-DE" ==> EndsWith(r, "e"))
      && (lang == "fi-FI" ==> EndsWith(r, "t"))
  {
    var r := Pluralize(word, lang);
    if |word| >= 2 {
      var stem := word[..|word| - 2];
      if lang == "en-US" {
        if ConsonantY(word) {
          assert word[..|word| - 1][..|word| - 2] == stem;
        }
      } else if lang == "it-IT" {
        assert word[..|word| - 1][..|word| - 2] == stem;
      } else if lang == "fr-FR" && !EndsWith(word, "al") {
        assert r[..|word|][..|word| - 2] == stem;
      }
    }
  }

  // Examples. Each lemma below checks one input against what the source does
  // with it; the property itself is the general lemma above.

  lemma PluralizeEnglishExamples()
    ensures Pluralize("cat", "en-US") == "cats"
    ensures Pluralize("city", "en-US") == "cities"
    ensures Pluralize("church", "en-US") == "churches"
  {
    assert !ConsonantY("cat") && !SibilantEnd("cat");
    assert ConsonantY("city") && "city"[..3] == "cit";
    assert !ConsonantY("church") && "church"[4..] == "ch";
  }

  lemma PluralizeOtherExamples()
    ensures Pluralize("ciudad", "es-MX") == "ciudades"
    ensures Pluralize("ty", "cy-GB") == "ty"
  {
  }

  /** The French and Italian rules replace the last letters. */
  lemma PluralizeStemChangeExamples()
    ensures Pluralize("cheval", "fr-FR") == "chevaux"
    ensures Pluralize("libro", "it-IT") == "libri"
  {
    assert "cheval"[4..] == "al" && "cheval"[..4] == "chev";
    assert "libro"[4..] == "o" && "libro"[..4] == "libr";
  }

  /** `ruleRuntime.generate`: a single form, the plural exactly when `PL` is
      among the tags. */
  function RuleGenerate(input: GenerateInput, lang: string): (r: seq<string>)
    ensures |r| == 1
    ensures "PL" in input.tags ==> r[0] == Pluralize(input.lemmaForm, lang)
    ensures "PL" !in input.tags ==> r[0] == input.lemmaForm
  {
    if "PL" in input.tags then [Pluralize(input.lemmaForm, lang)] else [input.lemmaForm]
  }

  /** Generation by rule looks only at which tags are present, never at their
      order or number: any rearrangement of the tags generates the same form. */
  lemma RuleGenerateIgnoresTagOrder(word: string, tags1: seq<string>, tags2: seq<string>, lang: string)
    requires multiset(tags1) == multiset(tags2)
    ensures RuleGenerate(GenerateInput(word, tags1), lang) == RuleGenerate(GenerateInput(word, tags2), lang)
  {
    assert "PL" in tags1 <==> "PL" in multiset(tags1);
    assert "PL" in tags2 <==> "PL" in multiset(tags2);
  }

  /** `ruleRuntime.analyse`: one analysis whose lemma is the stem of the surface
      form, tagged `STEM`. The stemmer is a parameter of the model. */
  function RuleAnalyse(surface: string, stem: string -> string): (r: seq<MorphAnalysis>)
    ensures |r| == 1 && r[0].surface == surface && r[0].tags == ["STEM"]
  {
    [MorphAnalysis(stem(surface), surface, ["STEM"])]
  }

  /** `startsWithVowel` of the rule join: `/^[aeiouàáâäæéèêëîïìíôöòóœùúûüỳýÿ]/i`. */
  const JoinVowels: string :=
    "aeiou\U{00E0}\U{00E1}\U{00E2}\U{00E4}\U{00E6}\U{00E9}\U{00E8}\U{00EA}\U{00EB}\U{00EE}\U{00EF}\U{00EC}\U{00ED}"
    + "\U{00F4}\U{00F6}\U{00F2}\U{00F3}\U{0153}\U{00F9}\U{00FA}\U{00FB}\U{00FC}\U{1EF3}\U{00FD}\U{00FF}"

  predicate StartsWithVowel(s: string) {
    StartsWithClassIgnoringCase(s, JoinVowels)
  }

  /** `FR_H_ASPIRE`: words whose initial h blocks elision. */
  const FrHAspire: set<string> := {"haricot", "h\U{00E9}ros", "honte", "hache", "h\U{00E9}risson"}

  /** The French words the rule join elides, and their elided forms. */
  const FrElided: map<string, string> :=
    map["je" := "j\U{2019}", "le" := "l\U{2019}", "la" := "l\U{2019}", "ce" := "c\U{2019}", "se" := "s\U{2019}"]

  /** `/^[A-Z]?[NnLlRrMmBbCcDdGgPpTtFf]/`: the onsets after which Welsh `yn`
      marks a mutation context. */
  predicate WelshMutationOnset(n: string) {
    var onset := "NnLlRrMmBbCcDdGgPpTtFf";
    (|n| >= 1 && n[0] in onset) || (|n| >= 2 && 'A' <= n[0] <= 'Z' && n[1] in onset)
  }

  /** The French rule of the join: elide before a vowel or a mute h. */
  function FrenchRule(prev: string, next: string): (r: Option<JoinDecision>)
    ensures r.Some? ==> r.value.noSpace && r.value.surfaceNext == next
  {
    var pl := ToLower(prev);
    var nl := ToLower(next);
    if pl in FrElided && (StartsWithVowel(next) || (StartsWith(nl, "h") && nl !in FrHAspire)) then
      Some(JoinDecision(FrElided[pl], next, "", true, "FR elision"))
    else None
  }

  /** The Italian rules: elide `lo` and `una` before a vowel, attach `mente`. */
  function ItalianRule(prev: string, next: string): (r: Option<JoinDecision>)
    ensures r.Some? ==> r.value.noSpace && r.value.surfaceNext == next
  {
    var pl := ToLower(prev);
    var nl := ToLower(next);
    if (pl == "lo" || pl == "una") && StartsWithVowel(next) then
      Some(JoinDecision(if pl == "lo" then "l\U{2019}" else "un\U{2019}", next, "", true, "IT elision"))
    else if nl == "mente" then
      Some(JoinDecision(prev, next, "", true, "IT derivation -mente"))
    else None
  }

  /** The English rules: the article `an`, the plural `children`, affixes that attach. */
  function EnglishRule(prev: string, next: string): (r: Option<JoinDecision>)
    ensures r.Some? ==> WellFormed(r.value)
  {
    var pl := ToLower(prev);
    var nl := ToLower(next);
    if pl == "a" && StartsWithVowel(next) then
      Some(JoinDecision("an", next, " ", false, "EN article alternation"))
    else if pl == "child" && nl == "ren" then
      Some(JoinDecision("children", "", "", true, "EN irregular plural"))
    else if nl in ["ing", "s"] || pl == "un" then
      Some(JoinDecision(prev, next, "", true, "EN affix/concat"))
    else None
  }

  /** The Welsh rules: the article `yr` before a vowel, the mutation context after `yn`. */
  function WelshRule(prev: string, next: string): (r: Option<JoinDecision>)
    ensures r.Some? ==> !r.value.noSpace && r.value.joiner == " " && r.value.surfaceNext == next
  {
    var pl := ToLower(prev);
    if pl == "yr" && StartsWithVowel(next) then
      Some(JoinDecision("yr", next, " ", false, "CY article before vowel"))
    else if pl == "yn" && WelshMutationOnset(next) then
      Some(JoinDecision(prev, next, " ", false, "CY mutation context"))
    else None
  }

  /** The rule of a language, if the language has one and it applies to the pair. */
  function LanguageRule(prev: string, next: string, lang: string): Option<JoinDecision> {
    if lang == "fr-FR" then FrenchRule(prev, next)
    else if lang == "it-IT" then ItalianRule(prev, next)
    else if lang == "en-US" then EnglishRule(prev, next)
    else if lang == "cy-GB" then WelshRule(prev, next)
    else None
  }

  /** `ruleRuntime.join`: how two adjacent tokens are written: punctuation
      first, then the rule of the language, then Basque spacing, then the
      default single space. */
  function Join(prev: string, next: string, lang: string): (d: JoinDecision)
    ensures WellFormed(d)
  {
    if next in Punctuation then JoinDecision(prev, next, "", true, "punctuation")
    else
      var rule := LanguageRule(prev, next, lang);
      if rule.Some? then rule.value
      else if lang == "eu-ES" then JoinDecision(prev, next, " ", false, "EU default spacing")
      else JoinDecision(prev, next, " ", false, "default")
  }

  /** Punctuation attaches to the previous token in every language. */
  lemma JoinPunctuation(prev: string, next: string, lang: string)
    requires next in Punctuation
    ensures Rendered(Join(prev, next, lang)) == prev + next
  {
  }

  /** French elides exactly `je`, `le`, `la`, `ce`, `se` (in any case) before a
      vowel or a mute h, and the elided form is the word's first letter followed
      by an apostrophe. */
  lemma {:induction false} JoinFrenchElision(prev: string, next: string)
    requires next !in Punctuation
    ensures var d := Join(prev, next, "fr-FR");
      && (d.noSpace <==>
            ToLower(prev) in {"je", "le", "la", "ce", "se"}
            && (StartsWithVowel(next) || (StartsWith(ToLower(next), "h") && ToLower(next) !in FrHAspire)))
      && (d.noSpace ==> Rendered(d) == [ToLower(prev)[0], '\U{2019}'] + next)
      && (!d.noSpace ==> Rendered(d) == prev + " " + next)
  {
    var pl := ToLower(prev);
    var d := Join(prev, next, "fr-FR");
    assert d == (if FrenchRule(prev, next).Some? then FrenchRule(prev, next).value
                 else JoinDecision(prev, next, " ", false, "default"));
    if d.noSpace {
      assert pl in FrElided;
      assert pl == "je" || pl == "le" || pl == "la" || pl == "ce" || pl == "se";
      assert FrElided[pl] == [pl[0], '\U{2019}'];
      assert d.surfacePrev == FrElided[pl] && d.joiner == "" && d.surfaceNext == next;
      assert d.surfacePrev + d.joiner == d.surfacePrev;
    }
  }

  /** Italian elides `lo` and `una` before a vowel (the word loses its last
      letter and takes an apostrophe) and attaches the suffix `mente`; every
      other pair is spaced. */
  lemma {:induction false} JoinItalian(prev: string, next: string)
    requires next !in Punctuation
    ensures var d := Join(prev, next, "it-IT");
      var pl := ToLower(prev);
      && (d.noSpace <==> ((pl == "lo" || pl == "una") && StartsWithVowel(next)) || ToLower(next) == "mente")
      && (d.reason == "IT elision" ==> d.surfacePrev == pl[..|pl| - 1] + "\U{2019}")
      && (d.noSpace && d.reason != "IT elision" ==> Rendered(d) == prev + next)
      && (!d.noSpace ==> Rendered(d) == prev + " " + next)
  {
    var pl := ToLower(prev);
    var nl := ToLower(next);
    var d := Join(prev, next, "it-IT");
    assert d == (if ItalianRule(prev, next).Some? then ItalianRule(prev, next).value
                 else JoinDecision(prev, next, " ", false, "default"));
    if pl == "lo" && StartsWithVowel(next) {
      assert d == JoinDecision("l\U{2019}", next, "", true, "IT elision");
      assert pl[..|pl| - 1] == "l";
    } else if pl == "una" && StartsWithVowel(next) {
      assert d == JoinDecision("un\U{2019}", next, "", true, "IT elision");
      assert pl[..|pl| - 1] == "un";
    } else if nl == "mente" {
      assert d == JoinDecision(prev, next, "", true, "IT derivation -mente");
    } else {
      assert d == JoinDecision(prev, next, " ", false, "default");
    }
  }

  /** English: `a` becomes `an` before a vowel, `child` + `ren` is `children`,
      the suffixes `ing` and `s` and the prefix `un` attach, the article rule
      taking precedence; every other pair is spaced. */
  lemma {:induction false} JoinEnglish(prev: string, next: string)
    requires next !in Punctuation
    ensures var d := Join(prev, next, "en-US");
      var pl := ToLower(prev);
      var nl := ToLower(next);
      && (pl == "a" && StartsWithVowel(next) ==> Rendered(d) == "an " + next)
      && (pl == "child" && nl == "ren" ==> Rendered(d) == "children")
      && (d.noSpace <==> !(pl == "a" && StartsWithVowel(next))
                         && ((pl == "child" && nl == "ren") || nl == "ing" || nl == "s" || pl == "un"))
  {
    var pl := ToLower(prev);
    var d := Join(prev, next, "en-US");
    EnglishJoinCases(prev, next);
    if pl == "a" && StartsWithVowel(next) {
      assert Rendered(d) == "an " + next;
    }
  }

  /** The other English decisions keep both tokens: attached when a rule applies, spaced otherwise. */
  lemma {:induction false} JoinEnglishKeepsTokens(prev: string, next: string)
    requires next !in Punctuation
    ensures var d := Join(prev, next, "en-US");
      && (d.noSpace && d.reason != "EN irregular plural" ==> Rendered(d) == prev + next)
      && (!d.noSpace && d.reason != "EN article alternation" ==> Rendered(d) == prev + " " + next)
  {
    EnglishJoinCases(prev, next);
  }

  /** The English join, case by case. */
  lemma EnglishJoinCases(prev: string, next: string)
    requires next !in Punctuation
    ensures var pl := ToLower(prev);
      var nl := ToLower(next);
      Join(prev, next, "en-US") ==
        if pl == "a" && StartsWithVowel(next) then JoinDecision("an", next, " ", false, "EN article alternation")
        else if pl == "child" && nl == "ren" then JoinDecision("children", "", "", true, "EN irregular plural")
        else if nl == "ing" || nl == "s" || pl == "un" then JoinDecision(prev, next, "", true, "EN affix/concat")
        else JoinDecision(prev, next, " ", false, "default")
  {
    var nl := ToLower(next);
    assert nl in ["ing", "s"] <==> nl == "ing" || nl == "s";
  }

  /** The only rules that rewrite a token are the elisions, the English article
      and irregular plural, and the Welsh article; every other decision keeps
      both tokens as they were given. */
  lemma JoinKeepsTokens(prev: string, next: string, lang: string)
    ensures var d := Join(prev, next, lang);
      && (d.surfaceNext == next || d.reason == "EN irregular plural")
      && (d.surfacePrev == prev
          || d.reason in {"FR elision", "IT elision", "EN article alternation", "EN irregular plural", "CY article before vowel"})
  {
  }

  /** Welsh never joins two tokens: `yr` (in any case) before a vowel is
      written as the lower-case article, `yn` before a mutation onset is
      marked as a mutation context, and every other pair gets the default. */
  lemma JoinWelsh(prev: string, next: string)
    requires next !in Punctuation
    ensures var d := Join(prev, next, "cy-GB");
      var pl := ToLower(prev);
      && !d.noSpace
      && (d.reason == "CY article before vowel" <==> pl == "yr" && StartsWithVowel(next))
      && (d.reason == "CY mutation context" <==> pl == "yn" && WelshMutationOnset(next))
      && (d.reason == "default" <==> !(pl == "yr" && StartsWithVowel(next)) && !(pl == "yn" && WelshMutationOnset(next)))
      && Rendered(d) == (if d.reason == "CY article before vowel" then "yr" else prev) + " " + next
  {
  }

  /** A language without join rules spaces every pair but punctuation. */
  lemma JoinOtherLanguages(prev: string, next: string, lang: string)
    requires lang !in {"fr-FR", "it-IT", "en-US", "cy-GB"}
    requires next !in Punctuation
    ensures Rendered(Join(prev, next, lang)) == prev + " " + next
  {
  }

  // Examples. Each lemma below checks one input against what the source does
  // with it; the properties themselves are the general lemmas above.

  /** `aime` and `apple` start with a vowel of the rule join. */
  lemma VowelOnsetExamples()
    ensures StartsWithVowel("aime") && StartsWithVowel("apple")
  {
    assert InClassIgnoringCase('a', JoinVowels) by { assert JoinVowels[0] == 'a'; }
  }

  lemma JoinFrenchExample()
    ensures Rendered(Join("je", "aime", "fr-FR")) == "j\U{2019}aime"
  {
    ToLowerOfLower("je");
    VowelOnsetExamples();
    JoinFrenchElision("je", "aime");
  }

  lemma JoinFrenchHAspireExample()
    ensures Rendered(Join("le", "haricot", "fr-FR")) == "le haricot"
  {
    ToLowerOfLower("le");
    ToLowerOfLower("haricot");
    assert "haricot" in FrHAspire;
    assert !StartsWithVowel("haricot");
    assert FrenchRule("le", "haricot") == None;
  }

  lemma JoinEnglishExample()
    ensures Rendered(Join("a", "apple", "en-US")) == "an apple"
  {
    ToLowerOfLower("a");
    VowelOnsetExamples();
    JoinEnglish("a", "apple");
  }
}
