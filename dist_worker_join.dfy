/** The join coordinator of the bundled worker
    (`packages/core/dist-worker/worker.js`). Its analysis test is weaker than
    the worker's (any non-empty tag list without the failure tag), its analysis
    tier always keeps the space, and only French has a fallback — the same
    French elision table and test as the worker's. */
module DistWorkerJoin {
  import opened Text
  import opened Wrappers
  import opened Protocol
  import WorkerJoin

  /** `a.tags.length > 0 && !a.tags.includes('HFST_ANALYSIS_FAILED')` */
  predicate IsTaggedAnalysis(a: MorphAnalysis) {
    |a.tags| > 0 && WorkerJoin.AnalysisFailed !in a.tags
  }

  predicate HasTaggedAnalysis(analyses: seq<MorphAnalysis>) {
    exists k :: 0 <= k < |analyses| && IsTaggedAnalysis(analyses[k])
  }

  /** `morphologyBasedJoin`: both tokens kept, space kept. */
  function MorphologyBasedJoin(prev: string, next: string, lang: string): (d: JoinDecision)
    ensures WellFormed(d) && d.surfacePrev == prev && d.surfaceNext == next && !d.noSpace
  {
    JoinDecision(prev, next, " ", false, TaggedHead + lang + ": " + (prev + " + " + next))
  }

  const TaggedHead: string := "TRUE FST-based join using morphological analysis for "

  /** `languageSpecificJoin`: the French elision for `fr-FR`, the spaced default otherwise. */
  function LanguageSpecificJoin(prev: string, next: string, lang: string): (d: JoinDecision)
    ensures WellFormed(d)
  {
    if lang == "fr-FR" && WorkerJoin.FrenchElision(prev, next).Some? then WorkerJoin.FrenchElision(prev, next).value
    else WorkerJoin.NoRule(prev, next, lang)
  }

  /** `applyJoin` of the bundled worker. */
  function ApplyJoin(prev: string, next: string, lang: string,
                     prevAnalyses: seq<MorphAnalysis>, nextAnalyses: seq<MorphAnalysis>): (d: JoinDecision)
    ensures WellFormed(d)
  {
    if HasTaggedAnalysis(prevAnalyses) && HasTaggedAnalysis(nextAnalyses) then
      MorphologyBasedJoin(prev, next, lang)
    else
      LanguageSpecificJoin(prev, next, lang)
  }

  /** Every real analysis (in the worker's sense) is a tagged one. */
  lemma {:induction false} RealIsTagged(analyses: seq<MorphAnalysis>)
    ensures WorkerJoin.HasRealAnalysis(analyses) ==> HasTaggedAnalysis(analyses)
  {
    if WorkerJoin.HasRealAnalysis(analyses) {
      var k :| 0 <= k < |analyses| && WorkerJoin.IsRealAnalysis(analyses[k]);
      assert IsTaggedAnalysis(analyses[k]);
    }
  }

  /** The bundled worker only ever removes a space through French elision: any
      other language, and French with both tokens tagged, keeps both tokens and
      the space. */
  lemma SpaceRemovedOnlyByFrenchElision(prev: string, next: string, lang: string,
                                         pa: seq<MorphAnalysis>, na: seq<MorphAnalysis>)
    ensures var d := ApplyJoin(prev, next, lang, pa, na);
      d.noSpace <==> !(HasTaggedAnalysis(pa) && HasTaggedAnalysis(na)) && lang == "fr-FR"
                     && WorkerJoin.FrenchElision(prev, next).Some?
    ensures var d := ApplyJoin(prev, next, lang, pa, na);
      !d.noSpace ==> d.surfacePrev == prev && d.surfaceNext == next && d.joiner == " "
  {
  }

  /** When either French token lacks a tagged analysis, the two workers give
      the same decision. */
  lemma {:induction false} AgreesWithWorkerOnFrenchFallback(prev: string, next: string,
                                                            pa: seq<MorphAnalysis>, na: seq<MorphAnalysis>)
    requires !(HasTaggedAnalysis(pa) && HasTaggedAnalysis(na))
    ensures ApplyJoin(prev, next, "fr-FR", pa, na) == WorkerJoin.ApplyJoin(prev, next, "fr-FR", pa, na)
  {
    RealIsTagged(pa);
    RealIsTagged(na);
  }

  /** Spanish and German pairs that the worker joins are spaced here. */
  lemma NoSpanishOrGermanRules(prev: string, next: string, lang: string,
                               pa: seq<MorphAnalysis>, na: seq<MorphAnalysis>)
    requires lang == "es-ES" || lang == "de-DE"
    ensures var d := ApplyJoin(prev, next, lang, pa, na);
      d.surfacePrev == prev && d.surfaceNext == next && !d.noSpace
  {
  }

  /** A tagged pair is reported with its language and both tokens. */
  lemma TaggedReason(prev: string, next: string, lang: string, pa: seq<MorphAnalysis>, na: seq<MorphAnalysis>)
    requires HasTaggedAnalysis(pa) && HasTaggedAnalysis(na)
    ensures var d := ApplyJoin(prev, next, lang, pa, na);
      && StartsWith(d.reason, TaggedHead + lang + ": ")
      && EndsWith(d.reason, prev + " + " + next)
  {
    var head := TaggedHead + lang + ": ";
    var tail := prev + " + " + next;
    assert ApplyJoin(prev, next, lang, pa, na).reason == head + tail;
    StartsWithConcat(head, tail);
    EndsWithConcat(head, tail);
  }
}
