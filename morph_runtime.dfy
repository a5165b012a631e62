/** The runtime selection of `packages/core/src/index.ts`: the module-level
    configuration, the ordering of tags before a generation, and the
    engine-backed `analyse` and `generate`, which fall back to the rules when
    the engine gives nothing. The worker client's answer to `applyUp` or
    `applyDown` is a parameter of these calls, and so are the stemmer and the
    `localeCompare` of the host. */
module MorphRuntime {
  import opened Wrappers
  import opened Protocol
  import RuleRuntime
  import AnalysisParse

  // ------------------------------------------------------------ tag ordering

  datatype TagOrderPolicy = Strict | Flexible

  /** `canonicalTagOrder`: lower ranks come first. */
  const CanonicalTagOrder: map<string, int> := map[
    "FEM" := 10, "MASC" := 10, "NEUT" := 10,
    "PL" := 20, "SG" := 20,
    "NOM" := 30, "ACC" := 30, "DAT" := 30, "GEN" := 30,
    "1" := 40, "2" := 40, "3" := 40,
    "PRS" := 50, "PST" := 50, "FUT" := 50]

  /** The rank of a tag: its canonical rank, 999 for a tag the table lacks. */
  function Rank(tag: string): (r: int)
    ensures 10 <= r <= 50 || (r == 999 && tag !in CanonicalTagOrder)
  {
    if tag in CanonicalTagOrder then CanonicalTagOrder[tag] else 999
  }

  /** The comparator handed to `sort`: by rank, then by `localeCompare`. */
  function Compare(a: string, b: string, localeCompare: (string, string) -> int): int {
    if Rank(a) != Rank(b) then Rank(a) - Rank(b) else localeCompare(a, b)
  }

  /** What a comparator must satisfy for `sort` to be meaningful: when `a` does
      not sort before `b`, `b` does not sort after `a`. `localeCompare` has it. */
  ghost predicate Consistent(localeCompare: (string, string) -> int) {
    forall a, b :: localeCompare(a, b) >= 0 ==> localeCompare(b, a) <= 0
  }

  /** Every neighbouring pair is in comparator order. */
  ghost predicate Ordered(tags: seq<string>, localeCompare: (string, string) -> int) {
    forall i :: 0 <= i < |tags| - 1 ==> Compare(tags[i], tags[i + 1], localeCompare) <= 0
  }

  /** One insertion step: `tag` goes after every element that does not sort
      strictly after it. */
  function Insert(tag: string, sorted: seq<string>, localeCompare: (string, string) -> int): (r: seq<string>)
    ensures multiset(r) == multiset(sorted) + multiset{tag}
    ensures |r| == |sorted| + 1
  {
    if sorted == [] then [tag]
    else if Compare(tag, sorted[0], localeCompare) < 0 then [tag] + sorted
    else
      assert sorted == [sorted[0]] + sorted[1..];
      [sorted[0]] + Insert(tag, sorted[1..], localeCompare)
  }

  /** `tags.slice().sort(...)`: an insertion sort by the comparator. */
  function SortTags(tags: seq<string>, localeCompare: (string, string) -> int): (r: seq<string>)
    ensures multiset(r) == multiset(tags)
  {
    if tags == [] then []
    else
      assert tags == tags[..|tags| - 1] + [tags[|tags| - 1]];
      Insert(tags[|tags| - 1], SortTags(tags[..|tags| - 1], localeCompare), localeCompare)
  }

  /** `orderTagsForGenerate`: a copy of the tags, in their own order under the
      strict policy and sorted under the flexible one. */
  function OrderTags(policy: TagOrderPolicy, tags: seq<string>, localeCompare: (string, string) -> int): (r: seq<string>)
    ensures multiset(r) == multiset(tags)
  {
    if policy == Strict then tags else SortTags(tags, localeCompare)
  }

  /** Inserting into an ordered list keeps it ordered, and the new first
      element is the inserted tag or the old first element. */
  lemma {:induction false} InsertOrdered(tag: string, sorted: seq<string>, localeCompare: (string, string) -> int)
    requires Consistent(localeCompare)
    requires Ordered(sorted, localeCompare)
    ensures Ordered(Insert(tag, sorted, localeCompare), localeCompare)
    ensures var r := Insert(tag, sorted, localeCompare); r[0] == tag || (sorted != [] && r[0] == sorted[0])
  {
    if sorted != [] && Compare(tag, sorted[0], localeCompare) >= 0 {
      var rest := Insert(tag, sorted[1..], localeCompare);
      OrderedTail(sorted, localeCompare);
      InsertOrdered(tag, sorted[1..], localeCompare);
      CompareFlip(tag, sorted[0], localeCompare);
      if |sorted| > 1 {
        assert Compare(sorted[0], sorted[1], localeCompare) <= 0;
      }
      OrderedCons(sorted[0], rest, localeCompare);
    }
  }

  /** A consistent comparator that does not put `a` before `b` does not put `b` after `a`. */
  lemma CompareFlip(a: string, b: string, localeCompare: (string, string) -> int)
    requires Consistent(localeCompare)
    requires Compare(a, b, localeCompare) >= 0
    ensures Compare(b, a, localeCompare) <= 0
  {
    if Rank(a) == Rank(b) {
      assert localeCompare(a, b) >= 0;
    }
  }

  /** The tail of an ordered list is ordered. */
  lemma OrderedTail(s: seq<string>, localeCompare: (string, string) -> int)
    requires s != [] && Ordered(s, localeCompare)
    ensures Ordered(s[1..], localeCompare)
  {
    forall i | 0 <= i < |s[1..]| - 1
      ensures Compare(s[1..][i], s[1..][i + 1], localeCompare) <= 0
    {
      assert s[1..][i] == s[i + 1] && s[1..][i + 1] == s[i + 2];
    }
  }

  /** An element in order with the head of an ordered list extends it. */
  lemma OrderedCons(x: string, s: seq<string>, localeCompare: (string, string) -> int)
    requires Ordered(s, localeCompare)
    requires s != [] ==> Compare(x, s[0], localeCompare) <= 0
    ensures Ordered([x] + s, localeCompare)
  {
    var r := [x] + s;
    forall i | 0 <= i < |r| - 1
      ensures Compare(r[i], r[i + 1], localeCompare) <= 0
    {
      if i > 0 {
        assert r[i] == s[i - 1] && r[i + 1] == s[i];
      }
    }
  }

  /** The flexible order is a sorted rearrangement of the tags, and the
      strict one is the tags themselves. */
  lemma {:induction false} OrderTagsSorted(tags: seq<string>, localeCompare: (string, string) -> int)
    requires Consistent(localeCompare)
    ensures Ordered(OrderTags(Flexible, tags, localeCompare), localeCompare)
    ensures multiset(OrderTags(Flexible, tags, localeCompare)) == multiset(tags)
    ensures OrderTags(Strict, tags, localeCompare) == tags
  {
    if tags != [] {
      OrderTagsSorted(tags[..|tags| - 1], localeCompare);
      InsertOrdered(tags[|tags| - 1], SortTags(tags[..|tags| - 1], localeCompare), localeCompare);
    }
  }

  /** In an ordered list the ranks never go down: every tag of the canonical
      table comes before every tag it ranks below, and unknown tags come last. */
  lemma {:induction false} OrderedRanksAscend(tags: seq<string>, localeCompare: (string, string) -> int)
    requires Ordered(tags, localeCompare)
    ensures forall i, j :: 0 <= i < j < |tags| ==> Rank(tags[i]) <= Rank(tags[j])
  {
    if |tags| > 1 {
      OrderedRanksAscend(tags[1..], localeCompare);
      assert Compare(tags[0], tags[1], localeCompare) <= 0;
      forall i, j | 0 <= i < j < |tags|
        ensures Rank(tags[i]) <= Rank(tags[j])
      {
        if i > 0 {
          assert tags[i] == tags[1..][i - 1] && tags[j] == tags[1..][j - 1];
        } else if j > 1 {
          assert tags[j] == tags[1..][j - 1] && tags[1] == tags[1..][0];
        }
      }
    }
  }

  // ------------------------------------------------------------ engine-backed calls

  /** The engine-backed `analyse` for the lines `applyUp` gave: one analysis
      per line read from its first word, or the rule analysis when there are
      no lines. */
  function HfstAnalyses(surface: string, lines: seq<string>, stem: string -> string): (r: seq<MorphAnalysis>)
    ensures lines == [] ==> r == RuleRuntime.RuleAnalyse(surface, stem)
    ensures lines != [] ==> |r| == |lines| && forall k :: 0 <= k < |lines| ==> r[k] == AnalysisParse.FirstWordLine(surface, lines[k])
    ensures forall k :: 0 <= k < |r| ==> r[k].surface == surface
  {
    if lines == [] then RuleRuntime.RuleAnalyse(surface, stem)
    else seq(|lines|, k requires 0 <= k < |lines| => AnalysisParse.FirstWordLine(surface, lines[k]))
  }

  /** The text sent to `applyDown`: the lemma and the ordered tags joined by `+`. */
  function DownRequest(policy: TagOrderPolicy, input: RuleRuntime.GenerateInput, localeCompare: (string, string) -> int): string {
    AnalysisParse.GenerateRequest(input.lemmaForm, OrderTags(policy, input.tags, localeCompare))
  }

  /** The engine-backed `generate` for the lines `applyDown` gave: the lines,
      or the rule generation from the ordered tags when there are none. */
  function HfstGenerate(policy: TagOrderPolicy, input: RuleRuntime.GenerateInput, lang: string,
                        lines: seq<string>, localeCompare: (string, string) -> int): (r: seq<string>)
    ensures lines != [] ==> r == lines
    ensures lines == [] ==> r == RuleRuntime.RuleGenerate(input, lang)
  {
    if lines != [] then lines
    else
      var tags := OrderTags(policy, input.tags, localeCompare);
      RuleRuntime.RuleGenerateIgnoresTagOrder(input.lemmaForm, tags, input.tags, lang);
      RuleRuntime.RuleGenerate(RuleRuntime.GenerateInput(input.lemmaForm, tags), lang)
  }

  /** A line that spells a generation request is analysed back into the lemma
      and ordered tags the request was built from. */
  lemma HfstAnalyseReadsRequest(policy: TagOrderPolicy, input: RuleRuntime.GenerateInput, stem: string -> string,
                                localeCompare: (string, string) -> int)
    requires AnalysisParse.Solid(input.lemmaForm)
    requires forall k :: 0 <= k < |input.tags| ==> AnalysisParse.Solid(input.tags[k])
    ensures HfstAnalyses(input.lemmaForm, [DownRequest(policy, input, localeCompare)], stem)
         == [MorphAnalysis(input.lemmaForm, input.lemmaForm, OrderTags(policy, input.tags, localeCompare))]
  {
    var tags := OrderTags(policy, input.tags, localeCompare);
    forall k | 0 <= k < |tags| ensures AnalysisParse.Solid(tags[k]) {
      assert tags[k] in multiset(input.tags);
    }
    AnalysisParse.PlusRoundTrip(input.lemmaForm, input.lemmaForm, tags);
  }

  // ------------------------------------------------------------ module state

  /** Which runtime `morph` dispatches to. */
  datatype RuntimeMode = Rules | Hfst

  const DefaultWasmUrl: string := "./wasm/hfst.wasm"

  /** The module-level variables of `index.ts`. */
  class Runtime {
    var active: RuntimeMode
    var tagOrderPolicy: TagOrderPolicy
    var hfstWasmUrl: string
    var hfstPackUrl: Option<string>
    var lastHfstUpRaw: seq<string>
    var lastHfstDownRaw: seq<string>

    constructor()
      ensures active == Rules && tagOrderPolicy == Flexible
      ensures hfstWasmUrl == DefaultWasmUrl && hfstPackUrl == None
      ensures lastHfstUpRaw == [] && lastHfstDownRaw == []
    {
      active := Rules;
      tagOrderPolicy := Flexible;
      hfstWasmUrl := DefaultWasmUrl;
      hfstPackUrl := None;
      lastHfstUpRaw := [];
      lastHfstDownRaw := [];
    }

    /** `configureMorphHfst`: an empty (or missing) option leaves its setting as it was. */
    method ConfigureMorphHfst(wasmUrl: string, packUrl: string)
      modifies this
      ensures hfstWasmUrl == if wasmUrl != "" then wasmUrl else old(hfstWasmUrl)
      ensures hfstPackUrl == if packUrl != "" then Some(packUrl) else old(hfstPackUrl)
      ensures active == old(active) && tagOrderPolicy == old(tagOrderPolicy)
      ensures lastHfstUpRaw == old(lastHfstUpRaw) && lastHfstDownRaw == old(lastHfstDownRaw)
    {
      if wasmUrl != "" {
        hfstWasmUrl := wasmUrl;
      }
      if packUrl != "" {
        hfstPackUrl := Some(packUrl);
      }
    }

    /** `configureTagOrdering`. */
    method ConfigureTagOrdering(policy: TagOrderPolicy)
      modifies this
      ensures tagOrderPolicy == policy
      ensures active == old(active) && hfstWasmUrl == old(hfstWasmUrl) && hfstPackUrl == old(hfstPackUrl)
      ensures lastHfstUpRaw == old(lastHfstUpRaw) && lastHfstDownRaw == old(lastHfstDownRaw)
    {
      tagOrderPolicy := policy;
    }

    /** `configureMorphRuntime`: the engine-backed runtime for `"hfst"`, the rules for anything else. */
    method ConfigureMorphRuntime(mode: string)
      modifies this
      ensures active == Hfst <==> mode == "hfst"
      ensures tagOrderPolicy == old(tagOrderPolicy) && hfstWasmUrl == old(hfstWasmUrl) && hfstPackUrl == old(hfstPackUrl)
      ensures lastHfstUpRaw == old(lastHfstUpRaw) && lastHfstDownRaw == old(lastHfstDownRaw)
    {
      active := if mode == "hfst" then Hfst else Rules;
    }

    /** `morph.analyse`; `upLines` is what the worker client's `applyUp` gave. */
    method Analyse(surface: string, upLines: seq<string>, stem: string -> string) returns (r: seq<MorphAnalysis>)
      modifies this
      ensures active == old(active) && tagOrderPolicy == old(tagOrderPolicy)
      ensures hfstWasmUrl == old(hfstWasmUrl) && hfstPackUrl == old(hfstPackUrl) && lastHfstDownRaw == old(lastHfstDownRaw)
      ensures active == Rules ==> r == RuleRuntime.RuleAnalyse(surface, stem) && lastHfstUpRaw == old(lastHfstUpRaw)
      ensures active == Hfst ==> r == HfstAnalyses(surface, upLines, stem) && lastHfstUpRaw == upLines
    {
      if active == Rules {
        return RuleRuntime.RuleAnalyse(surface, stem);
      }
      lastHfstUpRaw := upLines;
      r := HfstAnalyses(surface, upLines, stem);
    }

    /** `morph.generate`. Under the engine-backed runtime it returns the text
        sent to `applyDown` as `request`; `downLines` is what came back. */
    method Generate(input: RuleRuntime.GenerateInput, lang: string, downLines: seq<string>,
                    localeCompare: (string, string) -> int) returns (request: Option<string>, r: seq<string>)
      modifies this
      ensures active == old(active) && tagOrderPolicy == old(tagOrderPolicy)
      ensures hfstWasmUrl == old(hfstWasmUrl) && hfstPackUrl == old(hfstPackUrl) && lastHfstUpRaw == old(lastHfstUpRaw)
      ensures active == Rules ==>
        request == None && r == RuleRuntime.RuleGenerate(input, lang) && lastHfstDownRaw == old(lastHfstDownRaw)
      ensures active == Hfst ==>
        && request == Some(DownRequest(tagOrderPolicy, input, localeCompare))
        && r == HfstGenerate(tagOrderPolicy, input, lang, downLines, localeCompare)
        && lastHfstDownRaw == downLines
    {
      if active == Rules {
        return None, RuleRuntime.RuleGenerate(input, lang);
      }
      var tags := OrderTags(tagOrderPolicy, input.tags, localeCompare);
      request := Some(AnalysisParse.GenerateRequest(input.lemmaForm, tags));
      lastHfstDownRaw := downLines;
      if downLines == [] {
        r := RuleRuntime.RuleGenerate(RuleRuntime.GenerateInput(input.lemmaForm, tags), lang);
      } else {
        r := downLines;
      }
    }

    /** `morph.join`: both runtimes join by the rules. */
    method Join(prev: string, next: string, lang: string) returns (d: JoinDecision)
      ensures d == RuleRuntime.Join(prev, next, lang)
      ensures WellFormed(d)
    {
      d := RuleRuntime.Join(prev, next, lang);
    }
  }
}
