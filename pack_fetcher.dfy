/** The in-memory logic of the pack fetcher (`tools/pack-fetcher.mjs`): the
    command-line parser, the language-code mapping, the name under which the
    analyser is saved, and the entry written into the pack index. Fetching,
    hashing, Brotli compression and the files themselves are left out. */
module PackFetcher {
  import opened Wrappers
  import opened Text
  import PackLoading

  // ------------------------------------------------------------ command line

  /** The parsed options. */
  datatype Args = Args(outDir: string, version: string, langs: seq<string>)

  /** How `parseArgs` ends: with the options, by throwing, or by exiting the process. */
  datatype ArgsResult = Parsed(args: Args) | Thrown(message: string) | Exited(status: int)

  const DefaultOutDir: string := "packs"
  const DefaultVersion: string := "v1"
  const Defaults: Args := Args(DefaultOutDir, DefaultVersion, [])
  const UnknownFlagPrefix: string := "Unknown flag: "

  predicate IsFlag(t: string) {
    StartsWith(t, "--")
  }

  /** `a[++i] ?? fallback` seen from the flag at the head of `a`. */
  function ValueAfter(a: seq<string>, fallback: string): string {
    if |a| >= 2 then a[1] else fallback
  }

  /** What is left once a flag and its value are consumed. */
  function AfterValue(a: seq<string>): (rest: seq<string>)
    ensures |rest| < |a| || a == []
  {
    if |a| >= 2 then a[2..] else []
  }

  /** The loop of `parseArgs` over the remaining tokens `a`, from the options
      gathered so far: languages are only ever appended, each one a token of
      `a` that is not a flag; a throw names an unknown flag. */
  function Walk(a: seq<string>, acc: Args): (r: Outcome<Args>)
    ensures r.Returned? ==>
      && |acc.langs| <= |r.value.langs|
      && r.value.langs[..|acc.langs|] == acc.langs
      && forall k :: |acc.langs| <= k < |r.value.langs| ==> r.value.langs[k] in a && !IsFlag(r.value.langs[k])
    ensures r.Threw? ==>
      && StartsWith(r.message, UnknownFlagPrefix)
      && var t := r.message[|UnknownFlagPrefix|..];
         t in a && IsFlag(t) && t != "--out" && t != "--version"
    decreases |a|
  {
    if a == [] then Returned(acc)
    else if a[0] == "--out" then Walk(AfterValue(a), acc.(outDir := ValueAfter(a, DefaultOutDir)))
    else if a[0] == "--version" then Walk(AfterValue(a), acc.(version := ValueAfter(a, DefaultVersion)))
    else if IsFlag(a[0]) then
      assert (UnknownFlagPrefix + a[0])[|UnknownFlagPrefix|..] == a[0];
      Threw(UnknownFlagPrefix + a[0])
    else
      var r := Walk(a[1..], acc.(langs := acc.langs + [a[0]]));
      assert r.Returned? ==> r.value.langs[..|acc.langs|] == (r.value.langs[..|acc.langs| + 1])[..|acc.langs|];
      r
  }

  /** The whole of `parseArgs` for the process arguments `argv`. */
  function ArgsOf(argv: seq<string>): (r: ArgsResult)
    ensures r.Parsed? ==> r.args.langs != [] && forall k :: 0 <= k < |r.args.langs| ==> !IsFlag(r.args.langs[k])
  {
    var a := if |argv| >= 2 then argv[2..] else [];
    match Walk(a, Defaults)
    case Threw(m) => Thrown(m)
    case Returned(args) => if args.langs == [] then Exited(1) else Parsed(args)
  }

  /** `parseArgs`: the index loop over `argv.slice(2)`. A flag that takes a
      value moves the index past it even when it is the last token. */
  method ParseArgs(argv: seq<string>) returns (r: ArgsResult)
    ensures r == ArgsOf(argv)
  {
    var a := if |argv| >= 2 then argv[2..] else [];
    var outDir, version, langs := DefaultOutDir, DefaultVersion, [];
    var i := 0;
    while i < |a|
      invariant 0 <= i <= |a| + 1
      invariant Walk(a, Defaults) ==
        if i <= |a| then Walk(a[i..], Args(outDir, version, langs)) else Returned(Args(outDir, version, langs))
    {
      var t := a[i];
      ghost var acc := Args(outDir, version, langs);
      ghost var rest := a[i..];
      assert rest[0] == t;
      if t == "--out" {
        i := i + 1;
        outDir := if i < |a| then a[i] else DefaultOutDir;
        assert ValueAfter(rest, DefaultOutDir) == outDir;
        assert i + 1 <= |a| ==> AfterValue(rest) == a[i + 1..];
      } else if t == "--version" {
        i := i + 1;
        version := if i < |a| then a[i] else DefaultVersion;
        assert ValueAfter(rest, DefaultVersion) == version;
        assert i + 1 <= |a| ==> AfterValue(rest) == a[i + 1..];
      } else if IsFlag(t) {
        return Thrown(UnknownFlagPrefix + t);
      } else {
        langs := langs + [t];
        assert rest[1..] == a[i + 1..];
      }
      i := i + 1;
    }
    if langs == [] {
      return Exited(1);
    }
    r := Parsed(Args(outDir, version, langs));
  }

  /** Tokens that are not flags are all taken as languages, in order. */
  lemma {:induction false} WalkOperands(ops: seq<string>, rest: seq<string>, acc: Args)
    requires forall k :: 0 <= k < |ops| ==> !IsFlag(ops[k])
    ensures Walk(ops + rest, acc) == Walk(rest, acc.(langs := acc.langs + ops))
  {
    if ops != [] {
      assert IsFlag("--out") && IsFlag("--version");
      assert (ops + rest)[0] == ops[0];
      assert (ops + rest)[1..] == ops[1..] + rest;
      WalkOperands(ops[1..], rest, acc.(langs := acc.langs + [ops[0]]));
      assert acc.langs + [ops[0]] + ops[1..] == acc.langs + ops;
    } else {
      assert acc.langs + ops == acc.langs;
      assert ops + rest == rest;
    }
  }

  /** Printing the options back as a command line and parsing it gives them back. */
  lemma ParseArgsRoundTrip(node: string, script: string, args: Args)
    requires args.langs != []
    requires forall k :: 0 <= k < |args.langs| ==> !IsFlag(args.langs[k])
    ensures ArgsOf([node, script, "--out", args.outDir, "--version", args.version] + args.langs) == Parsed(args)
  {
    var a := ([node, script, "--out", args.outDir, "--version", args.version] + args.langs)[2..];
    var b := ["--version", args.version] + args.langs;
    var afterOut := Args(args.outDir, DefaultVersion, []);
    var afterVersion := Args(args.outDir, args.version, []);
    assert a == ["--out", args.outDir] + b;
    assert a[0] == "--out" && AfterValue(a) == b && ValueAfter(a, DefaultOutDir) == args.outDir;
    assert Walk(a, Defaults) == Walk(b, afterOut);
    assert b[0] == "--version" && AfterValue(b) == args.langs + [] && ValueAfter(b, DefaultVersion) == args.version;
    assert Walk(b, afterOut) == Walk(args.langs + [], afterVersion);
    WalkOperands(args.langs, [], afterVersion);
  }

  /** Without flags every argument after the first two is a language, and the
      defaults `packs` and `v1` stand. */
  lemma PlainOperands(argv: seq<string>)
    requires |argv| > 2
    requires forall k :: 2 <= k < |argv| ==> !IsFlag(argv[k])
    ensures ArgsOf(argv) == Parsed(Args(DefaultOutDir, DefaultVersion, argv[2..]))
  {
    assert argv[2..] + [] == argv[2..];
    WalkOperands(argv[2..], [], Defaults);
  }

  /** A trailing `--out` with no value puts the output directory back to the
      default, whatever an earlier `--out` said. */
  lemma TrailingFlagRestoresDefault(node: string, script: string, dir: string, langs: seq<string>)
    requires langs != []
    requires forall k :: 0 <= k < |langs| ==> !IsFlag(langs[k])
    ensures ArgsOf([node, script, "--out", dir] + langs + ["--out"]) == Parsed(Args(DefaultOutDir, DefaultVersion, langs))
  {
    var argv := [node, script, "--out", dir] + langs + ["--out"];
    assert argv[2..] == ["--out", dir] + (langs + ["--out"]);
    assert AfterValue(argv[2..]) == langs + ["--out"];
    WalkOperands(langs, ["--out"], Args(dir, DefaultVersion, []));
  }

  /** An unknown flag makes `parseArgs` throw, even when no language came
      before it (the throw happens before the check for an empty list). */
  lemma UnknownFlagThrows(argv: seq<string>, ops: seq<string>, t: string, rest: seq<string>)
    requires |argv| >= 2 && argv[2..] == ops + [t] + rest
    requires forall k :: 0 <= k < |ops| ==> !IsFlag(ops[k])
    requires IsFlag(t) && t != "--out" && t != "--version"
    ensures ArgsOf(argv) == Thrown(UnknownFlagPrefix + t)
  {
    assert ops + [t] + rest == ops + ([t] + rest);
    WalkOperands(ops, [t] + rest, Defaults);
  }

  /** No language on the command line exits with status 1. */
  lemma NoLanguageExits(node: string, script: string, dir: string)
    ensures ArgsOf([node, script]) == Exited(1)
    ensures ArgsOf([node, script, "--out", dir]) == Exited(1)
  {
    var a := [node, script, "--out", dir][2..];
    assert a == ["--out", dir] && a[0] == "--out";
    assert AfterValue(a) == [];
    assert Walk(a, Defaults) == Walk([], Defaults.(outDir := dir));
  }

  // ------------------------------------------------------------ language codes

  /** The first piece of a split is the text before the first separator. */
  lemma {:induction false} SplitHead(s: string, sep: char)
    ensures StartsWith(s, Split(s, sep)[0])
    ensures sep in s ==> |Split(s, sep)[0]| < |s| && s[|Split(s, sep)[0]|] == sep
    ensures sep !in s ==> Split(s, sep)[0] == s
  {
    if s != [] {
      SplitHead(s[1..], sep);
      assert s == [s[0]] + s[1..];
      if s[0] != sep {
        assert sep in s ==> sep in s[1..];
      }
    }
  }

  /** `toISO`: the lower-cased tag up to its first `-`. */
  function ToISO(lang: string): (r: string)
    ensures '-' !in r
    ensures StartsWith(ToLower(lang), r)
    ensures |r| == |lang| || ToLower(lang)[|r|] == '-'
  {
    var lower := ToLower(lang);
    SplitHead(lower, '-');
    SplitNoSeparator(lower, '-');
    if '-' in lower then Split(lower, '-')[0] else lower
  }

  /** A tag without `-` is simply lower-cased. */
  lemma ToISOUnhyphenated(lang: string)
    requires '-' !in lang
    ensures ToISO(lang) == ToLower(lang)
  {
    var lower := ToLower(lang);
    assert forall k :: 0 <= k < |lang| ==> lower[k] == LowerChar(lang[k]) != '-';
    var r := ToISO(lang);
    assert |r| == |lang|;
  }

  /** A code that is already lower case and has no `-` is its own `toISO`. */
  lemma ToISOOfCode(code: string)
    requires forall k :: 0 <= k < |code| ==> 'a' <= code[k] <= 'z'
    ensures ToISO(code) == code
  {
    ToLowerOfLower(code);
    ToISOUnhyphenated(code);
  }

  /** `toISO` drops the region subtag. */
  lemma ToISOIgnoresRegion(lang: string, region: string)
    requires '-' !in lang
    ensures ToISO(lang + "-" + region) == ToLower(lang)
  {
    var s := lang + "-" + region;
    var r := ToISO(s);
    assert ToLower(s)[|lang|] == '-';
    assert forall k :: 0 <= k < |lang| ==> ToLower(s)[k] == LowerChar(lang[k]) != '-';
    assert |r| == |lang|;
    assert r == ToLower(s)[..|lang|];
  }

  /** Applying `toISO` twice is applying it once. */
  lemma ToISOIdempotent(lang: string)
    ensures ToISO(ToISO(lang)) == ToISO(lang)
  {
    var r := ToISO(lang);
    ToISOUnhyphenated(r);
    ToLowerIdempotent(lang);
    assert r == ToLower(lang)[..|r|];
    assert ToLower(r) == ToLower(ToLower(lang))[..|r|];
  }

  /** The table of two-letter codes the tool knows a three-letter code for. */
  const Iso3Map: map<string, string> := map[
    "en" := "eng", "fr" := "fra", "es" := "spa", "de" := "deu",
    "it" := "ita", "fi" := "fin", "sv" := "swe", "no" := "nob",
    "da" := "dan", "nn" := "nno", "is" := "isl", "fo" := "fao",
    "ru" := "rus", "et" := "est", "eu" := "eus", "ca" := "cat"]

  /** `toISO3`: the table's code for the two-letter code, or that code itself. */
  function ToISO3(lang: string): (r: string)
    ensures '-' !in r
    ensures r == ToISO(lang) || (ToISO(lang) in Iso3Map && r == Iso3Map[ToISO(lang)] && |r| == 3)
  {
    var iso2 := ToISO(lang);
    if iso2 in Iso3Map then Iso3Map[iso2] else iso2
  }

  /** The keys of the table are two letters long. */
  lemma Iso3KeysShape()
    ensures forall k :: k in Iso3Map ==> |k| == 2
  {
  }

  /** The codes of the table are three lower-case letters, so none of them is
      a key of the table. */
  lemma Iso3CodesShape()
    ensures forall k :: k in Iso3Map ==> |Iso3Map[k]| == 3
    ensures forall k :: k in Iso3Map ==> forall i :: 0 <= i < 3 ==> 'a' <= Iso3Map[k][i] <= 'z'
  {
  }

  /** `toISO3` is idempotent: a code it returns maps to itself. */
  lemma ToISO3Idempotent(lang: string)
    ensures ToISO3(ToISO3(lang)) == ToISO3(lang)
  {
    var iso2 := ToISO(lang);
    var r := ToISO3(lang);
    if iso2 in Iso3Map {
      Iso3KeysShape();
      Iso3CodesShape();
      ToISOOfCode(r);
      assert r !in Iso3Map;
    } else {
      ToISOIdempotent(lang);
    }
  }

  // ------------------------------------------------------------ saved names and the index

  const PmhfstName: string := "analysis.pmhfst"
  const HfstolName: string := "analysis.hfstol"

  /** The name the analyser is saved under: by the (case-sensitive) suffix of
      the address it was fetched from. */
  function AnalyserName(url: string): (name: string)
    ensures name == PmhfstName || name == HfstolName
    ensures name == PmhfstName <==> EndsWith(url, ".pmhfst")
  {
    if EndsWith(url, ".pmhfst") then PmhfstName else HfstolName
  }

  /** The address a pack file is served from: `/packs/<lang>/<version>/<name>`. */
  function PackPath(lang: string, version: string, name: string): (p: string)
    ensures StartsWith(p, "/packs/") && EndsWith(p, "/" + name)
  {
    var p := "/packs/" + lang + "/" + version + "/" + name;
    assert p[..7] == "/packs/";
    assert p[|p| - |name| - 1..] == "/" + name;
    p
  }

  /** A pack path splits on `/` back into its parts, so lang, version and name
      are recovered from it when none of them holds a `/`. */
  lemma PackPathRoundTrip(lang: string, version: string, name: string)
    requires '/' !in lang && '/' !in version && '/' !in name
    ensures Split(PackPath(lang, version, name), '/') == ["", "packs", lang, version, name]
  {
    var parts := ["", "packs", lang, version, name];
    assert Join(parts[4..], "/") == name;
    assert Join(parts[3..], "/") == version + "/" + name by { assert parts[3..][1..] == parts[4..]; }
    assert Join(parts[2..], "/") == lang + "/" + version + "/" + name by { assert parts[2..][1..] == parts[3..]; }
    assert Join(parts[1..], "/") == "packs" + "/" + lang + "/" + version + "/" + name by { assert parts[1..][1..] == parts[2..]; }
    assert Join(parts, "/") == PackPath(lang, version, name);
    SplitJoin(parts, '/');
  }

  /** The worker mounts an analyser served from the index under the name the
      tool saved it as. */
  lemma IndexedAnalyserMounts(lang: string, version: string, url: string)
    ensures PackLoading.MountPath(PackPath(lang, version, AnalyserName(url))) == "/" + AnalyserName(url)
  {
    MountOfSavedName(PackPath(lang, version, AnalyserName(url)), AnalyserName(url));
  }

  lemma MountOfSavedName(p: string, name: string)
    requires name == PmhfstName || name == HfstolName
    requires EndsWith(p, "/" + name)
    ensures PackLoading.MountPath(p) == "/" + name
  {
    var suffix := if name == PmhfstName then ".pmhfst" else ".hfstol";
    SavedNameSuffix(name);
    assert p[|p| - 7..] == ("/" + name)[9..];
    LowerKeepsSuffix(p, suffix);
    var lower := ToLower(p);
    if name == HfstolName {
      assert lower[|lower| - 6] == suffix[1];
    }
  }

  /** Each saved name ends with its own file suffix. */
  lemma SavedNameSuffix(name: string)
    requires name == PmhfstName || name == HfstolName
    ensures |name| == 15
    ensures "/" + name == if name == PmhfstName then "/analysis.pmhfst" else "/analysis.hfstol"
    ensures ("/" + name)[9..] == if name == PmhfstName then ".pmhfst" else ".hfstol"
  {
  }

  /** Lower-casing keeps a lower-case file suffix. */
  lemma LowerKeepsSuffix(p: string, suffix: string)
    requires suffix == ".pmhfst" || suffix == ".hfstol"
    requires EndsWith(p, suffix)
    ensures EndsWith(ToLower(p), suffix)
  {
    var lower := ToLower(p);
    var n := |p| - 7;
    forall k | n <= k < |p|
      ensures lower[k] == p[k]
    {
      assert p[k] == suffix[k - n];
    }
    assert lower[n..] == p[n..];
  }

  /** One entry of `index.json`; `null`s and absent members are `None`. */
  datatype IndexEntry = IndexEntry(
    version: string, analysis: string, sha256: string,
    generation: Option<string>, generationSha256: Option<string>)

  /** The in-memory half of `updateIndex`: the parsed index, whose entry for
      one language is replaced. */
  class PackIndex {
    var entries: map<string, IndexEntry>

    constructor(entries: map<string, IndexEntry>)
      ensures this.entries == entries
    {
      this.entries := entries;
    }

    /** Replace the entry of `lang`; the generator is recorded only when both
        its name and its checksum are non-empty (both truthy). */
    method Update(lang: string, version: string, analyserName: string, sha256Hex: string,
                  genName: string, genSha: string)
      modifies this
      ensures entries.Keys == old(entries).Keys + {lang}
      ensures forall l :: l in old(entries) && l != lang ==> entries[l] == old(entries)[l]
      ensures var e := entries[lang];
        && e.version == version && e.analysis == PackPath(lang, version, analyserName) && e.sha256 == sha256Hex
        && (genName != "" && genSha != "" ==>
              e.generation == Some(PackPath(lang, version, genName)) && e.generationSha256 == Some(genSha))
        && (genName == "" || genSha == "" ==> e.generation == None && e.generationSha256 == None)
    {
      var analysisRel := PackPath(lang, version, analyserName);
      entries := entries[lang := IndexEntry(version, analysisRel, sha256Hex, None, None)];
      if genName != "" && genSha != "" {
        var generationRel := PackPath(lang, version, genName);
        entries := entries[lang := entries[lang].(generation := Some(generationRel), generationSha256 := Some(genSha))];
      }
    }
  }
}
