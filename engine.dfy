/** The worker's calls into the WebAssembly module. The module is a record of
    what its exports answer: `cwrap` finds a name only if it is exported, a
    lookup export is called twice (once for the size, once with a buffer one
    longer, read back as text) and a loader export is called on a path of the
    in-memory file system. Each call may throw. */
module EngineCalls {
  import opened Wrappers
  import opened Text
  import opened Protocol
  import Shim

  datatype Engine = Engine(
    /** The names `cwrap` resolves. */
    exports: set<string>,
    /** `fn(input, 0, 0)` for a lookup export. */
    probe: (string, string) -> Outcome<int>,
    /** `fn(input, buffer, capacity)` followed by `UTF8ToString(buffer)`. */
    fill: (string, string, int) -> Outcome<string>,
    /** `fn(path)` for a loader export, given the bytes the path holds. */
    load: (string, string, Option<seq<uint8>>) -> Outcome<int>)

  const WasmNotLoaded: string := "HFST_WASM_NOT_LOADED"
  const WasmError: string := "HFST_WASM_ERROR"
  const TransducerNotLoaded: string := "HFST_TRANSDUCER_NOT_LOADED"

  /** The single output that reports why a lookup did not run. */
  function Sentinel(kind: string, input: string): string {
    kind + ":" + input
  }

  /** The outputs of an `apply_up` request (identical in both workers). */
  function UpOutputs(ready: bool, loaded: bool, wasm: Option<Engine>, input: string): (outs: seq<string>)
    ensures forall k :: 0 <= k < |outs| ==> outs[k] != ""
  {
    if ready && loaded then
      if wasm.None? || "applyUp" !in wasm.value.exports then [Sentinel(WasmNotLoaded, input)]
      else
        var e := wasm.value;
        match e.probe("applyUp", input)
        case Threw(_) => [Sentinel(WasmError, input)]
        case Returned(needed) =>
          if needed <= 0 then []
          else
            match e.fill("applyUp", input, needed + 1)
            case Threw(_) => [Sentinel(WasmError, input)]
            case Returned(s) => if s == "" then [] else NonEmpty(Split(s, '\n'))
    else if loaded then [Sentinel(WasmNotLoaded, input)]
    else [Sentinel(TransducerNotLoaded, input)]
  }

  /** The outputs of an `apply_down` request in the worker: each line with its
      white space removed, or the error a failing call throws. */
  function DownOutputs(ready: bool, wasm: Option<Engine>, input: string): (r: Outcome<seq<string>>)
    ensures !ready ==> r == Returned([])
  {
    if !ready then Returned([])
    else if wasm.None? || "applyDown" !in wasm.value.exports then Returned([Sentinel(WasmNotLoaded, input)])
    else
      var e := wasm.value;
      match e.probe("applyDown", input)
      case Threw(m) => Threw(m)
      case Returned(needed) =>
        match e.fill("applyDown", input, needed + 1)
        case Threw(m) => Threw(m)
        case Returned(s) =>
          if s == "" then Returned([])
          else
            var lines := Split(s, '\n');
            Returned(seq(|lines|, k requires 0 <= k < |lines| => StripSpaces(lines[k])))
  }

  /** The outputs of an `apply_down` request in the bundled worker: the lines as they are. */
  function DistDownOutputs(ready: bool, wasm: Option<Engine>, input: string): (r: Outcome<seq<string>>)
    ensures !ready ==> r == Returned([])
  {
    if !ready then Returned([])
    else if wasm.None? || "applyDown" !in wasm.value.exports then Returned([Sentinel(WasmNotLoaded, input)])
    else
      var e := wasm.value;
      match e.probe("applyDown", input)
      case Threw(m) => Threw(m)
      case Returned(needed) =>
        match e.fill("applyDown", input, needed + 1)
        case Threw(m) => Threw(m)
        case Returned(s) => Returned(if s == "" then [] else Split(s, '\n'))
  }

  /** The text `performAnalysis` parses, or `None` where it falls back to the
      unanalysed form (both workers). */
  function AnalysisText(ready: bool, loaded: bool, wasm: Option<Engine>, surface: string): (r: Option<string>)
    ensures r.Some? ==> r.value != "" && ready && loaded && wasm.Some?
  {
    if !ready || wasm.None? || !loaded || "applyUp" !in wasm.value.exports then None
    else
      var e := wasm.value;
      match e.probe("applyUp", surface)
      case Threw(_) => None
      case Returned(needed) =>
        if needed <= 0 then None
        else
          match e.fill("applyUp", surface, needed + 1)
          case Threw(_) => None
          case Returned(s) => if s == "" then None else Some(s)
  }

  /** A lookup export that behaves like the shim on one input: the size call
      returns the shim's code, and the call with a buffer one longer than that
      reads back the shim's text (nothing when there is none). */
  predicate Serves(e: Engine, name: string, a: Shim.Answer, input: string) {
    && name in e.exports
    && e.probe(name, input) == Returned(Shim.SizeCode(a))
    && e.fill(name, input, Shim.SizeCode(a) + 1) == Returned(if a.Text? then a.text else "")
  }

  /** No symbol of any result holds a newline. */
  predicate NoNewlines(results: seq<seq<string>>) {
    forall i, j :: 0 <= i < |results| && 0 <= j < |results[i]| ==> '\n' !in results[i][j]
  }

  // --------------------------------------------------------------------- lemmas

  /** Without a ready module and a loaded analyser, `apply_up` answers with one
      sentinel: the module is missing when an analyser was loaded, the analyser otherwise. */
  lemma UpWhenNotReady(ready: bool, loaded: bool, wasm: Option<Engine>, input: string)
    requires !(ready && loaded)
    ensures UpOutputs(ready, loaded, wasm, input)
            == [Sentinel(if loaded then WasmNotLoaded else TransducerNotLoaded, input)]
  {
  }

  /** When the shim has no analyser, or its lookup throws, the size call returns
      a negative code and `apply_up` answers with no output at all (not a sentinel). */
  lemma {:induction false} UpOnShimError(e: Engine, a: Shim.Answer, input: string)
    requires !a.Text? && Serves(e, "applyUp", a, input)
    ensures UpOutputs(true, true, Some(e), input) == []
    ensures AnalysisText(true, true, Some(e), input) == None
  {
  }

  /** `apply_up` hands back exactly the shim's result lines, in order, when no
      line is empty and no symbol holds a newline. */
  lemma {:induction false} UpRecoversShimLines(e: Engine, results: seq<seq<string>>, input: string)
    requires Serves(e, "applyUp", Shim.Text(Shim.Formatted(results)), input)
    requires NoNewlines(results)
    requires forall k :: 0 <= k < |results| ==> Shim.Lines(results)[k] != ""
    ensures UpOutputs(true, true, Some(e), input) == Shim.Lines(results)
  {
    var lines := Shim.Lines(results);
    if |results| == 0 {
      assert Shim.Formatted(results) == "";
    } else {
      Shim.FormattedSplits(results);
      assert Split("", '\n') == [""];
      assert lines[0] != "";
      NonEmptyKeepsAll(lines);
    }
  }

  /** `apply_down` in the worker turns each generated result into its symbols
      written together, when no symbol holds white space. */
  lemma {:induction false} DownConcatenatesSymbols(e: Engine, results: seq<seq<string>>, input: string)
    requires Serves(e, "applyDown", Shim.Text(Shim.Formatted(results)), input)
    requires |results| >= 1 && Shim.Formatted(results) != ""
    requires forall i, j, c :: 0 <= i < |results| && 0 <= j < |results[i]| && 0 <= c < |results[i][j]| ==> !IsSpace(results[i][j][c])
    ensures DownOutputs(true, Some(e), input)
            == Returned(seq(|results|, i requires 0 <= i < |results| => Join(results[i], "")))
  {
    assert NoNewlines(results) by {
      forall i, j | 0 <= i < |results| && 0 <= j < |results[i]| ensures '\n' !in results[i][j] {
        forall c | 0 <= c < |results[i][j]| ensures results[i][j][c] != '\n' {
          assert !IsSpace(results[i][j][c]);
        }
      }
    }
    Shim.FormattedSplits(results);
    var lines := Shim.Lines(results);
    forall i | 0 <= i < |results| ensures StripSpaces(lines[i]) == Join(results[i], "") {
      StripSpacedJoin(results[i]);
    }
    var stripped := seq(|lines|, k requires 0 <= k < |lines| => StripSpaces(lines[k]));
    assert DownOutputs(true, Some(e), input) == Returned(stripped);
    assert stripped == seq(|results|, i requires 0 <= i < |results| => Join(results[i], ""));
  }

  /** The bundled worker's `apply_down` keeps the shim's lines, spaces included. */
  lemma {:induction false} DistDownKeepsLines(e: Engine, results: seq<seq<string>>, input: string)
    requires Serves(e, "applyDown", Shim.Text(Shim.Formatted(results)), input)
    requires |results| >= 1 && Shim.Formatted(results) != "" && NoNewlines(results)
    ensures DistDownOutputs(true, Some(e), input) == Returned(Shim.Lines(results))
  {
    Shim.FormattedSplits(results);
  }

  /** `performAnalysis` parses exactly the shim's text when there is some. */
  lemma AnalysisReadsShimText(e: Engine, text: string, input: string)
    requires Serves(e, "applyUp", Shim.Text(text), input) && text != ""
    ensures AnalysisText(true, true, Some(e), input) == Some(text)
  {
  }
}
