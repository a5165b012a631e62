/** The message handler of the worker (`handleMessage` in
    `packages/core/src/worker.ts`): the module-level state `ready`,
    `transducerLoaded`, the module and the cached module address, the files
    written into the module's file system, and one method per message type.
    Each message is handled as one atomic step; the environment is a `World`. */
module WorkerHost {
  import opened Wrappers
  import opened Text
  import opened Protocol
  import opened EngineCalls
  import opened PackLoading
  import AnalysisParse
  import WorkerJoin
  import Shim

  /** `String(e?.message || e)`: an error without a message prints as "Error". */
  function ThrownText(message: string): (t: string)
    ensures t != ""
  {
    if message != "" then message else "Error"
  }

  /** What `performAnalysis` answers for a surface form. */
  function Analyses(ready: bool, loaded: bool, wasm: Option<Engine>, surface: string): (r: seq<MorphAnalysis>)
    ensures |r| >= 1
    ensures forall k :: 0 <= k < |r| ==> r[k].surface == surface
  {
    match AnalysisText(ready, loaded, wasm, surface)
    case None => Unanalysed(surface)
    case Some(text) =>
      AnalysisParse.ApertiumLinesSurface(surface, NonBlank(Split(text, '\n')));
      AnalysisParse.WithFallback(AnalysisParse.ApertiumAnalyses(surface, text), surface)
  }

  /** The pack address, and the fetched bytes that passed the integrity test;
      `None` where `load_pack` stops before writing anything (an address that
      does not parse, a failed fetch, or a digest mismatch, whose error is swallowed). */
  function VerifiedPack(w: World, packUrl: string): (r: Option<(PackUrl, seq<uint8>)>)
    ensures r.Some? ==> w.resolve(packUrl) == Some(r.value.0) && w.fetchPack(r.value.0.href) == Some(r.value.1)
    ensures r.Some? ==> IntegrityOk(r.value.0.sha256, w.digest(r.value.1))
  {
    match w.resolve(packUrl)
    case None => None
    case Some(u) =>
      match w.fetchPack(u.href)
      case None => None
      case Some(buf) => if IntegrityOk(u.sha256, w.digest(buf)) then Some((u, buf)) else None
  }

  /** The generator bytes that are written for a pack address: fetched, passed
      the integrity test, and decompressed only in Node. */
  function GeneratorBytes(w: World, isNode: bool, u: PackUrl): (r: Option<seq<uint8>>)
    ensures r.Some? ==> u.gen != "" && w.fetchGenerator(u.gen).Some?
    ensures r.Some? ==> IntegrityOk(u.genSha256, w.digest(w.fetchGenerator(u.gen).value))
  {
    if u.gen == "" then None
    else match w.fetchGenerator(u.gen)
      case None => None
      case Some(g) =>
        if !IntegrityOk(u.genSha256, w.digest(g)) then None
        else Some(if isNode then Inflated(g, w.inflate) else g)
  }

  /** A pack whose digest does not match its `sha256` parameter writes nothing. */
  lemma MismatchStopsBeforeWriting(w: World, packUrl: string, u: PackUrl, buf: seq<uint8>)
    requires w.resolve(packUrl) == Some(u) && w.fetchPack(u.href) == Some(buf)
    requires u.sha256 != "" && Hex(w.digest(buf)) != ToLower(u.sha256)
    ensures VerifiedPack(w, packUrl) == None
  {
  }

  /** The worker's reader finds no analysis in what the shim writes when no
      output symbol holds a tab, so every form is its own unanalysed lemma. */
  lemma {:induction false} ShimOutputIsUnanalysed(e: Engine, results: seq<seq<string>>, surface: string)
    requires Serves(e, "applyUp", Shim.Text(Shim.Formatted(results)), surface)
    requires forall i, j :: 0 <= i < |results| && 0 <= j < |results[i]| ==> '\t' !in results[i][j]
    ensures Analyses(true, true, Some(e), surface) == Unanalysed(surface)
  {
    var text := Shim.Formatted(results);
    if text != "" {
      AnalysisReadsShimText(e, text, surface);
      AnalysisParse.ShimTextHasNoApertiumLines(surface, results);
    }
  }

  /** Hence, over the shim, `apply_join` never enters the feature tier: the
      decision is the language fallback's. */
  lemma {:induction false} ShimJoinUsesFallback(e: Engine, prevResults: seq<seq<string>>, nextResults: seq<seq<string>>,
                                                 prev: string, next: string, lang: string)
    requires Serves(e, "applyUp", Shim.Text(Shim.Formatted(prevResults)), prev)
    requires Serves(e, "applyUp", Shim.Text(Shim.Formatted(nextResults)), next)
    requires forall i, j :: 0 <= i < |prevResults| && 0 <= j < |prevResults[i]| ==> '\t' !in prevResults[i][j]
    requires forall i, j :: 0 <= i < |nextResults| && 0 <= j < |nextResults[i]| ==> '\t' !in nextResults[i][j]
    ensures WorkerJoin.ApplyJoin(prev, next, lang, Analyses(true, true, Some(e), prev), Analyses(true, true, Some(e), next))
            == WorkerJoin.LanguageSpecificJoin(prev, next, lang)
  {
    ShimOutputIsUnanalysed(e, prevResults, prev);
    ShimOutputIsUnanalysed(e, nextResults, next);
    assert !WorkerJoin.IsRealAnalysis(Unanalysed(prev)[0]);
  }

  class Host {
    var ready: bool
    var transducerLoaded: bool
    /** The module (`Module`), once started. */
    var wasm: Option<Engine>
    /** The address the last `init` message gave (`wasmUrlCache`). */
    var wasmUrlCache: Option<string>
    /** The files written into the module's file system. */
    var files: map<string, seq<uint8>>
    /** Whether the worker runs under Node's `worker_threads`. */
    const isNode: bool
    const world: World

    /** A started module always exists once the worker is ready. */
    predicate Valid()
      reads this
    {
      ready ==> wasm.Some?
    }

    constructor(isNode: bool, world: World)
      ensures Valid()
      ensures !ready && !transducerLoaded && wasm == None && wasmUrlCache == None && files == map[]
      ensures this.isNode == isNode && this.world == world
    {
      ready := false;
      transducerLoaded := false;
      wasm := None;
      wasmUrlCache := None;
      files := map[];
      this.isNode := isNode;
      this.world := world;
    }

    /** `init`: remember the address, start the module, become ready. A new
        module comes with an empty file system; the loaded flag is kept. */
    method Init(wasmUrl: string) returns (resp: Response)
      requires Valid()
      modifies this
      ensures Valid()
      ensures wasmUrlCache == Some(wasmUrl) && transducerLoaded == old(transducerLoaded)
      ensures match world.startup(Some(wasmUrl))
        case Returned(e) => ready && wasm == Some(e) && files == map[] && resp == Ready
        case Threw(m) =>
          && ready == old(ready) && wasm == old(wasm) && files == old(files)
          && resp == Error(ThrownText(m))
    {
      wasmUrlCache := Some(wasmUrl);
      var started := world.startup(Some(wasmUrl));
      if started.Threw? {
        return Error(ThrownText(started.message));
      }
      wasm := Some(started.value);
      files := map[];
      ready := true;
      resp := Ready;
    }

    /** `load_pack`. Without a module it only starts one (and does not set
        `ready`). With one, an empty address does nothing; otherwise the pack is
        fetched, checked, decompressed, written and loaded, and every error on
        the way is swallowed. The reply is `ready` in every case but a failed start. */
    method LoadPack(packUrl: string) returns (resp: Response)
      requires Valid()
      modifies this
      ensures Valid()
      ensures ready == old(ready) && wasmUrlCache == old(wasmUrlCache)
      ensures old(wasm).None? ==>
        && transducerLoaded == old(transducerLoaded)
        && match world.startup(old(wasmUrlCache))
           case Returned(e) => wasm == Some(e) && files == map[] && resp == Ready
           case Threw(m) => wasm == None && files == old(files) && resp == Error(ThrownText(m))
      ensures old(wasm).Some? ==> resp == Ready && wasm == old(wasm)
      ensures old(wasm).Some? && (packUrl == "" || VerifiedPack(world, packUrl).None?) ==>
        files == old(files) && transducerLoaded == old(transducerLoaded)
      ensures old(wasm).Some? && packUrl != "" && VerifiedPack(world, packUrl).Some? ==>
        var (u, buf) := VerifiedPack(world, packUrl).value;
        var e := old(wasm).value;
        var mount := MountPath(u.pathname);
        var bytes := Inflated(buf, world.inflate);
        var mounted := old(files)[mount := bytes];
        && transducerLoaded == (old(transducerLoaded) || AnalyserLoads(e, mount, Some(bytes)))
        && files == if ("loadTransducer" in e.exports && e.load("loadTransducer", mount, Some(bytes)).Threw?)
                       || GeneratorBytes(world, isNode, u).None?
                    then mounted
                    else mounted[GeneratorPath(u.gen) := GeneratorBytes(world, isNode, u).value]
    {
      if wasm.None? {
        var started := world.startup(wasmUrlCache);
        if started.Threw? {
          return Error(ThrownText(started.message));
        }
        wasm := Some(started.value);
        files := map[];
        return Ready;
      }
      if packUrl != "" {
        LoadFromAddress(wasm.value, packUrl);
      }
      resp := Ready;
    }

    /** The body of the `try` in `load_pack`: returning early stands for an
        error the `catch` swallows, or for a failed fetch. */
    method LoadFromAddress(e: Engine, packUrl: string)
      modifies this
      ensures ready == old(ready) && wasm == old(wasm) && wasmUrlCache == old(wasmUrlCache)
      ensures VerifiedPack(world, packUrl).None? ==>
        files == old(files) && transducerLoaded == old(transducerLoaded)
      ensures VerifiedPack(world, packUrl).Some? ==>
        var (u, buf) := VerifiedPack(world, packUrl).value;
        var mount := MountPath(u.pathname);
        var bytes := Inflated(buf, world.inflate);
        var mounted := old(files)[mount := bytes];
        && transducerLoaded == (old(transducerLoaded) || AnalyserLoads(e, mount, Some(bytes)))
        && files == if ("loadTransducer" in e.exports && e.load("loadTransducer", mount, Some(bytes)).Threw?)
                       || GeneratorBytes(world, isNode, u).None?
                    then mounted
                    else mounted[GeneratorPath(u.gen) := GeneratorBytes(world, isNode, u).value]
    {
      var resolved := world.resolve(packUrl);
      if resolved.None? {
        return;
      }
      var u := resolved.value;
      var fetched := world.fetchPack(u.href);
      if fetched.None? {
        return;
      }
      var buf := fetched.value;
      if u.sha256 != "" && Hex(world.digest(buf)) != ToLower(u.sha256) {
        return;
      }
      assert VerifiedPack(world, packUrl) == Some((u, buf));
      var mount := MountPath(u.pathname);
      var finalBuf := buf;
      if IsGzip(buf) {
        var inflated := world.inflate(buf);
        if inflated.Some? {
          if isNode {
            finalBuf := Flatten(inflated.value);
          } else {
            var assembled := AssembleChunks(inflated.value);
            finalBuf := assembled[..];
          }
        }
      }
      assert finalBuf == Inflated(buf, world.inflate);
      files := files[mount := finalBuf];
      var loadResult := LoadEntrypoints(e, mount, Some(finalBuf));
      if loadResult.Threw? {
        return;
      }
      if loadResult.value == 0 {
        transducerLoaded := true;
      }
      if u.gen != "" {
        LoadGeneratorFile(u);
      }
    }

    /** The generator step: fetch, check the `gensha256` digest (a mismatch
        throws and ends the step), decompress only in Node, write. The result
        of `loadGenerator` is only logged, so it changes nothing here. */
    method LoadGeneratorFile(u: PackUrl)
      requires u.gen != ""
      modifies this
      ensures ready == old(ready) && wasm == old(wasm) && wasmUrlCache == old(wasmUrlCache)
      ensures transducerLoaded == old(transducerLoaded)
      ensures files == match GeneratorBytes(world, isNode, u)
        case None => old(files)
        case Some(g) => old(files)[GeneratorPath(u.gen) := g]
    {
      var fetched := world.fetchGenerator(u.gen);
      if fetched.None? {
        return;
      }
      var g := fetched.value;
      if u.genSha256 != "" && Hex(world.digest(g)) != ToLower(u.genSha256) {
        return;
      }
      var finalGen := g;
      if IsGzip(g) && isNode {
        var inflated := world.inflate(g);
        if inflated.Some? {
          finalGen := Flatten(inflated.value);
        }
      }
      files := files[GeneratorPath(u.gen) := finalGen];
    }

    /** `apply_up`: never an error reply. */
    method ApplyUp(input: string) returns (resp: Response)
      ensures resp == Up(UpOutputs(ready, transducerLoaded, wasm, input))
    {
      var outputs: seq<string>;
      if ready && transducerLoaded {
        if wasm.None? || "applyUp" !in wasm.value.exports {
          outputs := [Sentinel(WasmNotLoaded, input)];
        } else {
          var e := wasm.value;
          var needed := e.probe("applyUp", input);
          if needed.Threw? {
            outputs := [Sentinel(WasmError, input)];
          } else if needed.value <= 0 {
            outputs := [];
          } else {
            var s := e.fill("applyUp", input, needed.value + 1);
            if s.Threw? {
              outputs := [Sentinel(WasmError, input)];
            } else {
              outputs := if s.value == "" then [] else NonEmpty(Split(s.value, '\n'));
            }
          }
        }
      } else if transducerLoaded {
        outputs := [Sentinel(WasmNotLoaded, input)];
      } else {
        outputs := [Sentinel(TransducerNotLoaded, input)];
      }
      resp := Up(outputs);
    }

    /** `apply_down`: the generated lines with white space removed; an error
        thrown by the module becomes an error reply. */
    method ApplyDown(input: string) returns (resp: Response)
      ensures match DownOutputs(ready, wasm, input)
        case Returned(outputs) => resp == Down(outputs)
        case Threw(m) => resp == Error(ThrownText(m))
    {
      var outcome := DownOutputs(ready, wasm, input);
      if outcome.Threw? {
        return Error(ThrownText(outcome.message));
      }
      resp := Down(outcome.value);
    }

    /** `performAnalysis`: the module's analysis of a form, parsed, or the form as its own lemma. */
    method PerformAnalysis(surface: string) returns (analyses: seq<MorphAnalysis>)
      ensures analyses == Analyses(ready, transducerLoaded, wasm, surface)
    {
      var text := AnalysisText(ready, transducerLoaded, wasm, surface);
      if text.None? {
        return Unanalysed(surface);
      }
      analyses := AnalysisParse.ParseApertium(surface, text.value);
    }

    /** `apply_join`: both forms analysed, then the coordinator decides. */
    method ApplyJoin(prev: string, next: string, lang: string) returns (resp: Response)
      ensures resp.Joined? && WellFormed(resp.decision)
      ensures resp == Joined(WorkerJoin.ApplyJoin(prev, next, lang,
                               Analyses(ready, transducerLoaded, wasm, prev),
                               Analyses(ready, transducerLoaded, wasm, next)))
    {
      var prevAnalyses := PerformAnalysis(prev);
      var nextAnalyses := PerformAnalysis(next);
      resp := Joined(WorkerJoin.ApplyJoin(prev, next, lang, prevAnalyses, nextAnalyses));
    }

    /** `handleMessage`: one reply per message. Only `init` and `load_pack`
        change the state; `ready` and `transducerLoaded` are never reset;
        `apply_up` and `apply_join` never reply with an error. */
    method HandleMessage(req: Request) returns (resp: Response)
      requires Valid()
      modifies this
      ensures Valid()
      ensures !(req.Init? || req.LoadPack?) ==> unchanged(this)
      ensures old(ready) ==> ready
      ensures old(transducerLoaded) ==> transducerLoaded
      ensures req.Init? ==> resp.Ready? || resp.Error?
      ensures req.LoadPack? ==> resp.Ready? || (old(wasm).None? && resp.Error?)
      ensures req.ApplyUp? ==> resp.Up?
      ensures req.ApplyDown? ==> resp.Down? || (old(ready) && resp.Error?)
      ensures req.ApplyJoin? ==> resp.Joined? && WellFormed(resp.decision)
      ensures req.Unknown? ==> resp == Error("unknown message")
    {
      match req
      case Init(wasmUrl) => resp := Init(wasmUrl);
      case LoadPack(packUrl) => resp := LoadPack(packUrl);
      case ApplyUp(input) => resp := ApplyUp(input);
      case ApplyDown(input) => resp := ApplyDown(input);
      case ApplyJoin(prev, next, lang) => resp := ApplyJoin(prev, next, lang);
      case Unknown(_) => resp := Error("unknown message");
    }
  }
}
