/** The message handler of the bundled worker (`handleMessage` in
    `packages/core/dist-worker/worker.js`): the same state and messages as the
    worker's, but the pack is written as fetched (no gzip step), the generator
    is only fetched in a browser, `apply_down` keeps the lines as they are, and
    analyses are read in the `lemma+TAG` form. */
module DistWorkerHost {
  import opened Wrappers
  import opened Text
  import opened Protocol
  import opened EngineCalls
  import opened PackLoading
  import AnalysisParse
  import DistWorkerJoin
  import WorkerHost

  /** What the bundled `performAnalysis` answers for a surface form. */
  function Analyses(ready: bool, loaded: bool, wasm: Option<Engine>, surface: string): (r: seq<MorphAnalysis>)
    ensures |r| >= 1
  {
    match AnalysisText(ready, loaded, wasm, surface)
    case None => Unanalysed(surface)
    case Some(text) => AnalysisParse.WithFallback(AnalysisParse.PlusAnalyses(surface, text), surface)
  }

  /** The generator bytes that are written: only in a browser (in Node the
      expression reads the browser global `self`, which Node does not define,
      and the error is swallowed), fetched, checked, and written as fetched. */
  function GeneratorBytes(w: World, isNode: bool, u: PackUrl): (r: Option<seq<uint8>>)
    ensures r.Some? ==> !isNode && u.gen != "" && w.fetchGenerator(u.gen) == Some(r.value)
    ensures r.Some? ==> IntegrityOk(u.genSha256, w.digest(r.value))
  {
    if isNode || u.gen == "" then None
    else match w.fetchGenerator(u.gen)
      case None => None
      case Some(g) => if IntegrityOk(u.genSha256, w.digest(g)) then Some(g) else None
  }

  /** The bundled worker writes the generator only where the worker writes it,
      and then the same bytes unless the worker decompressed them. */
  lemma {:induction false} GeneratorAgreesWithWorker(w: World, isNode: bool, u: PackUrl)
    ensures GeneratorBytes(w, isNode, u).Some? ==> WorkerHost.GeneratorBytes(w, isNode, u) == GeneratorBytes(w, isNode, u)
    ensures !isNode ==> GeneratorBytes(w, isNode, u) == WorkerHost.GeneratorBytes(w, isNode, u)
  {
  }

  class Host {
    var ready: bool
    var transducerLoaded: bool
    var wasm: Option<Engine>
    var wasmUrlCache: Option<string>
    var files: map<string, seq<uint8>>
    const isNode: bool
    const world: World

    predicate Valid()
      reads this
    {
      ready ==> wasm.Some?
    }

    constructor(isNode: bool, world: World)
      ensures Valid()
      ensures !ready && !transducerLoaded && wasm == None && wasmUrlCache == None && files == map[]
      ensures this.isNode == isNode && this.world == world
    {
      ready := false;
      transducerLoaded := false;
      wasm := None;
      wasmUrlCache := None;
      files := map[];
      this.isNode := isNode;
      this.world := world;
    }

    /** `init`, as in the worker. */
    method Init(wasmUrl: string) returns (resp: Response)
      requires Valid()
      modifies this
      ensures Valid()
      ensures wasmUrlCache == Some(wasmUrl) && transducerLoaded == old(transducerLoaded)
      ensures match world.startup(Some(wasmUrl))
        case Returned(e) => ready && wasm == Some(e) && files == map[] && resp == Ready
        case Threw(m) =>
          && ready == old(ready) && wasm == old(wasm) && files == old(files)
          && resp == Error(WorkerHost.ThrownText(m))
    {
      wasmUrlCache := Some(wasmUrl);
      var started := world.startup(Some(wasmUrl));
      if started.Threw? {
        return Error(WorkerHost.ThrownText(started.message));
      }
      wasm := Some(started.value);
      files := map[];
      ready := true;
      resp := Ready;
    }

    /** `load_pack`: the pack's bytes are written unchanged to the mount path. */
    method LoadPack(packUrl: string) returns (resp: Response)
      requires Valid()
      modifies this
      ensures Valid()
      ensures ready == old(ready) && wasmUrlCache == old(wasmUrlCache)
      ensures old(wasm).None? ==>
        && transducerLoaded == old(transducerLoaded)
        && match world.startup(old(wasmUrlCache))
           case Returned(e) => wasm == Some(e) && files == map[] && resp == Ready
           case Threw(m) => wasm == None && files == old(files) && resp == Error(WorkerHost.ThrownText(m))
      ensures old(wasm).Some? ==> resp == Ready && wasm == old(wasm)
      ensures old(wasm).Some? && (packUrl == "" || WorkerHost.VerifiedPack(world, packUrl).None?) ==>
        files == old(files) && transducerLoaded == old(transducerLoaded)
      ensures old(wasm).Some? && packUrl != "" && WorkerHost.VerifiedPack(world, packUrl).Some? ==>
        var (u, buf) := WorkerHost.VerifiedPack(world, packUrl).value;
        var e := old(wasm).value;
        var mount := MountPath(u.pathname);
        var mounted := old(files)[mount := buf];
        && transducerLoaded == (old(transducerLoaded) || AnalyserLoads(e, mount, Some(buf)))
        && files == if ("loadTransducer" in e.exports && e.load("loadTransducer", mount, Some(buf)).Threw?)
                       || GeneratorBytes(world, isNode, u).None?
                    then mounted
                    else mounted[GeneratorPath(u.gen) := GeneratorBytes(world, isNode, u).value]
    {
      if wasm.None? {
        var started := world.startup(wasmUrlCache);
        if started.Threw? {
          return Error(WorkerHost.ThrownText(started.message));
        }
        wasm := Some(started.value);
        files := map[];
        return Ready;
      }
      if packUrl != "" {
        LoadFromAddress(wasm.value, packUrl);
      }
      resp := Ready;
    }

    /** The body of the `try` in `load_pack`; returning early stands for a
        swallowed error or a failed fetch. */
    method LoadFromAddress(e: Engine, packUrl: string)
      modifies this
      ensures ready == old(ready) && wasm == old(wasm) && wasmUrlCache == old(wasmUrlCache)
      ensures WorkerHost.VerifiedPack(world, packUrl).None? ==>
        files == old(files) && transducerLoaded == old(transducerLoaded)
      ensures WorkerHost.VerifiedPack(world, packUrl).Some? ==>
        var (u, buf) := WorkerHost.VerifiedPack(world, packUrl).value;
        var mount := MountPath(u.pathname);
        var mounted := old(files)[mount := buf];
        && transducerLoaded == (old(transducerLoaded) || AnalyserLoads(e, mount, Some(buf)))
        && files == if ("loadTransducer" in e.exports && e.load("loadTransducer", mount, Some(buf)).Threw?)
                       || GeneratorBytes(world, isNode, u).None?
                    then mounted
                    else mounted[GeneratorPath(u.gen) := GeneratorBytes(world, isNode, u).value]
    {
      var resolved := world.resolve(packUrl);
      if resolved.None? {
        return;
      }
      var u := resolved.value;
      var fetched := world.fetchPack(u.href);
      if fetched.None? {
        return;
      }
      var buf := fetched.value;
      if u.sha256 != "" && Hex(world.digest(buf)) != ToLower(u.sha256) {
        return;
      }
      var mount := MountPath(u.pathname);
      files := files[mount := buf];
      var loadResult := LoadEntrypoints(e, mount, Some(buf));
      if loadResult.Threw? {
        return;
      }
      if loadResult.value == 0 {
        transducerLoaded := true;
      }
      if u.gen != "" && !isNode {
        var g := world.fetchGenerator(u.gen);
        if g.Some? {
          if u.genSha256 != "" && Hex(world.digest(g.value)) != ToLower(u.genSha256) {
            return;
          }
          files := files[GeneratorPath(u.gen) := g.value];
        }
      }
    }

    /** `apply_up`: identical to the worker's. */
    method ApplyUp(input: string) returns (resp: Response)
      ensures resp == Up(UpOutputs(ready, transducerLoaded, wasm, input))
    {
      resp := Up(UpOutputs(ready, transducerLoaded, wasm, input));
    }

    /** `apply_down`: the generated lines as they are. */
    method ApplyDown(input: string) returns (resp: Response)
      ensures match DistDownOutputs(ready, wasm, input)
        case Returned(outputs) => resp == Down(outputs)
        case Threw(m) => resp == Error(WorkerHost.ThrownText(m))
    {
      var outcome := DistDownOutputs(ready, wasm, input);
      if outcome.Threw? {
        return Error(WorkerHost.ThrownText(outcome.message));
      }
      resp := Down(outcome.value);
    }

    /** `performAnalysis` of the bundled worker. */
    method PerformAnalysis(surface: string) returns (analyses: seq<MorphAnalysis>)
      ensures analyses == Analyses(ready, transducerLoaded, wasm, surface)
    {
      var text := AnalysisText(ready, transducerLoaded, wasm, surface);
      if text.None? {
        return Unanalysed(surface);
      }
      analyses := AnalysisParse.ParsePlus(surface, text.value);
    }

    /** `apply_join`: both forms analysed, then the bundled coordinator decides. */
    method ApplyJoin(prev: string, next: string, lang: string) returns (resp: Response)
      ensures resp.Joined? && WellFormed(resp.decision)
      ensures resp == Joined(DistWorkerJoin.ApplyJoin(prev, next, lang,
                               Analyses(ready, transducerLoaded, wasm, prev),
                               Analyses(ready, transducerLoaded, wasm, next)))
    {
      var prevAnalyses := PerformAnalysis(prev);
      var nextAnalyses := PerformAnalysis(next);
      resp := Joined(DistWorkerJoin.ApplyJoin(prev, next, lang, prevAnalyses, nextAnalyses));
    }

    /** `handleMessage`, with the same guarantees as the worker's. */
    method HandleMessage(req: Request) returns (resp: Response)
      requires Valid()
      modifies this
      ensures Valid()
      ensures !(req.Init? || req.LoadPack?) ==> unchanged(this)
      ensures old(ready) ==> ready
      ensures old(transducerLoaded) ==> transducerLoaded
      ensures req.Init? ==> resp.Ready? || resp.Error?
      ensures req.LoadPack? ==> resp.Ready? || (old(wasm).None? && resp.Error?)
      ensures req.ApplyUp? ==> resp.Up?
      ensures req.ApplyDown? ==> resp.Down? || (old(ready) && resp.Error?)
      ensures req.ApplyJoin? ==> resp.Joined? && WellFormed(resp.decision)
      ensures req.Unknown? ==> resp == Error("unknown message")
    {
      match req
      case Init(wasmUrl) => resp := Init(wasmUrl);
      case LoadPack(packUrl) => resp := LoadPack(packUrl);
      case ApplyUp(input) => resp := ApplyUp(input);
      case ApplyDown(input) => resp := ApplyDown(input);
      case ApplyJoin(prev, next, lang) => resp := ApplyJoin(prev, next, lang);
      case Unknown(_) => resp := Error("unknown message");
    }
  }
}
