/** Optional values and results, used wherever the source returns `null`,
    `undefined`, or throws. */
module Wrappers {
  datatype Option<T> = None | Some(value: T)

  /** A call into code outside the model: either it returns a value or it throws
      an error carrying a message. */
  datatype Outcome<T> = Returned(value: T) | Threw(message: string)
}

/** The values that cross the boundary between the caller and the worker: the
    join decision, a morphological analysis, and the request and response
    messages of the worker protocol. */
module Protocol {
  import opened Wrappers

  /** A byte of a downloaded file. */
  newtype uint8 = x: int | 0 <= x < 256

  /** How two adjacent tokens are written together. */
  datatype JoinDecision = JoinDecision(
    surfacePrev: string,
    surfaceNext: string,
    joiner: string,
    noSpace: bool,
    reason: string)

  /** The structural promise every join decision keeps: no space exactly when the
      joiner is empty, a single space otherwise, and a reason is always given. */
  predicate WellFormed(d: JoinDecision) {
    && (d.noSpace <==> d.joiner == "")
    && (!d.noSpace <==> d.joiner == " ")
    && d.reason != ""
  }

  /** The text the two tokens become under a decision. */
  function Rendered(d: JoinDecision): string {
    d.surfacePrev + d.joiner + d.surfaceNext
  }

  /** One analysis of a surface form: a lemma (`lemmaForm`, since `lemma` is a
      Dafny keyword) and its tags. */
  datatype MorphAnalysis = MorphAnalysis(lemmaForm: string, surface: string, tags: seq<string>)

  /** The answer used when a surface form has no analysis: the form is its own lemma. */
  function Unanalysed(surface: string): seq<MorphAnalysis> {
    [MorphAnalysis(surface, surface, [])]
  }

  /** The tokens after which the rule join and the joiner package never put a space. */
  const Punctuation: seq<string> := [".", ",", "!", "?", ";", ":"]

  /** Messages from the caller to the worker. `Unknown` stands for a message
      whose type is none of the five. The pack address an `init` message may
      carry is ignored by the worker, so it is not part of the model. */
  datatype Request =
    | Init(wasmUrl: string)
    | LoadPack(packUrl: string)
    | ApplyUp(input: string)
    | ApplyDown(input: string)
    | ApplyJoin(prev: string, next: string, lang: string)
    | Unknown(kind: string)

  /** A request as a client holds it: the message, and a number standing for
      the promise that waits for its reply. */
  datatype Ticketed = Ticketed(ticket: nat, msg: Request)

  /** Messages from the worker to the caller. */
  datatype Response =
    | Ready
    | Up(outputs: seq<string>)
    | Down(outputs: seq<string>)
    | Joined(decision: JoinDecision)
    | Error(message: string)
}
