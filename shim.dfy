/** The C++ shim compiled to WebAssembly (`tools/build-wasm/shim.cpp`): two
    global transducer slots, loaders for them, and the two lookup entry points
    that write their answer into a caller's buffer. The transducer library is a
    parameter: opening a file either yields a transducer or throws, and a lookup
    either yields its results or throws. Text is a sequence of Unicode scalar
    values, so sizes and buffer capacities count characters where the shim's
    `std::string` counts UTF-8 bytes. */
module Shim {
  import opened Wrappers
  import opened Text

  /** A transducer read from a file: a lookup of a `^input$` key yields a list of
      results, each a list of output symbols, or `None` when the lookup throws. */
  datatype TransducerFile = TransducerFile(lookup: string -> Option<seq<seq<string>>>)

  /** The key the shim looks up for an input. */
  function LookupKey(input: string): string {
    "^" + input + "$"
  }

  /** The line the shim writes for one result: its symbols, separated by spaces. */
  function Lines(results: seq<seq<string>>): (lines: seq<string>)
    ensures |lines| == |results|
    ensures forall i :: 0 <= i < |results| ==> lines[i] == Join(results[i], " ")
  {
    seq(|results|, i requires 0 <= i < |results| => Join(results[i], " "))
  }

  /** The text the shim writes for a lookup: one line per result, separated by
      newlines, with no newline after the last. */
  function Formatted(results: seq<seq<string>>): string {
    Join(Lines(results), "\n")
  }

  /** What an entry point has to say about an input before it copies anything. */
  datatype Answer = NoTransducer | LookupFailed | Text(text: string)

  function AnswerOf(t: Option<TransducerFile>, input: string): Answer {
    if t.None? then NoTransducer
    else match t.value.lookup(LookupKey(input))
      case None => LookupFailed
      case Some(results) => Text(Formatted(results))
  }

  /** The code an entry point returns when it is asked only for the size:
      -2 without a transducer, -3 when the lookup throws, the text length otherwise. */
  function SizeCode(a: Answer): int {
    match a
    case NoTransducer => -2
    case LookupFailed => -3
    case Text(s) => |s|
  }

  /** The number of characters copied into a buffer of `outCap` slots: all of
      them when they fit beside the terminator, else as many as fit. */
  function CopiedLength(text: string, outCap: int): (n: int)
    requires outCap > 0
    ensures 0 <= n <= |text| && n < outCap
    ensures n == |text| <==> |text| < outCap
  {
    if |text| < outCap then |text| else outCap - 1
  }

  /** The text before the first terminator of a buffer (`UTF8ToString`). */
  function CString(buffer: seq<char>): (s: string)
    ensures |s| <= |buffer| && s == buffer[..|s|]
    ensures '\0' !in s
    ensures |s| < |buffer| ==> buffer[|s|] == '\0'
  {
    if buffer == [] || buffer[0] == '\0' then ""
    else [buffer[0]] + CString(buffer[1..])
  }

  /** The formatting loop of an entry point, as `std::ostringstream` writes it. */
  method Format(results: seq<seq<string>>) returns (s: string)
    ensures s == Formatted(results)
  {
    s := "";
    var i := 0;
    while i < |results|
      invariant 0 <= i <= |results|
      invariant s == Join(Lines(results)[..i], "\n") + (if 0 < i < |results| then "\n" else "")
    {
      FormatStep(Lines(results), i, s);
      s := WriteSymbols(s, results[i]);
      if i + 1 < |results| {
        s := s + "\n";
      }
      i := i + 1;
    }
    assert Lines(results)[..i] == Lines(results);
  }

  /** One more line written after the lines before it and their newline. */
  lemma FormatStep(lines: seq<string>, i: nat, before: string)
    requires i < |lines|
    requires before == Join(lines[..i], "\n") + (if 0 < i then "\n" else "")
    ensures before + lines[i] == Join(lines[..i + 1], "\n")
  {
    JoinSnoc(lines[..i], lines[i], "\n");
    assert lines[..i + 1] == lines[..i] + [lines[i]];
  }

  /** The inner loop of the formatting: the symbols of one result written to
      the stream, a space before every symbol but the first. */
  method WriteSymbols(before: string, symbols: seq<string>) returns (s: string)
    ensures s == before + Join(symbols, " ")
  {
    s := before;
    var j := 0;
    while j < |symbols|
      invariant 0 <= j <= |symbols|
      invariant s == before + Join(symbols[..j], " ")
    {
      JoinSnoc(symbols[..j], symbols[j], " ");
      assert symbols[..j + 1] == symbols[..j] + [symbols[j]];
      if j > 0 {
        s := s + " ";
      }
      s := s + symbols[j];
      j := j + 1;
    }
    assert symbols[..j] == symbols;
  }

  /** The two transducer slots of the shim (`g_transducer`, `g_generator`). */
  class HfstShim {
    var transducer: Option<TransducerFile>
    var generator: Option<TransducerFile>
    /** `new TransducerFile(path)`: the transducer in the file, or `None` when reading it throws. */
    const open: string -> Option<TransducerFile>

    constructor(open: string -> Option<TransducerFile>)
      ensures transducer == None && generator == None && this.open == open
    {
      transducer := None;
      generator := None;
      this.open := open;
    }

    /** `loadTransducer`: the old analyser is dropped first, so a failed load leaves none. */
    method LoadTransducer(path: string) returns (rc: int)
      modifies this
      ensures rc == 0 <==> open(path).Some?
      ensures rc != 0 ==> rc == -1
      ensures transducer == open(path) && generator == old(generator)
    {
      transducer := None;
      var t := open(path);
      if t.Some? {
        transducer := t;
        rc := 0;
      } else {
        rc := -1;
      }
    }

    /** `loadGenerator`: the same for the generator slot. */
    method LoadGenerator(path: string) returns (rc: int)
      modifies this
      ensures rc == 0 <==> open(path).Some?
      ensures rc != 0 ==> rc == -1
      ensures generator == open(path) && transducer == old(transducer)
    {
      generator := None;
      var t := open(path);
      if t.Some? {
        generator := t;
        rc := 0;
      } else {
        rc := -1;
      }
    }

    /** `unloadTransducer`: both slots emptied. */
    method Unload()
      modifies this
      ensures transducer == None && generator == None
    {
      transducer := None;
      generator := None;
    }

    /** The answer `applyDown` works from: the generator when one is loaded, the
        analyser otherwise. */
    function DownAnswer(input: string): Answer
      reads this
    {
      if generator.Some? then AnswerOf(generator, input) else AnswerOf(transducer, input)
    }

    /** Looks an input up in one slot and writes the answer into `out`. */
    method Lookup(t: Option<TransducerFile>, input: string, out: array?<char>, outCap: int) returns (rc: int)
      requires out != null && outCap > 0 ==> outCap <= out.Length
      modifies out
      ensures var a := AnswerOf(t, input);
        if !a.Text? || out == null || outCap <= 0 then
          rc == SizeCode(a) && (out != null ==> out[..] == old(out[..]))
        else
          && rc == CopiedLength(a.text, outCap)
          && out[..rc] == a.text[..rc] && out[rc] == '\0'
          && out[rc + 1..] == old(out[rc + 1..])
    {
      if t.None? {
        return -2;
      }
      var found := t.value.lookup(LookupKey(input));
      if found.None? {
        return -3;
      }
      var s := Format(found.value);
      var needed := |s|;
      if out == null || outCap <= 0 {
        return needed;
      }
      var n := if needed < outCap then needed else outCap - 1;
      CopyText(out, s, n);
      out[n] := '\0';
      rc := n;
    }

    /** The `memcpy` of an entry point: the first `n` characters of the text
        written at the start of the buffer, the rest of the buffer untouched. */
    static method CopyText(out: array<char>, s: string, n: nat)
      requires n <= |s| && n <= out.Length
      modifies out
      ensures out[..n] == s[..n]
      ensures out[n..] == old(out[n..])
    {
      var k := 0;
      while k < n
        invariant 0 <= k <= n
        invariant forall m :: 0 <= m < k ==> out[m] == s[m]
        invariant forall m :: k <= m < out.Length ==> out[m] == old(out[m])
      {
        out[k] := s[k];
        k := k + 1;
      }
    }

    /** `applyUp`: the analyser's answer (-2 when none is loaded). */
    method ApplyUp(input: string, out: array?<char>, outCap: int) returns (rc: int)
      requires out != null && outCap > 0 ==> outCap <= out.Length
      modifies out
      ensures var a := AnswerOf(transducer, input);
        if !a.Text? || out == null || outCap <= 0 then
          rc == SizeCode(a) && (out != null ==> out[..] == old(out[..]))
        else
          && rc == CopiedLength(a.text, outCap)
          && out[..rc] == a.text[..rc] && out[rc] == '\0'
          && out[rc + 1..] == old(out[rc + 1..])
    {
      rc := Lookup(transducer, input, out, outCap);
    }

    /** `applyDown`: the generator's answer, or `applyUp` when no generator is loaded. */
    method ApplyDown(input: string, out: array?<char>, outCap: int) returns (rc: int)
      requires out != null && outCap > 0 ==> outCap <= out.Length
      modifies out
      ensures var a := DownAnswer(input);
        if !a.Text? || out == null || outCap <= 0 then
          rc == SizeCode(a) && (out != null ==> out[..] == old(out[..]))
        else
          && rc == CopiedLength(a.text, outCap)
          && out[..rc] == a.text[..rc] && out[rc] == '\0'
          && out[rc + 1..] == old(out[rc + 1..])
    {
      if generator.Some? {
        rc := Lookup(generator, input, out, outCap);
      } else {
        rc := ApplyUp(input, out, outCap);
      }
    }
  }

  /** The two-call pattern the worker uses on `applyUp`: ask for the size, give
      a buffer one longer, read the text back up to its terminator. Returns `None`
      where the worker falls back (a size of zero or an error code). */
  method TwoPhaseUp(shim: HfstShim, input: string) returns (text: Option<string>)
    ensures var a := AnswerOf(shim.transducer, input);
      && (text.Some? <==> a.Text? && a.text != "")
      && (text.Some? && '\0' !in a.text ==> text.value == a.text)
  {
    var needed := shim.ApplyUp(input, null, 0);
    if needed <= 0 {
      return None;
    }
    var buffer := new char[needed + 1];
    var n := shim.ApplyUp(input, buffer, needed + 1);
    ghost var a := AnswerOf(shim.transducer, input);
    if '\0' !in a.text {
      assert buffer[..] == buffer[..n] + [buffer[n]] + buffer[n + 1..];
      CStringOfTerminated(buffer[..n], buffer[n + 1..]);
    }
    text := Some(CString(buffer[..]));
  }

  /** Reading back a copy followed by a terminator gives the copy, if it has no terminator of its own. */
  lemma {:induction false} CStringOfTerminated(s: string, rest: seq<char>)
    requires '\0' !in s
    ensures CString(s + ['\0'] + rest) == s
  {
    if s != [] {
      CStringOfTerminated(s[1..], rest);
      assert (s + ['\0'] + rest)[1..] == s[1..] + ['\0'] + rest;
    } else {
      assert s + ['\0'] + rest == ['\0'] + rest;
    }
  }

  /** The shim's text splits back into its lines when no symbol holds a newline. */
  lemma {:induction false} FormattedSplits(results: seq<seq<string>>)
    requires |results| >= 1
    requires forall i, j :: 0 <= i < |results| && 0 <= j < |results[i]| ==> '\n' !in results[i][j]
    ensures Split(Formatted(results), '\n') == Lines(results)
  {
    var lines := Lines(results);
    forall k | 0 <= k < |lines| ensures '\n' !in lines[k] {
      JoinAvoids(results[k], " ", '\n');
    }
    SplitJoin(lines, '\n');
  }

  /** A join of pieces and a separator that all avoid a character avoids it. */
  lemma {:induction false} JoinAvoids(parts: seq<string>, sep: string, c: char)
    requires forall j :: 0 <= j < |parts| ==> c !in parts[j]
    requires c !in sep
    ensures c !in Join(parts, sep)
  {
    if |parts| > 1 {
      JoinAvoids(parts[1..], sep, c);
    }
  }
}
