/** The decisions of the `load_pack` request that do not depend on which
    worker runs them: the SHA-256 integrity test on a hexadecimal digest, the
    gzip test on the first two bytes (ID1 and ID2 of section 2.3.1 of RFC 1952),
    the assembly of decompressed chunks, the mount paths chosen by file suffix,
    and the ordered fall-back through the loader entry points. Fetching,
    hashing and decompressing are the parameters of a `World`. */
module PackLoading {
  import opened Wrappers
  import opened Text
  import opened Protocol
  import opened EngineCalls

  // ------------------------------------------------------------ the outside world

  /** The parts of a resolved pack address the worker reads: the address
      itself, its path, and the query parameters `sha256`, `gen` and
      `gensha256` (absent and empty are both `""`, which JavaScript treats as false). */
  datatype PackUrl = PackUrl(href: string, pathname: string, sha256: string, gen: string, genSha256: string)

  /** What the worker asks of its environment while it loads a pack. */
  datatype World = World(
    /** Starting the module (`initWasm`), given the cached module address. */
    startup: Option<string> -> Outcome<Engine>,
    /** `new URL(packUrl, base)`: `None` when the address does not parse. */
    resolve: string -> Option<PackUrl>,
    /** The pack's bytes (a file read in Node, the cache or `fetch` in a
        browser): `None` when the read fails or the response is not ok. */
    fetchPack: string -> Option<seq<uint8>>,
    /** The generator's bytes for a `gen` parameter, in the same sense. */
    fetchGenerator: string -> Option<seq<uint8>>,
    /** SHA-256 (FIPS 180-4) of a buffer. */
    digest: seq<uint8> -> seq<uint8>,
    /** Gzip decompression, as the chunks the decompressor yields, or `None`
        when it fails or is not available. */
    inflate: seq<uint8> -> Option<seq<seq<uint8>>>)

  // ------------------------------------------------------------- hexadecimal

  predicate IsLowerHexDigit(c: char) {
    '0' <= c <= '9' || 'a' <= c <= 'f'
  }

  /** The lower-case digit of a value below 16. */
  function HexDigit(n: int): (c: char)
    requires 0 <= n < 16
    ensures IsLowerHexDigit(c)
  {
    if n < 10 then ('0' as int + n) as char else ('a' as int + n - 10) as char
  }

  /** The value of a lower-case hexadecimal digit. */
  function HexValue(c: char): (v: Option<int>)
    ensures v.Some? <==> IsLowerHexDigit(c)
    ensures v.Some? ==> 0 <= v.value < 16
  {
    if '0' <= c <= '9' then Some(c as int - '0' as int)
    else if 'a' <= c <= 'f' then Some(c as int - 'a' as int + 10)
    else None
  }

  /** `b.toString(16)`: the base-16 digits of a byte, without leading zeros. */
  function Radix16(b: uint8): string {
    if b < 16 then [HexDigit(b as int)] else [HexDigit(b as int / 16), HexDigit(b as int % 16)]
  }

  /** `s.padStart(2, '0')` */
  function PadStart2(s: string): string {
    if |s| < 2 then seq(2 - |s|, _ => '0') + s else s
  }

  /** The two characters one byte contributes to the digest text. */
  function ByteHex(b: uint8): string {
    PadStart2(Radix16(b))
  }

  /** Every byte becomes exactly two digits, high half first. */
  lemma ByteHexDigits(b: uint8)
    ensures ByteHex(b) == [HexDigit(b as int / 16), HexDigit(b as int % 16)]
  {
    if b < 16 {
      assert Radix16(b) == [HexDigit(b as int)];
      assert HexDigit(0) == '0';
    }
  }

  /** `[...digest].map(b => b.toString(16).padStart(2, '0')).join('')` */
  function Hex(bytes: seq<uint8>): (s: string)
    ensures |s| == 2 * |bytes|
    ensures forall k :: 0 <= k < |s| ==> IsLowerHexDigit(s[k])
  {
    if bytes == [] then ""
    else
      ByteHexDigits(bytes[0]);
      ByteHex(bytes[0]) + Hex(bytes[1..])
  }

  /** Reading lower-case hexadecimal text back into bytes, two digits a byte. */
  function HexDecode(s: string): (r: Option<seq<uint8>>)
    decreases |s|
  {
    if s == [] then Some([])
    else if |s| == 1 then None
    else
      match (HexValue(s[0]), HexValue(s[1]), HexDecode(s[2..]))
      case (Some(high), Some(low), Some(rest)) => Some([(high * 16 + low) as uint8] + rest)
      case _ => None
  }

  /** The digest text holds the whole digest: decoding it gives the bytes back. */
  lemma {:induction false} HexRoundTrip(bytes: seq<uint8>)
    ensures HexDecode(Hex(bytes)) == Some(bytes)
  {
    if bytes != [] {
      var b := bytes[0];
      ByteHexDigits(b);
      var s := Hex(bytes);
      assert s == [HexDigit(b as int / 16), HexDigit(b as int % 16)] + Hex(bytes[1..]);
      assert s[2..] == Hex(bytes[1..]);
      HexRoundTrip(bytes[1..]);
      ByteHalves(b);
      assert bytes == [b] + bytes[1..];
    }
  }

  /** The two digits of a byte read back as its two halves, and the halves make the byte. */
  lemma ByteHalves(b: uint8)
    ensures HexValue(HexDigit(b as int / 16)) == Some(b as int / 16)
    ensures HexValue(HexDigit(b as int % 16)) == Some(b as int % 16)
    ensures ((b as int / 16) * 16 + b as int % 16) as uint8 == b
  {
  }

  /** Different digests never have the same text. */
  lemma HexInjective(a: seq<uint8>, b: seq<uint8>)
    requires Hex(a) == Hex(b)
    ensures a == b
  {
    HexRoundTrip(a);
    HexRoundTrip(b);
  }

  // ------------------------------------------------------------------ integrity

  /** The integrity test: no expected value (absent or empty) accepts anything;
      otherwise the digest text must equal the lower-cased expected value. */
  predicate IntegrityOk(expected: string, digest: seq<uint8>) {
    expected == "" || Hex(digest) == ToLower(expected)
  }

  /** A non-empty expected value accepts at most one digest. */
  lemma IntegrityPinsDigest(expected: string, d1: seq<uint8>, d2: seq<uint8>)
    requires expected != "" && IntegrityOk(expected, d1) && IntegrityOk(expected, d2)
    ensures d1 == d2
  {
    HexInjective(d1, d2);
  }

  /** The expected value is compared without regard to case. */
  lemma IntegrityIgnoresCase(expected: string, digest: seq<uint8>)
    ensures IntegrityOk(expected, digest) <==> IntegrityOk(ToLower(expected), digest)
  {
    ToLowerIdempotent(expected);
  }

  /** The digest's own text is always accepted. */
  lemma IntegrityAcceptsOwnDigest(digest: seq<uint8>)
    ensures IntegrityOk(Hex(digest), digest)
  {
    var s := Hex(digest);
    forall k | 0 <= k < |s| ensures LowerChar(s[k]) == s[k] {
      assert IsLowerHexDigit(s[k]);
    }
  }

  /** An expected value of the wrong length is always refused. */
  lemma IntegrityRejectsLength(expected: string, digest: seq<uint8>)
    requires expected != "" && |expected| != 2 * |digest|
    ensures !IntegrityOk(expected, digest)
  {
  }

  // ----------------------------------------------------------------------- gzip

  /** ID1 and ID2, the first two bytes of every gzip member (section 2.3.1 of RFC 1952). */
  const GzipId1: uint8 := 0x1f
  const GzipId2: uint8 := 0x8b

  /** The worker's gzip test. It asks for more than two bytes, so a buffer of
      the two magic bytes alone is not treated as compressed. */
  predicate IsGzip(buf: seq<uint8>) {
    |buf| > 2 && buf[0] == GzipId1 && buf[1] == GzipId2
  }

  /** The total length of the chunks (`chunks.reduce((sum, c) => sum + c.length, 0)`). */
  function TotalLength(chunks: seq<seq<uint8>>): nat {
    if chunks == [] then 0 else TotalLength(chunks[..|chunks| - 1]) + |chunks[|chunks| - 1]|
  }

  /** The chunks, one after another. */
  function Flatten(chunks: seq<seq<uint8>>): (r: seq<uint8>)
    ensures |r| == TotalLength(chunks)
  {
    if chunks == [] then [] else Flatten(chunks[..|chunks| - 1]) + chunks[|chunks| - 1]
  }

  /** A prefix of the chunks is no longer than all of them. */
  lemma {:induction false} TotalLengthPrefix(chunks: seq<seq<uint8>>, i: nat)
    requires i <= |chunks|
    ensures TotalLength(chunks[..i]) <= TotalLength(chunks)
    decreases |chunks|
  {
    if i < |chunks| {
      var init := chunks[..|chunks| - 1];
      assert chunks[..i] == init[..i];
      TotalLengthPrefix(init, i);
    } else {
      assert chunks[..i] == chunks;
    }
  }

  /** The browser's copy of decompressed chunks into one buffer: the lengths
      summed first, then each chunk set at the running offset. */
  method AssembleChunks(chunks: seq<seq<uint8>>) returns (buf: array<uint8>)
    ensures fresh(buf)
    ensures buf[..] == Flatten(chunks)
  {
    var total := 0;
    var i := 0;
    while i < |chunks|
      invariant 0 <= i <= |chunks|
      invariant total == TotalLength(chunks[..i])
    {
      assert chunks[..i + 1][..i] == chunks[..i];
      total := total + |chunks[i]|;
      i := i + 1;
    }
    assert chunks[..i] == chunks;
    buf := new uint8[total];
    var offset := 0;
    i := 0;
    while i < |chunks|
      invariant 0 <= i <= |chunks|
      invariant offset == TotalLength(chunks[..i]) <= buf.Length
      invariant buf[..offset] == Flatten(chunks[..i])
    {
      var chunk := chunks[i];
      assert chunks[..i + 1][..i] == chunks[..i];
      TotalLengthPrefix(chunks, i + 1);
      CopyChunk(buf, offset, chunk);
      offset := offset + |chunk|;
      i := i + 1;
    }
    assert chunks[..i] == chunks;
    assert buf[..] == buf[..offset];
  }

  /** `result.set(chunk, offset)`: the chunk is copied after the first `offset` bytes. */
  method CopyChunk(buf: array<uint8>, offset: nat, chunk: seq<uint8>)
    requires offset + |chunk| <= buf.Length
    modifies buf
    ensures buf[..offset + |chunk|] == old(buf[..offset]) + chunk
  {
    var j := 0;
    while j < |chunk|
      invariant 0 <= j <= |chunk|
      invariant buf[..offset + j] == old(buf[..offset]) + chunk[..j]
    {
      buf[offset + j] := chunk[j];
      assert buf[..offset + j + 1] == buf[..offset + j] + [chunk[j]];
      assert chunk[..j + 1] == chunk[..j] + [chunk[j]];
      j := j + 1;
    }
    assert chunk[..j] == chunk;
  }

  /** The analyser bytes that are written: decompressed when they start with
      the gzip magic and decompression succeeds, the fetched bytes otherwise. */
  function Inflated(buf: seq<uint8>, inflate: seq<uint8> -> Option<seq<seq<uint8>>>): (r: seq<uint8>)
    ensures !IsGzip(buf) ==> r == buf
  {
    if IsGzip(buf) then
      match inflate(buf)
      case Some(chunks) => Flatten(chunks)
      case None => buf
    else buf
  }

  /** A compressed buffer that fails to decompress is written as it came. */
  lemma InflateFailureKeepsBytes(buf: seq<uint8>, inflate: seq<uint8> -> Option<seq<seq<uint8>>>)
    requires inflate(buf).None?
    ensures Inflated(buf, inflate) == buf
  {
  }

  // ---------------------------------------------------------------- mount paths

  /** Where the analyser is written: by the suffix of the lower-cased path. */
  function MountPath(pathname: string): (p: string)
    ensures p == "/analysis.pmhfst" || p == "/analysis.hfstol"
  {
    if EndsWith(ToLower(pathname), ".pmhfst") then "/analysis.pmhfst" else "/analysis.hfstol"
  }

  /** Where the generator is written: by the suffix of the lower-cased `gen` parameter. */
  function GeneratorPath(gen: string): (p: string)
    ensures p == "/generate.pmhfst" || p == "/generate.hfstol"
  {
    if EndsWith(ToLower(gen), ".pmhfst") then "/generate.pmhfst" else "/generate.hfstol"
  }

  /** The suffix test ignores case, so the analyser and the generator paths
      never meet, and a path chooses the same slot whatever its case. */
  lemma MountPathsIgnoreCase(pathname: string, gen: string)
    ensures MountPath(ToLower(pathname)) == MountPath(pathname)
    ensures GeneratorPath(ToLower(gen)) == GeneratorPath(gen)
    ensures MountPath(pathname) != GeneratorPath(gen)
  {
    ToLowerIdempotent(pathname);
    ToLowerIdempotent(gen);
  }

  // --------------------------------------------------------- loader entry points

  /** The code `load_pack` starts from, kept when `loadTransducer` is not exported. */
  const LoadNotFound: int := 90408

  /** An exported loader that returns 0 for the file. */
  predicate Accepts(e: Engine, name: string, path: string, file: Option<seq<uint8>>) {
    name in e.exports && e.load(name, path, file) == Returned(0)
  }

  /** When the analyser counts as loaded: `loadTransducer` is exported and
      returns, and either it or one of the two alternatives returns 0. */
  predicate AnalyserLoads(e: Engine, path: string, file: Option<seq<uint8>>) {
    && "loadTransducer" in e.exports
    && e.load("loadTransducer", path, file).Returned?
    && (e.load("loadTransducer", path, file).value == 0
        || Accepts(e, "load_transducer", path, file)
        || Accepts(e, "hfst_load", path, file))
  }

  /** The entry-point fall-back of `load_pack`: `loadTransducer` (its error
      escapes), then, if it did not return 0, `load_transducer` and `hfst_load`,
      each in its own `try` and each able only to set the result to 0. */
  method LoadEntrypoints(e: Engine, path: string, file: Option<seq<uint8>>) returns (r: Outcome<int>)
    ensures r.Threw? <==> "loadTransducer" in e.exports && e.load("loadTransducer", path, file).Threw?
    ensures r == Returned(0) <==> AnalyserLoads(e, path, file)
    ensures r.Returned? && r.value != 0 ==>
      r.value == if "loadTransducer" in e.exports then e.load("loadTransducer", path, file).value else LoadNotFound
  {
    var loadResult := LoadNotFound;
    if "loadTransducer" in e.exports {
      var first := e.load("loadTransducer", path, file);
      if first.Threw? {
        return Threw(first.message);
      }
      loadResult := first.value;
      if loadResult != 0 {
        if "load_transducer" in e.exports {
          var alt1 := e.load("load_transducer", path, file);
          if alt1 == Returned(0) {
            loadResult := 0;
          }
        }
        if "hfst_load" in e.exports {
          var alt2 := e.load("hfst_load", path, file);
          if alt2 == Returned(0) {
            loadResult := 0;
          }
        }
      }
    }
    r := Returned(loadResult);
  }
}
