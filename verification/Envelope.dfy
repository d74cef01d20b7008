/** The chunked AEAD envelope: one header, frames numbered from 0, one empty final frame. */
module Envelope {
  import opened Wrappers

  type Byte = n: int | 0 <= n < 256
  type Bytes = seq<Byte>

  const CHUNK_BYTES: nat := 1024 * 1024
  const TAG_BYTES: nat := 16
  const NONCE_BYTES: nat := 12
  const HEADER_BYTES: nat := 21
  const MAX_INDEX: nat := 0xFFFF_FFFF
  const ENVELOPE_VERSION: Byte := 1
  /** "VDSENC01" */
  const MAGIC: Bytes := [0x56, 0x44, 0x53, 0x45, 0x4E, 0x43, 0x30, 0x31]

  datatype EncryptionError = UnsupportedVersion | Failed | TooManyChunks | IoError

  /** AES-256-GCM under one key (sections 7.1 and 7.2 of NIST SP 800-38D): arguments are the
      nonce, the associated data and the text. */
  datatype Aead = Aead(seal: (Bytes, Bytes, Bytes) -> Bytes, open: (Bytes, Bytes, Bytes) -> Option<Bytes>)

  /** All that is assumed of the cipher: opening undoes sealing and nothing else, and sealing
      adds one tag. */
  ghost predicate Lawful(c: Aead) {
    && (forall n, a, m :: |c.seal(n, a, m)| == |m| + TAG_BYTES)
    && (forall n, a, x, m :: c.open(n, a, x) == Some(m) <==> x == c.seal(n, a, m))
  }

  function TagFor(mark: Bytes, a: Bytes): (tag: Bytes)
    ensures |tag| == TAG_BYTES
  {
    seq(TAG_BYTES, _ => if a != [] && a[..|a| - 1] == mark then 1 else 0)
  }

  /** A cipher whose tag tells whether the associated data are `mark` and one more byte. */
  function TaggingCipher(mark: Bytes): Aead {
    Aead(
      (n: Bytes, a: Bytes, m: Bytes) => m + TagFor(mark, a),
      (n: Bytes, a: Bytes, x: Bytes) =>
        if |x| >= TAG_BYTES && x[|x| - TAG_BYTES..] == TagFor(mark, a) then Some(x[..|x| - TAG_BYTES]) else None)
  }

  /** The assumption can be met, so nothing below holds for want of a cipher. */
  lemma LawfulCiphersExist(mark: Bytes)
    ensures Lawful(TaggingCipher(mark))
  {
    var c := TaggingCipher(mark);
    forall n: Bytes, a: Bytes, x: Bytes, m: Bytes ensures c.open(n, a, x) == Some(m) <==> x == c.seal(n, a, m) {
      if |x| >= TAG_BYTES {
        assert x == x[..|x| - TAG_BYTES] + x[|x| - TAG_BYTES..];
      }
    }
  }

  /******* Frames *******/

  function Be32(n: nat): (s: Bytes)
    requires n <= MAX_INDEX
    ensures |s| == 4
  {
    [n / 0x100_0000, n / 0x1_0000 % 256, n / 0x100 % 256, n % 256]
  }

  function FromBe32(s: Bytes): nat
    requires |s| == 4
  {
    (s[0] as int) * 0x100_0000 + (s[1] as int) * 0x1_0000 + (s[2] as int) * 0x100 + s[3]
  }

  lemma Be32RoundTrip(n: nat)
    requires n <= MAX_INDEX
    ensures FromBe32(Be32(n)) == n
  {
    var a, b := n / 0x100, n / 0x1_0000;
    assert n == a * 0x100 + n % 0x100;
    assert a / 0x100 == b && a == b * 0x100 + a % 0x100;
    assert b / 0x100 == n / 0x100_0000 && b == b / 0x100 * 0x100 + b % 0x100;
  }

  lemma Be32Inverse(s: Bytes)
    requires |s| == 4
    ensures FromBe32(s) <= MAX_INDEX && Be32(FromBe32(s)) == s
  {
    var n := FromBe32(s);
    var a: int, b: int, c: int, d: int := s[0], s[1], s[2], s[3];
    var m := a * 0x1_0000 + b * 0x100 + c;
    assert n == m * 0x100 + d && n / 0x100 == m && n % 0x100 == d;
    assert m / 0x100 == a * 0x100 + b && m % 0x100 == c && n / 0x1_0000 == m / 0x100;
    assert n / 0x100_0000 == a;
  }

  function Flag(final: bool): Byte { if final then 1 else 0 }

  function ChunkNonce(base: Bytes, index: nat): Bytes
    requires |base| == NONCE_BYTES && index <= MAX_INDEX
  {
    base[..NONCE_BYTES - 4] + Be32(index)
  }

  function FrameAad(associatedData: Bytes, index: nat, final: bool): Bytes
    requires index <= MAX_INDEX
  {
    associatedData + Be32(index) + [Flag(final)]
  }

  /** The associated data of a frame binds all three of its parts. */
  lemma FrameAadBinds(a: Bytes, i: nat, f: bool, b: Bytes, j: nat, g: bool)
    requires i <= MAX_INDEX && j <= MAX_INDEX && FrameAad(a, i, f) == FrameAad(b, j, g)
    ensures a == b && i == j && f == g
  {
    var x, y := FrameAad(a, i, f), FrameAad(b, j, g);
    assert |x| == |a| + 5 && |y| == |b| + 5;
    assert x[..|a|] == a && y[..|b|] == b;
    assert x[|a|..|a| + 4] == Be32(i) && y[|b|..|b| + 4] == Be32(j);
    assert x[|a| + 4] == Flag(f) && y[|b| + 4] == Flag(g);
    Be32RoundTrip(i);
    Be32RoundTrip(j);
  }

  /** A frame's nonce binds its index and the first eight bytes of the base nonce; the last four
      are replaced. */
  lemma ChunkNonceBinds(base: Bytes, i: nat, other: Bytes, j: nat)
    requires |base| == NONCE_BYTES == |other| && i <= MAX_INDEX && j <= MAX_INDEX
    ensures ChunkNonce(base, i) == ChunkNonce(other, j) <==> base[..8] == other[..8] && i == j
    ensures |ChunkNonce(base, i)| == NONCE_BYTES
  {
    Be32RoundTrip(i);
    Be32RoundTrip(j);
    var x, y := ChunkNonce(base, i), ChunkNonce(other, j);
    assert x[..8] == base[..8] && y[..8] == other[..8] && x[8..] == Be32(i) && y[8..] == Be32(j);
    assert x == x[..8] + x[8..] && y == y[..8] + y[8..];
  }

  /** What stays the same over one envelope: cipher, base nonce and associated data. */
  datatype Session = Session(cipher: Aead, nonce: Bytes, aad: Bytes)

  ghost predicate ValidSession(s: Session) { Lawful(s.cipher) && |s.nonce| == NONCE_BYTES }

  function SealChunk(s: Session, index: nat, final: bool, chunk: Bytes): Bytes
    requires |s.nonce| == NONCE_BYTES && index <= MAX_INDEX
  {
    s.cipher.seal(ChunkNonce(s.nonce, index), FrameAad(s.aad, index, final), chunk)
  }

  function OpenChunk(s: Session, index: nat, final: bool, ciphertext: Bytes): Option<Bytes>
    requires |s.nonce| == NONCE_BYTES && index <= MAX_INDEX
  {
    s.cipher.open(ChunkNonce(s.nonce, index), FrameAad(s.aad, index, final), ciphertext)
  }

  function FrameBytes(final: bool, ciphertext: Bytes): Bytes
    requires |ciphertext| <= MAX_INDEX
  {
    [Flag(final)] + Be32(|ciphertext|) + ciphertext
  }

  /** The frames of `chunks` numbered from `index`, closed by the empty final frame. */
  ghost function Frames(s: Session, index: nat, chunks: seq<Bytes>): Bytes
    requires ValidSession(s) && WellChunked(index, chunks)
    decreases chunks
  {
    if chunks == [] then FrameBytes(true, SealChunk(s, index, true, []))
    else FrameBytes(false, SealChunk(s, index, false, chunks[0])) + Frames(s, index + 1, chunks[1..])
  }

  predicate WellChunked(index: nat, chunks: seq<Bytes>) {
    index + |chunks| <= MAX_INDEX && forall i | 0 <= i < |chunks| :: |chunks[i]| <= CHUNK_BYTES
  }

  function Header(nonce: Bytes): Bytes { MAGIC + [ENVELOPE_VERSION] + nonce }

  function Concat(chunks: seq<Bytes>): Bytes {
    if chunks == [] then [] else chunks[0] + Concat(chunks[1..])
  }

  /******* Decoding as a function of the bytes *******/

  datatype Frame = Frame(final: bool, ciphertext: Bytes, rest: Bytes)

  function ReadFrame(input: Bytes): (r: Option<Frame>)
    ensures r.Some? ==> |r.value.rest| + 21 <= |input| && |r.value.ciphertext| <= CHUNK_BYTES + TAG_BYTES
  {
    if |input| < 5 || input[0] > 1 then None else
    var length := FromBe32(input[1..5]);
    if length < TAG_BYTES || length > CHUNK_BYTES + TAG_BYTES || |input| < 5 + length then None
    else Some(Frame(input[0] == 1, input[5..5 + length], input[5 + length..]))
  }

  function DecodeFrames(s: Session, index: nat, input: Bytes): Result<Bytes, EncryptionError>
    requires |s.nonce| == NONCE_BYTES && index <= MAX_INDEX
    decreases |input|
  {
    var frame := ReadFrame(input);
    if frame.None? then Failure(Failed) else
    var Frame(final, ciphertext, rest) := frame.value;
    var plaintext := OpenChunk(s, index, final, ciphertext);
    if plaintext.None? then Failure(Failed)
    else if final then
      if plaintext.value != [] || rest != [] then Failure(Failed) else Success([])
    else if index == MAX_INDEX then Failure(TooManyChunks)
    else
      var tail := DecodeFrames(s, index + 1, rest);
      if tail.Success? then Success(plaintext.value + tail.value) else tail
  }

  /** `decrypt_self_describing_reader_to`: the nonce is taken from the header. */
  function Decode(cipher: Aead, aad: Bytes, input: Bytes): Result<Bytes, EncryptionError> {
    if |input| < HEADER_BYTES then Failure(Failed)
    else if input[..8] != MAGIC || input[8] != ENVELOPE_VERSION then Failure(UnsupportedVersion)
    else DecodeFrames(Session(cipher, input[9..HEADER_BYTES], aad), 0, input[HEADER_BYTES..])
  }

  /** `decrypt_reader_to`: the header's nonce must be the expected one. */
  function DecodeExpecting(cipher: Aead, aad: Bytes, nonce: Bytes, input: Bytes): Result<Bytes, EncryptionError> {
    if |input| < HEADER_BYTES then Failure(Failed)
    else if input[..8] != MAGIC || input[8] != ENVELOPE_VERSION then Failure(UnsupportedVersion)
    else if input[9..HEADER_BYTES] != nonce then Failure(Failed)
    else DecodeFrames(Session(cipher, input[9..HEADER_BYTES], aad), 0, input[HEADER_BYTES..])
  }

  /******* The decoder accepts exactly the well-framed streams *******/

  lemma ReadWrittenFrame(final: bool, ciphertext: Bytes, rest: Bytes)
    requires TAG_BYTES <= |ciphertext| <= CHUNK_BYTES + TAG_BYTES
    ensures ReadFrame(FrameBytes(final, ciphertext) + rest) == Some(Frame(final, ciphertext, rest))
  {
    var input := FrameBytes(final, ciphertext) + rest;
    assert input[1..5] == Be32(|ciphertext|);
    Be32RoundTrip(|ciphertext|);
    assert input[5..5 + |ciphertext|] == ciphertext;
    assert input[5 + |ciphertext|..] == rest;
  }

  lemma WrittenFrameRead(input: Bytes)
    requires ReadFrame(input).Some?
    ensures var f := ReadFrame(input).value; input == FrameBytes(f.final, f.ciphertext) + f.rest
  {
    Be32Inverse(input[1..5]);
    var f := ReadFrame(input).value;
    assert input[0] == Flag(f.final);
    assert input == [input[0]] + input[1..5] + input[5..5 + |f.ciphertext|] + input[5 + |f.ciphertext|..];
  }

  lemma OpenSealed(s: Session, index: nat, final: bool, chunk: Bytes)
    requires ValidSession(s) && index <= MAX_INDEX
    ensures |SealChunk(s, index, final, chunk)| == |chunk| + TAG_BYTES
    ensures OpenChunk(s, index, final, SealChunk(s, index, final, chunk)) == Some(chunk)
  {
  }

  /** Decoding peels one data frame off. */
  lemma DecodeDataFrame(s: Session, index: nat, chunk: Bytes, rest: Bytes)
    requires ValidSession(s) && index < MAX_INDEX && |chunk| <= CHUNK_BYTES
    requires DecodeFrames(s, index + 1, rest).Success?
    ensures |SealChunk(s, index, false, chunk)| <= MAX_INDEX
    ensures DecodeFrames(s, index, FrameBytes(false, SealChunk(s, index, false, chunk)) + rest)
         == Success(chunk + DecodeFrames(s, index + 1, rest).value)
  {
    OpenSealed(s, index, false, chunk);
    ReadWrittenFrame(false, SealChunk(s, index, false, chunk), rest);
  }

  lemma DecodeFinalFrame(s: Session, index: nat)
    requires ValidSession(s) && index <= MAX_INDEX
    ensures |SealChunk(s, index, true, [])| <= MAX_INDEX
    ensures DecodeFrames(s, index, FrameBytes(true, SealChunk(s, index, true, []))) == Success([])
  {
    var x := SealChunk(s, index, true, []);
    OpenSealed(s, index, true, []);
    ReadWrittenFrame(true, x, []);
    assert FrameBytes(true, x) + [] == FrameBytes(true, x);
  }

  lemma {:induction false} DecodesItsFrames(s: Session, index: nat, chunks: seq<Bytes>)
    requires ValidSession(s) && WellChunked(index, chunks)
    ensures DecodeFrames(s, index, Frames(s, index, chunks)) == Success(Concat(chunks))
    decreases chunks
  {
    if chunks == [] {
      DecodeFinalFrame(s, index);
    } else {
      DecodesItsFrames(s, index + 1, chunks[1..]);
      DecodeDataFrame(s, index, chunks[0], Frames(s, index + 1, chunks[1..]));
    }
  }

  /** A stream whose first frame opens starts with a frame as it would have been written. */
  lemma OpenedFirstFrame(s: Session, index: nat, input: Bytes) returns (f: Frame, plaintext: Bytes)
    requires ValidSession(s) && index <= MAX_INDEX && ReadFrame(input).Some?
    requires OpenChunk(s, index, ReadFrame(input).value.final, ReadFrame(input).value.ciphertext).Some?
    ensures ReadFrame(input) == Some(f) && OpenChunk(s, index, f.final, f.ciphertext) == Some(plaintext)
    ensures |plaintext| <= CHUNK_BYTES && f.ciphertext == SealChunk(s, index, f.final, plaintext)
    ensures |f.ciphertext| <= MAX_INDEX && input == FrameBytes(f.final, f.ciphertext) + f.rest
  {
    WrittenFrameRead(input);
    f := ReadFrame(input).value;
    plaintext := OpenChunk(s, index, f.final, f.ciphertext).value;
  }

  lemma {:induction false} AcceptedIsFramed(s: Session, index: nat, input: Bytes) returns (chunks: seq<Bytes>)
    requires ValidSession(s) && index <= MAX_INDEX && DecodeFrames(s, index, input).Success?
    ensures WellChunked(index, chunks) && input == Frames(s, index, chunks)
    ensures Concat(chunks) == DecodeFrames(s, index, input).value
    decreases |input|
  {
    var f, plaintext := OpenedFirstFrame(s, index, input);
    if f.final {
      chunks := [];
      assert plaintext == [] && f.rest == [];
      assert input == FrameBytes(true, f.ciphertext);
    } else {
      var tail := AcceptedIsFramed(s, index + 1, f.rest);
      chunks := [plaintext] + tail;
      OneMoreFrame(s, index, plaintext, tail);
    }
  }

  lemma OneMoreFrame(s: Session, index: nat, chunk: Bytes, tail: seq<Bytes>)
    requires ValidSession(s) && |chunk| <= CHUNK_BYTES && WellChunked(index + 1, tail)
    ensures WellChunked(index, [chunk] + tail) && Concat([chunk] + tail) == chunk + Concat(tail)
    ensures Frames(s, index, [chunk] + tail) ==
      FrameBytes(false, SealChunk(s, index, false, chunk)) + Frames(s, index + 1, tail)
  {
    assert ([chunk] + tail)[1..] == tail;
  }

  /** The envelope of `plaintext` split as `chunks`. */
  ghost predicate IsEnvelope(cipher: Aead, aad: Bytes, nonce: Bytes, chunks: seq<Bytes>, input: Bytes) {
    && Lawful(cipher) && |nonce| == NONCE_BYTES && WellChunked(0, chunks)
    && input == Header(nonce) + Frames(Session(cipher, nonce, aad), 0, chunks)
  }

  /** Decryption yields `p` exactly for a header followed by the frames of some chunking of `p`. */
  lemma AcceptsExactlyTheEnvelopes(cipher: Aead, aad: Bytes, nonce: Bytes, input: Bytes, p: Bytes)
    requires Lawful(cipher) && |nonce| == NONCE_BYTES
    ensures DecodeExpecting(cipher, aad, nonce, input) == Success(p)
      <==> exists chunks :: IsEnvelope(cipher, aad, nonce, chunks, input) && Concat(chunks) == p
    ensures Decode(cipher, aad, input) == Success(p)
      <==> exists n, chunks :: IsEnvelope(cipher, aad, n, chunks, input) && Concat(chunks) == p
  {
    forall n, chunks | IsEnvelope(cipher, aad, n, chunks, input)
      ensures Decode(cipher, aad, input) == Success(Concat(chunks))
      ensures DecodeExpecting(cipher, aad, n, input) == Success(Concat(chunks))
    {
      EnvelopeIsAccepted(cipher, aad, n, chunks, input);
    }
    if Decode(cipher, aad, input) == Success(p) {
      var n, chunks := AcceptedIsEnvelope(cipher, aad, input);
    }
  }

  lemma EnvelopeIsAccepted(cipher: Aead, aad: Bytes, nonce: Bytes, chunks: seq<Bytes>, input: Bytes)
    requires IsEnvelope(cipher, aad, nonce, chunks, input)
    ensures Decode(cipher, aad, input) == Success(Concat(chunks))
    ensures DecodeExpecting(cipher, aad, nonce, input) == Success(Concat(chunks))
  {
    HeaderSplits(nonce, input);
    DecodesItsFrames(Session(cipher, nonce, aad), 0, chunks);
  }

  lemma AcceptedIsEnvelope(cipher: Aead, aad: Bytes, input: Bytes) returns (nonce: Bytes, chunks: seq<Bytes>)
    requires Lawful(cipher) && Decode(cipher, aad, input).Success?
    ensures IsEnvelope(cipher, aad, nonce, chunks, input) && nonce == input[9..HEADER_BYTES]
    ensures Decode(cipher, aad, input) == Success(Concat(chunks))
  {
    nonce := input[9..HEADER_BYTES];
    chunks := AcceptedIsFramed(Session(cipher, nonce, aad), 0, input[HEADER_BYTES..]);
    assert input == input[..8] + [input[8]] + nonce + input[HEADER_BYTES..];
  }

  /** The round trip, for every way the plaintext was cut into chunks: both decoders give back
      the same plaintext, and any other expected nonce is refused. */
  lemma EnvelopeRoundTrip(cipher: Aead, aad: Bytes, nonce: Bytes, other: Bytes, chunks: seq<Bytes>, input: Bytes)
    requires IsEnvelope(cipher, aad, nonce, chunks, input)
    ensures Decode(cipher, aad, input) == Success(Concat(chunks))
    ensures DecodeExpecting(cipher, aad, other, input) == if other == nonce then Success(Concat(chunks)) else Failure(Failed)
  {
    AcceptsExactlyTheEnvelopes(cipher, aad, nonce, input, Concat(chunks));
    HeaderSplits(nonce, input);
  }

  /** Decryption is bound to the associated data: an envelope made under `aad` is refused under
      `other`, for every cipher that seals its first chunk differently under the two frames'
      associated data. */
  lemma OtherAssociatedDataIsRefused(
    cipher: Aead, aad: Bytes, other: Bytes, nonce: Bytes, chunks: seq<Bytes>, input: Bytes)
    requires IsEnvelope(cipher, aad, nonce, chunks, input) && aad != other
    requires forall f, g, m, n :: // of the two values, at the first frame only
      cipher.seal(ChunkNonce(nonce, 0), aad + Be32(0) + [Flag(f)], m) !=
      cipher.seal(ChunkNonce(nonce, 0), other + Be32(0) + [Flag(g)], n)
    ensures Decode(cipher, other, input) == Failure(Failed)
    ensures DecodeExpecting(cipher, other, nonce, input) == Failure(Failed)
  {
    var s, t := Session(cipher, nonce, aad), Session(cipher, nonce, other);
    HeaderSplits(nonce, input);
    var f := FirstFrame(s, chunks);
    forall plaintext ensures OpenChunk(t, 0, f.final, f.ciphertext) != Some(plaintext) {
      assert SealChunk(t, 0, f.final, plaintext) != f.ciphertext;
    }
  }

  /** The first frame of an envelope seals the first chunk, or nothing. */
  lemma FirstFrame(s: Session, chunks: seq<Bytes>) returns (f: Frame)
    requires ValidSession(s) && WellChunked(0, chunks)
    ensures ReadFrame(Frames(s, 0, chunks)) == Some(f)
    ensures f.final == (chunks == []) && f.ciphertext == SealChunk(s, 0, f.final, if chunks == [] then [] else chunks[0])
  {
    var x := SealChunk(s, 0, chunks == [], if chunks == [] then [] else chunks[0]);
    if chunks == [] {
      f := Frame(true, x, []);
      ReadWrittenFrame(true, x, []);
      assert FrameBytes(true, x) + [] == FrameBytes(true, x);
    } else {
      f := Frame(false, x, Frames(s, 1, chunks[1..]));
      ReadWrittenFrame(false, x, f.rest);
    }
  }

  /** Such ciphers exist: the demand is consistent with the laws. */
  lemma BindingCiphersExist(nonce: Bytes, aad: Bytes, other: Bytes)
    requires |nonce| == NONCE_BYTES && aad != other
    ensures exists c :: Lawful(c) && forall f, g, m, n ::
      c.seal(ChunkNonce(nonce, 0), aad + Be32(0) + [Flag(f)], m) != c.seal(ChunkNonce(nonce, 0), other + Be32(0) + [Flag(g)], n)
  {
    var one, two := aad + Be32(0), other + Be32(0);
    var c := TaggingCipher(one);
    LawfulCiphersExist(one);
    assert one != two by {
      assert one[..|one| - 4] == aad && two[..|two| - 4] == other;
    }
    forall f, g, m, n
      ensures c.seal(ChunkNonce(nonce, 0), one + [Flag(f)], m) != c.seal(ChunkNonce(nonce, 0), two + [Flag(g)], n)
    {
      assert (one + [Flag(f)])[..|one|] == one && (two + [Flag(g)])[..|two|] == two;
      TagsDiffer(m, n, TagFor(one, one + [Flag(f)]), TagFor(one, two + [Flag(g)]));
    }
  }

  lemma TagsDiffer(m: Bytes, n: Bytes, s: Bytes, t: Bytes)
    requires |s| == |t| == TAG_BYTES && s[TAG_BYTES - 1] != t[TAG_BYTES - 1]
    ensures m + s != n + t
  {
    assert (m + s)[|m + s| - 1] == s[TAG_BYTES - 1] && (n + t)[|n + t| - 1] == t[TAG_BYTES - 1];
  }

  lemma HeaderSplits(nonce: Bytes, input: Bytes)
    requires |nonce| == NONCE_BYTES && Header(nonce) <= input
    ensures input[..8] == MAGIC && input[8] == ENVELOPE_VERSION && input[9..HEADER_BYTES] == nonce
    ensures input[HEADER_BYTES..] == input[|Header(nonce)|..]
  {
    var h := Header(nonce);
    assert input[..HEADER_BYTES] == h;
    assert input[..8] == h[..8] && input[8] == h[8] && input[9..HEADER_BYTES] == h[9..];
  }

  /******* Which error *******/

  /** Data frames alone, without a final one. */
  ghost function DataFrames(s: Session, index: nat, chunks: seq<Bytes>): Bytes
    requires ValidSession(s) && AllSmall(chunks) && index + |chunks| <= MAX_INDEX + 1
    decreases chunks
  {
    if chunks == [] then []
    else FrameBytes(false, SealChunk(s, index, false, chunks[0])) + DataFrames(s, index + 1, chunks[1..])
  }

  predicate AllSmall(chunks: seq<Bytes>) { forall i | 0 <= i < |chunks| :: |chunks[i]| <= CHUNK_BYTES }

  /** A stream that uses up every index without a final frame. */
  ghost predicate IsOverlong(s: Session, index: nat, chunks: seq<Bytes>, rest: Bytes, input: Bytes) {
    && ValidSession(s) && AllSmall(chunks) && index + |chunks| == MAX_INDEX + 1
    && input == DataFrames(s, index, chunks) + rest
  }

  lemma {:induction false} OverlongIsRefused(s: Session, index: nat, chunks: seq<Bytes>, rest: Bytes, input: Bytes)
    requires index <= MAX_INDEX && IsOverlong(s, index, chunks, rest, input)
    ensures DecodeFrames(s, index, input) == Failure(TooManyChunks)
    decreases chunks
  {
    var x := SealChunk(s, index, false, chunks[0]);
    var more := DataFrames(s, index + 1, chunks[1..]) + rest;
    assert input == FrameBytes(false, x) + more;
    OpenSealed(s, index, false, chunks[0]);
    ReadWrittenFrame(false, x, more);
    if index < MAX_INDEX {
      OverlongIsRefused(s, index + 1, chunks[1..], rest, more);
    }
  }

  lemma {:induction false} RefusedIsOverlong(s: Session, index: nat, input: Bytes) returns (chunks: seq<Bytes>, rest: Bytes)
    requires ValidSession(s) && index <= MAX_INDEX && DecodeFrames(s, index, input) == Failure(TooManyChunks)
    ensures IsOverlong(s, index, chunks, rest, input)
    decreases |input|
  {
    var f, plaintext := OpenedFirstFrame(s, index, input);
    var more: seq<Bytes> := [];
    rest := f.rest;
    if index < MAX_INDEX {
      more, rest := RefusedIsOverlong(s, index + 1, f.rest);
    }
    chunks := [plaintext] + more;
    assert chunks[1..] == more;
    assert f.rest == DataFrames(s, index + 1, more) + rest;
    OneMoreDataFrame(s, index, plaintext, more, rest);
  }

  lemma OneMoreDataFrame(s: Session, index: nat, chunk: Bytes, more: seq<Bytes>, rest: Bytes)
    requires ValidSession(s) && |chunk| <= CHUNK_BYTES && AllSmall(more) && index + 1 + |more| == MAX_INDEX + 1
    ensures |SealChunk(s, index, false, chunk)| <= MAX_INDEX && AllSmall([chunk] + more)
    ensures DataFrames(s, index, [chunk] + more) + rest ==
      FrameBytes(false, SealChunk(s, index, false, chunk)) + (DataFrames(s, index + 1, more) + rest)
  {
    assert ([chunk] + more)[1..] == more;
    Regroup(FrameBytes(false, SealChunk(s, index, false, chunk)), DataFrames(s, index + 1, more), rest);
  }

  lemma Regroup(a: Bytes, b: Bytes, c: Bytes)
    ensures (a + b) + c == a + (b + c)
  {
  }

  /** What each error of decryption means: another format, 2^32 data frames without an end, and
      everything else. */
  lemma DecodeErrors(cipher: Aead, aad: Bytes, input: Bytes)
    requires Lawful(cipher)
    ensures Decode(cipher, aad, input) == Failure(UnsupportedVersion)
      <==> |input| >= HEADER_BYTES && input[..9] != MAGIC + [ENVELOPE_VERSION]
    ensures Decode(cipher, aad, input) == Failure(TooManyChunks)
      <==> exists n, chunks, rest :: |n| == NONCE_BYTES && Header(n) <= input
             && IsOverlong(Session(cipher, n, aad), 0, chunks, rest, input[HEADER_BYTES..])
    ensures Decode(cipher, aad, input) != Failure(IoError)
  {
    if |input| >= HEADER_BYTES {
      var n := input[9..HEADER_BYTES];
      assert input[..9] == input[..8] + [input[8]];
      assert input[..9] == MAGIC + [ENVELOPE_VERSION] ==> input[..8] == (MAGIC + [ENVELOPE_VERSION])[..8];
      assert input[..HEADER_BYTES] == input[..9] + n;
      FramesErrors(Session(cipher, n, aad), 0, input[HEADER_BYTES..]);
      if Decode(cipher, aad, input) == Failure(TooManyChunks) {
        var chunks, rest := RefusedIsOverlong(Session(cipher, n, aad), 0, input[HEADER_BYTES..]);
        assert Header(n) <= input;
      }
      forall m, chunks, rest | |m| == NONCE_BYTES && Header(m) <= input
          && IsOverlong(Session(cipher, m, aad), 0, chunks, rest, input[HEADER_BYTES..])
        ensures Decode(cipher, aad, input) == Failure(TooManyChunks)
      {
        HeaderSplits(m, input);
        OverlongIsRefused(Session(cipher, m, aad), 0, chunks, rest, input[HEADER_BYTES..]);
      }
    }
  }

  lemma {:induction false} FramesErrors(s: Session, index: nat, input: Bytes)
    requires |s.nonce| == NONCE_BYTES && index <= MAX_INDEX
    ensures var r := DecodeFrames(s, index, input); r.Failure? ==> r.error == Failed || r.error == TooManyChunks
    decreases |input|
  {
    var f := ReadFrame(input);
    if f.Some? && OpenChunk(s, index, f.value.final, f.value.ciphertext).Some? && !f.value.final && index < MAX_INDEX {
      FramesErrors(s, index + 1, f.value.rest);
    }
  }

  lemma {:induction false} NoExtensionOfFrames(s: Session, index: nat, input: Bytes, more: Bytes)
    requires |s.nonce| == NONCE_BYTES && index <= MAX_INDEX && more != []
    requires DecodeFrames(s, index, input).Success?
    ensures DecodeFrames(s, index, input + more).Failure?
    decreases |input|
  {
    var f := ReadFrame(input).value;
    SameFirstFrame(input, more);
    if !f.final {
      NoExtensionOfFrames(s, index + 1, f.rest, more);
    }
  }

  /** More bytes at the end do not change the first frame. */
  lemma SameFirstFrame(input: Bytes, more: Bytes)
    requires ReadFrame(input).Some?
    ensures var f := ReadFrame(input).value; ReadFrame(input + more) == Some(f.(rest := f.rest + more))
  {
    var f := ReadFrame(input).value;
    WrittenFrameRead(input);
    assert input + more == FrameBytes(f.final, f.ciphertext) + (f.rest + more);
    ReadWrittenFrame(f.final, f.ciphertext, f.rest + more);
  }

  /** Truncation and appending are always detected: of two accepted streams, neither is a proper
      prefix of the other. */
  lemma AcceptedStreamsArePrefixFree(cipher: Aead, aad: Bytes, one: Bytes, two: Bytes)
    requires Decode(cipher, aad, one).Success? && Decode(cipher, aad, two).Success? && one <= two
    ensures one == two
  {
    if one != two {
      var more := two[|one|..];
      assert two == one + more;
      assert two[HEADER_BYTES..] == one[HEADER_BYTES..] + more;
      assert two[9..HEADER_BYTES] == one[9..HEADER_BYTES];
      NoExtensionOfFrames(Session(cipher, one[9..HEADER_BYTES], aad), 0, one[HEADER_BYTES..], more);
    }
  }

  /******* Nonces and lengths *******/

  /** No nonce is used twice under one base nonce (section 8 of NIST SP 800-38D). */
  lemma NoncesAreDistinct(base: Bytes, i: nat, j: nat)
    requires |base| == NONCE_BYTES && i < j <= MAX_INDEX
    ensures ChunkNonce(base, i) != ChunkNonce(base, j)
  {
    Be32RoundTrip(i);
    Be32RoundTrip(j);
    assert ChunkNonce(base, i)[8..] == Be32(i) && ChunkNonce(base, j)[8..] == Be32(j);
  }

  lemma {:induction false} FramesLength(s: Session, index: nat, chunks: seq<Bytes>)
    requires ValidSession(s) && WellChunked(index, chunks)
    ensures |Frames(s, index, chunks)| == |Concat(chunks)| + 21 * |chunks| + 21
    decreases chunks
  {
    if chunks != [] {
      FramesLength(s, index + 1, chunks[1..]);
    }
  }

  const WRAPPED_PAYLOAD_KEY_ENVELOPE_BYTES: nat := 95
  const MAX_SECRET_BYTES: nat := 64 * 1024
  const MAX_SECRET_ENVELOPE_BYTES: nat := MAX_SECRET_BYTES + 4096

  /** An envelope starts with "VDSENC01", its version and its nonce, and is 42 bytes longer than
      its plaintext, plus 21 for every chunk.  Read in one
      piece, a 32-byte key makes the 95 bytes the manifest insists on, and the largest vault
      secret stays within the size the vault will load again. */
  lemma EnvelopeLength(cipher: Aead, aad: Bytes, nonce: Bytes, chunks: seq<Bytes>, input: Bytes)
    requires IsEnvelope(cipher, aad, nonce, chunks, input)
    ensures |input| == 42 + |Concat(chunks)| + 21 * |chunks|
    ensures input[..9] == [0x56, 0x44, 0x53, 0x45, 0x4E, 0x43, 0x30, 0x31, 1] && input[9..21] == nonce
    ensures |chunks| == 1 && |chunks[0]| == 32 ==> |input| == WRAPPED_PAYLOAD_KEY_ENVELOPE_BYTES
    ensures |chunks| <= 1 && |Concat(chunks)| <= MAX_SECRET_BYTES ==> |input| <= MAX_SECRET_ENVELOPE_BYTES
  {
    FramesLength(Session(cipher, nonce, aad), 0, chunks);
    if |chunks| == 1 {
      assert chunks[1..] == [];
      assert Concat(chunks) == chunks[0] + [];
    }
  }
}
