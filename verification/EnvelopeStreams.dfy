/** Streaming encryption and decryption: the loops that read, frame, open and write. */
module EnvelopeStreams {
  import opened Wrappers
  import opened Envelope

  /** A byte source whose reads come in pieces of its own choosing, then end or fail. */
  class ChunkReader {
    var pieces: seq<Bytes>
    var broken: bool

    ghost predicate Valid()
      reads this
    {
      forall i | 0 <= i < |pieces| :: 0 < |pieces[i]| <= CHUNK_BYTES
    }

    /** `Some([])` is the end of the stream, `None` an I/O error. */
    method Read() returns (r: Option<Bytes>)
      requires Valid()
      modifies `pieces
      ensures Valid()
      ensures old(pieces) != [] ==> r == Some(old(pieces)[0]) && pieces == old(pieces)[1..]
      ensures old(pieces) == [] ==> pieces == [] && r == if broken then None else Some([])
    {
      if pieces == [] {
        return if broken then None else Some([]);
      }
      r := Some(pieces[0]);
      pieces := pieces[1..];
    }
  }

  class ByteReader {
    var rest: Bytes

    method ReadExact(count: nat) returns (r: Option<Bytes>)
      modifies this
      ensures if count <= |old(rest)| then r == Some(old(rest)[..count]) && rest == old(rest)[count..]
              else r.None? && rest == []
    {
      if count <= |rest| {
        r := Some(rest[..count]);
        rest := rest[count..];
      } else {
        r := None;
        rest := [];
      }
    }
  }

  class Sink {
    var bytes: Bytes
    /** True when writes never fail. */
    const reliable: bool

    method WriteAll(more: Bytes) returns (ok: bool)
      modifies this
      ensures ok ==> bytes == old(bytes) + more
      ensures !ok ==> bytes == old(bytes)
      ensures reliable ==> ok
    {
      ok := true;
      if * {
        ok := reliable;
      }
      if ok {
        bytes := bytes + more;
      }
    }
  }

  method WriteFrame(s: Session, output: Sink, index: nat, final: bool, chunk: Bytes)
    returns (r: Option<EncryptionError>)
    requires ValidSession(s) && index <= MAX_INDEX && |chunk| <= CHUNK_BYTES
    modifies output
    ensures |SealChunk(s, index, final, chunk)| <= MAX_INDEX
    ensures r.None? ==> output.bytes == old(output.bytes) + FrameBytes(final, SealChunk(s, index, final, chunk))
    ensures output.reliable ==> r.None?
    ensures r.Some? ==> r.value == IoError
  {
    OpenSealed(s, index, final, chunk);
    var ciphertext := SealChunk(s, index, final, chunk);
    var ok := output.WriteAll([Flag(final)]);
    if !ok {
      return Some(IoError);
    }
    ok := output.WriteAll(Be32(|ciphertext|));
    if !ok {
      return Some(IoError);
    }
    ok := output.WriteAll(ciphertext);
    if !ok {
      return Some(IoError);
    }
    assert output.bytes == old(output.bytes) + FrameBytes(final, ciphertext);
    r := None;
  }

  /** Whatever pieces the input arrives in, the output is the envelope of exactly those pieces;
      the only streams refused for their size are those of 2^32 pieces and more. */
  method EncryptReaderTo(cipher: Aead, nonce: Bytes, input: ChunkReader, output: Sink, aad: Bytes)
    returns (r: Option<EncryptionError>)
    requires Lawful(cipher) && |nonce| == NONCE_BYTES && input.Valid()
    modifies input`pieces, output
    ensures r.None? ==>
      && WellChunked(0, old(input.pieces))
      && output.bytes == old(output.bytes) + Header(nonce) + Frames(Session(cipher, nonce, aad), 0, old(input.pieces))
    ensures input.broken ==> r.Some?
    ensures output.reliable && !input.broken ==> (r.None? <==> |old(input.pieces)| <= MAX_INDEX)
    ensures output.reliable && r.Some? ==> r.value == if |old(input.pieces)| <= MAX_INDEX then IoError else TooManyChunks
  {
    var s := Session(cipher, nonce, aad);
    ghost var all := input.pieces;
    ghost var target := if WellChunked(0, all) then output.bytes + Header(nonce) + Frames(s, 0, all) else [];
    var ok := output.WriteAll(MAGIC);
    if !ok {
      return Some(IoError);
    }
    ok := output.WriteAll([ENVELOPE_VERSION]);
    if !ok {
      return Some(IoError);
    }
    ok := output.WriteAll(nonce);
    if !ok {
      return Some(IoError);
    }
    assert output.bytes == old(output.bytes) + Header(nonce);
    var index: nat := 0;
    while true
      invariant index <= MAX_INDEX && index <= |all| && input.pieces == all[index..] && input.Valid()
      invariant WellChunked(0, all) ==> output.bytes + Frames(s, index, all[index..]) == target
      decreases |input.pieces|
    {
      var read := input.Read();
      if read.None? {
        return Some(IoError);
      }
      if read.value == [] {
        assert index == |all|;
        r := WriteFrame(s, output, index, true, []);
        return;
      }
      if WellChunked(0, all) {
        FramesFrom(s, index, all, output.bytes);
      }
      r := WriteFrame(s, output, index, false, read.value);
      if r.Some? {
        return;
      }
      if index == MAX_INDEX {
        return Some(TooManyChunks);
      }
      index := index + 1;
    }
  }

  /** Writing the frame of piece `index` leaves the frames of the pieces after it to be written. */
  lemma FramesFrom(s: Session, index: nat, all: seq<Bytes>, written: Bytes)
    requires ValidSession(s) && WellChunked(0, all) && index < |all|
    ensures |SealChunk(s, index, false, all[index])| <= MAX_INDEX
    ensures written + Frames(s, index, all[index..])
         == (written + FrameBytes(false, SealChunk(s, index, false, all[index]))) + Frames(s, index + 1, all[index + 1..])
  {
    OpenSealed(s, index, false, all[index]);
    assert all[index..][0] == all[index] && all[index..][1..] == all[index + 1..];
  }

  function Prepend(written: Bytes, rest: Result<Bytes, EncryptionError>): Result<Bytes, EncryptionError> {
    if rest.Success? then Success(written + rest.value) else rest
  }

  method ReadFrameFrom(input: ByteReader) returns (r: Option<(bool, Bytes)>)
    modifies input
    ensures r.None? <==> ReadFrame(old(input.rest)).None?
    ensures r.Some? ==> ReadFrame(old(input.rest)) == Some(Frame(r.value.0, r.value.1, input.rest))
  {
    ghost var all := input.rest;
    var flag := input.ReadExact(1);
    if flag.None? || flag.value[0] > 1 {
      return None;
    }
    var length := input.ReadExact(4);
    if length.None? {
      return None;
    }
    assert length.value == all[1..5];
    var count := FromBe32(length.value);
    if count < TAG_BYTES || count > CHUNK_BYTES + TAG_BYTES {
      return None;
    }
    var ciphertext := input.ReadExact(count);
    if ciphertext.None? {
      return None;
    }
    assert ciphertext.value == all[5..5 + count];
    r := Some((flag.value[0] == 1, ciphertext.value));
  }

  /** Writes the plaintext as it is authenticated, frame by frame. */
  method DecryptFramesTo(s: Session, input: ByteReader, output: Sink) returns (r: Option<EncryptionError>)
    requires |s.nonce| == NONCE_BYTES
    modifies input, output
    ensures var expected := DecodeFrames(s, 0, old(input.rest));
      && (r.None? ==> expected.Success? && output.bytes == old(output.bytes) + expected.value)
      && (output.reliable ==> (r.None? <==> expected.Success?))
      && (output.reliable && r.Some? ==> expected == Failure(r.value))
  {
    var index: nat := 0;
    ghost var expected := DecodeFrames(s, 0, input.rest);
    ghost var written: Bytes := [];
    assert forall tail: Bytes :: written + tail == tail;
    while true
      invariant index <= MAX_INDEX && output.bytes == old(output.bytes) + written
      invariant expected == Prepend(written, DecodeFrames(s, index, input.rest))
      decreases |input.rest|
    {
      var frame := ReadFrameFrom(input);
      if frame.None? {
        return Some(Failed);
      }
      var (final, ciphertext) := frame.value;
      var plaintext := OpenChunk(s, index, final, ciphertext);
      if plaintext.None? {
        return Some(Failed);
      }
      if !final {
        var ok := output.WriteAll(plaintext.value);
        if !ok {
          return Some(IoError);
        }
        if index == MAX_INDEX {
          return Some(TooManyChunks);
        }
        index := index + 1;
        assert forall tail: Bytes :: written + (plaintext.value + tail) == (written + plaintext.value) + tail;
        written := written + plaintext.value;
      } else {
        if plaintext.value != [] {
          return Some(Failed);
        }
        if input.rest != [] {
          return Some(Failed);
        }
        assert written + [] == written;
        return None;
      }
    }
  }

  method DecryptReaderTo(cipher: Aead, input: ByteReader, output: Sink, aad: Bytes, expectedNonce: Bytes)
    returns (r: Option<EncryptionError>)
    modifies input, output
    ensures var expected := DecodeExpecting(cipher, aad, expectedNonce, old(input.rest));
      && (r.None? ==> expected.Success? && output.bytes == old(output.bytes) + expected.value)
      && (output.reliable ==> (r.None? <==> expected.Success?))
      && (output.reliable && r.Some? ==> expected == Failure(r.value))
  {
    ghost var all := input.rest;
    var header := input.ReadExact(HEADER_BYTES);
    if header.None? {
      return Some(Failed);
    }
    var h := header.value;
    assert h[..8] == all[..8] && h[8] == all[8] && h[9..] == all[9..HEADER_BYTES];
    if h[..8] != MAGIC || h[8] != ENVELOPE_VERSION {
      return Some(UnsupportedVersion);
    }
    if h[9..] != expectedNonce {
      return Some(Failed);
    }
    r := DecryptFramesTo(Session(cipher, h[9..], aad), input, output);
  }
}
