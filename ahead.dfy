/** The AEAD wire framing of the tunnel.

    Stream chunk, on the wire:
      [ 2+tag bytes: AEAD(len as big-endian u16) ][ len+tag bytes: AEAD(payload) ]
    sealed under two consecutive nonces of the connection's cipher session.

    Datagram, on the wire:
      [ salt bytes ][ payload+tag bytes: AEAD(payload) ]
    sealed under nonce 0 of a session keyed from the master key and the salt. */
module Ahead {
  import opened Bytes
  import opened Io
  import opened Aead

  /** The largest payload a chunk carries: the length field keeps its top two
      bits clear. */
  const MAX_PACKET_SIZE: nat := 0x3FFF

  /** The bytes one chunk of `data` occupies on the wire: the sealed length
      field, then the sealed payload. */
  function BufferSize(tagSize: nat, data: Bytes): (r: nat)
    ensures r - |data| == 2 + 2 * tagSize
  {
    2 + tagSize
    + |data| + tagSize
  }

  // ---------------------------------------------------------------------
  // Stream chunks: specification

  /** The chunk the encoder writes for `p` when its session is at `nonce`. */
  function EncodeChunk(t: CipherType, key: Bytes, nonce: nat, p: Bytes): (r: Bytes) {
    t.seal(key, nonce, WriteU16(AsU16(|p|))) + t.seal(key, nonce + 1, p)
  }

  /** The length the decoder reads from the front of `rest`, if the length
      unit authenticates. */
  function LengthField(t: CipherType, key: Bytes, nonce: nat, rest: Bytes): (r: Option<nat>)
    requires Sound(t) && 2 + t.tagSize <= |rest|
    ensures r.Some? ==> r.value < U16_LIMIT
  {
    match t.open(key, nonce, rest[..2 + t.tagSize])
    case None => None
    case Some(b) => Some(ReadU16(b))
  }

  /** The payload length the decoder sizes its second read by, when it gets
      that far: the length unit was read, authenticated and is in range. */
  function ClaimedLength(t: CipherType, key: Bytes, nonce: nat, rest: Bytes): (r: Option<nat>)
    requires Sound(t)
  {
    if |rest| < 2 + t.tagSize then None
    else match LengthField(t, key, nonce, rest)
      case Some(len) => if len <= MAX_PACKET_SIZE then Some(len) else None
      case None => None
  }

  /** What decoding one chunk does: its result, how many source bytes it
      consumes and how many nonces of the session it uses. */
  datatype ChunkRead = ChunkRead(result: Result<Bytes>, consumed: nat, noncesUsed: nat)

  /** Decoding one chunk from the bytes `rest` left in the source, with the
      session at `nonce`. */
  function DecodeChunk(t: CipherType, key: Bytes, nonce: nat, rest: Bytes): (r: ChunkRead)
    requires Sound(t)
  {
    var unit := 2 + t.tagSize;
    if |rest| < unit then ChunkRead(Err(UnexpectedEof), |rest|, 0)
    else match LengthField(t, key, nonce, rest)
      case None => ChunkRead(Err(AeadDecryptFailed), unit, 1)
      case Some(len) =>
        if len > MAX_PACKET_SIZE then ChunkRead(Err(InvalidData), unit, 1)
        else if |rest| < unit + len + t.tagSize then ChunkRead(Err(UnexpectedEof), |rest|, 1)
        else match t.open(key, nonce + 1, rest[unit..unit + len + t.tagSize])
          case None => ChunkRead(Err(AeadDecryptFailed), unit + len + t.tagSize, 2)
          case Some(p) => ChunkRead(Ok(p), unit + len + t.tagSize, 2)
  }

  /** A scratch buffer of `scratch` bytes holds the length unit and, when it
      is read, the payload unit. */
  predicate ScratchFits(t: CipherType, key: Bytes, nonce: nat, rest: Bytes, scratch: nat)
    requires Sound(t)
  {
    2 + t.tagSize <= scratch &&
    match ClaimedLength(t, key, nonce, rest)
    case Some(len) => len + t.tagSize <= scratch
    case None => true
  }

  /** The scratch buffer and the output buffer are big enough for every
      slice the decoder takes of them; `output[..len]` is only taken once
      the whole payload unit has been read. */
  predicate BuffersFit(t: CipherType, key: Bytes, nonce: nat, rest: Bytes, scratch: nat, output: nat)
    requires Sound(t)
  {
    ScratchFits(t, key, nonce, rest, scratch) &&
    match ClaimedLength(t, key, nonce, rest)
    case Some(len) => 2 + t.tagSize + len + t.tagSize <= |rest| ==> len <= output
    case None => true
  }

  /** The scratch buffer after decoding one chunk: the length unit is read
      into its front, and the payload unit, if it is read, over that. */
  function ScratchAfter(t: CipherType, key: Bytes, nonce: nat, rest: Bytes, scratch: seq<byte>): (r: seq<byte>)
    requires Sound(t) && ScratchFits(t, key, nonce, rest, |scratch|)
  {
    var unit := 2 + t.tagSize;
    var lengthRead := FilledBuffer(scratch, rest, unit);
    match ClaimedLength(t, key, nonce, rest)
    case None => lengthRead
    case Some(len) => FilledBuffer(lengthRead, rest[unit..], len + t.tagSize)
  }

  // ---------------------------------------------------------------------
  // Stream chunks: properties

  /** An encoded chunk is exactly BufferSize bytes: the sealed length field
      of the first 2+tag bytes carries |p| big-endian, the sealed payload
      follows under the next nonce. */
  lemma EncodeChunkLayout(t: CipherType, key: Bytes, nonce: nat, p: Bytes)
    requires Sound(t) && |p| <= MAX_PACKET_SIZE
    ensures |EncodeChunk(t, key, nonce, p)| == BufferSize(t.tagSize, p)
    ensures EncodeChunk(t, key, nonce, p)[..2 + t.tagSize] == t.seal(key, nonce, WriteU16(|p|))
    ensures EncodeChunk(t, key, nonce, p)[2 + t.tagSize..] == t.seal(key, nonce + 1, p)
  {
  }

  /** Decoding what the encoder wrote, with both sessions at the same nonce,
      gives back the payload, consumes exactly the chunk, uses two nonces
      like the encoder, and leaves whatever follows untouched. */
  lemma ChunkRoundTrip(t: CipherType, key: Bytes, nonce: nat, p: Bytes, more: Bytes)
    requires Sound(t) && |p| <= MAX_PACKET_SIZE
    ensures DecodeChunk(t, key, nonce, EncodeChunk(t, key, nonce, p) + more)
         == ChunkRead(Ok(p), BufferSize(t.tagSize, p), 2)
    ensures ClaimedLength(t, key, nonce, EncodeChunk(t, key, nonce, p) + more) == Some(|p|)
  {
    var unit := 2 + t.tagSize;
    var rest := EncodeChunk(t, key, nonce, p) + more;
    EncodeChunkLayout(t, key, nonce, p);
    assert rest[..unit] == t.seal(key, nonce, WriteU16(|p|));
    assert rest[unit..unit + |p| + t.tagSize] == t.seal(key, nonce + 1, p);
  }

  /** Conversely, every chunk the decoder accepts is exactly the encoding of
      the payload it returns, at most MAX_PACKET_SIZE long, and BufferSize
      bytes of the source are consumed for it. */
  lemma DecodedChunkIsEncoding(t: CipherType, key: Bytes, nonce: nat, rest: Bytes)
    requires Sound(t) && DecodeChunk(t, key, nonce, rest).result.Ok?
    ensures var d := DecodeChunk(t, key, nonce, rest);
      && |d.result.value| <= MAX_PACKET_SIZE
      && d.consumed == BufferSize(t.tagSize, d.result.value)
      && d.noncesUsed == 2
      && rest[..d.consumed] == EncodeChunk(t, key, nonce, d.result.value)
  {
    var unit := 2 + t.tagSize;
    var b := t.open(key, nonce, rest[..unit]).value;
    var p := DecodeChunk(t, key, nonce, rest).result.value;
    var len := ReadU16(b);
    WriteReadU16(b);
    assert WriteU16(AsU16(|p|)) == b;
    assert rest[..unit + len + t.tagSize] == rest[..unit] + rest[unit..unit + len + t.tagSize];
  }

  /** A length unit that does not authenticate ends the decode: the payload
      unit is neither read nor decrypted. */
  lemma LengthAuthFailureStops(t: CipherType, key: Bytes, nonce: nat, rest: Bytes)
    requires Sound(t) && 2 + t.tagSize <= |rest|
    requires t.open(key, nonce, rest[..2 + t.tagSize]).None?
    ensures DecodeChunk(t, key, nonce, rest) == ChunkRead(Err(AeadDecryptFailed), 2 + t.tagSize, 1)
    ensures ClaimedLength(t, key, nonce, rest).None?
  {
  }

  /** The decoder rejects a chunk with InvalidData exactly when its length
      unit authenticates to a length above MAX_PACKET_SIZE; it then reads and
      decrypts nothing more, so the outcome depends on the length unit alone. */
  lemma OversizedLengthRejected(t: CipherType, key: Bytes, nonce: nat, rest: Bytes)
    requires Sound(t)
    ensures DecodeChunk(t, key, nonce, rest).result == Err(InvalidData)
        <==> (2 + t.tagSize <= |rest| &&
              match LengthField(t, key, nonce, rest)
              case Some(len) => len > MAX_PACKET_SIZE
              case None => false)
    ensures DecodeChunk(t, key, nonce, rest).result == Err(InvalidData) ==>
      && DecodeChunk(t, key, nonce, rest) == ChunkRead(Err(InvalidData), 2 + t.tagSize, 1)
      && DecodeChunk(t, key, nonce, rest[..2 + t.tagSize]) == DecodeChunk(t, key, nonce, rest)
  {
    var unit := 2 + t.tagSize;
    if DecodeChunk(t, key, nonce, rest).result == Err(InvalidData) {
      assert rest[..unit][..unit] == rest[..unit];
    }
  }

  /** A length field sealed by a peer that claims MAX_PACKET_SIZE + 1 bytes
      or more is refused, whatever follows it. */
  lemma ForgedOversizedChunkRejected(t: CipherType, key: Bytes, nonce: nat, n: nat, more: Bytes)
    requires Sound(t) && MAX_PACKET_SIZE < n < U16_LIMIT
    ensures DecodeChunk(t, key, nonce, t.seal(key, nonce, WriteU16(n)) + more).result == Err(InvalidData)
  {
  }

  /** Buffers of MAX_PACKET_SIZE + tag scratch bytes and MAX_PACKET_SIZE
      output bytes fit every chunk. */
  lemma MaxBuffersFit(t: CipherType, key: Bytes, nonce: nat, rest: Bytes)
    requires Sound(t)
    ensures BuffersFit(t, key, nonce, rest, MAX_PACKET_SIZE + t.tagSize, MAX_PACKET_SIZE)
  {
  }

  // ---------------------------------------------------------------------
  // Stream chunks: the codec

  /** `ahead_encrypted_write`: seals the length of `buf` into the first 2+tag
      bytes of `dst` and `buf` itself into the bytes after them, and returns
      how many bytes it wrote. */
  method AheadEncryptedWrite(cipher: Encryptor, buf: Bytes, dst: array<byte>) returns (r: Result<nat>)
    requires Sound(cipher.suite)
    requires |buf| <= MAX_PACKET_SIZE
    requires BufferSize(cipher.suite.tagSize, buf) <= dst.Length
    modifies cipher, dst
    ensures r == Ok(BufferSize(cipher.suite.tagSize, buf))
    ensures cipher.nonce == old(cipher.nonce) + 2
    ensures dst[..] == EncodeChunk(cipher.suite, cipher.key, old(cipher.nonce), buf)
                       + old(dst[BufferSize(cipher.suite.tagSize, buf)..])
  {
    var tagSize := cipher.suite.tagSize;
    var outputLength := BufferSize(tagSize, buf);
    var dataLength := AsU16(|buf|);
    var dataLenBuf := WriteU16(dataLength);

    var outputLengthSize := 2 + tagSize;
    cipher.Encrypt(dataLenBuf, dst, 0, outputLengthSize);
    cipher.Encrypt(buf, dst, outputLengthSize, outputLength);
    r := Ok(outputLength);
  }

  /** `ahead_decrypted_read`: reads the length unit, authenticates it and
      checks its range, and only then reads and authenticates a payload unit
      of that length, decrypting it into the front of `output`. */
  method AheadDecryptedRead(cipher: Decryptor, src: ByteSource, tmpBuf: array<byte>, output: array<byte>)
    returns (r: Result<nat>)
    requires Sound(cipher.suite) && src.Valid() && tmpBuf != output
    requires BuffersFit(cipher.suite, cipher.key, cipher.nonce, src.Remaining(), tmpBuf.Length, output.Length)
    modifies cipher, src, tmpBuf, output
    ensures src.Valid()
    ensures var d := DecodeChunk(cipher.suite, cipher.key, old(cipher.nonce), old(src.Remaining()));
      && r == (match d.result case Ok(p) => Ok(|p|) case Err(e) => Err(e))
      && src.pos == old(src.pos) + d.consumed
      && cipher.nonce == old(cipher.nonce) + d.noncesUsed
      && output[..] == (match d.result case Ok(p) => p + old(output[|p|..]) case Err(_) => old(output[..]))
    ensures tmpBuf[..] == ScratchAfter(cipher.suite, cipher.key, old(cipher.nonce), old(src.Remaining()), old(tmpBuf[..]))
  {
    var tagSize := cipher.suite.tagSize;
    ghost var rest := src.Remaining();
    ghost var nonce := cipher.nonce;
    var read := src.ReadExact(tmpBuf, 2 + tagSize);
    if read.Err? {
      return Err(read.error);
    }
    assert tmpBuf[..2 + tagSize] == rest[..2 + tagSize];
    var lenBuf := new byte[2];
    var decrypted := cipher.Decrypt(tmpBuf[..2 + tagSize], lenBuf, 2);
    if decrypted.Err? {
      return Err(decrypted.error);
    }
    var len := ReadU16(lenBuf[..]);
    assert LengthField(cipher.suite, cipher.key, nonce, rest) == Some(len);
    if len > MAX_PACKET_SIZE {
      return Err(InvalidData);
    }
    assert ClaimedLength(cipher.suite, cipher.key, nonce, rest) == Some(len);

    read := src.ReadExact(tmpBuf, len + tagSize);
    if read.Err? {
      return Err(read.error);
    }
    assert 2 + tagSize + len + tagSize <= |rest|;
    assert len <= output.Length;
    assert tmpBuf[..len + tagSize] == rest[2 + tagSize..2 + tagSize + len + tagSize];
    decrypted := cipher.Decrypt(tmpBuf[..len + tagSize], output, len);
    if decrypted.Err? {
      return Err(decrypted.error);
    }
    r := Ok(len);
  }

  // ---------------------------------------------------------------------
  // Datagrams: specification and properties

  /** The packet the encoder writes for `p` with the given salt. */
  function EncodeDatagram(t: CipherType, key: Bytes, salt: Bytes, p: Bytes): (r: Bytes) {
    salt + t.seal(t.subkey(key, salt), 0, p)
  }

  /** Decoding one packet: too short for a salt and a tag is UnexpectedEof,
      otherwise the body must authenticate under the packet's own salt. */
  function DecodeDatagram(t: CipherType, key: Bytes, packet: Bytes): (r: Result<Bytes>) {
    if |packet| < t.tagSize + t.saltSize then Err(UnexpectedEof)
    else match t.open(t.subkey(key, packet[..t.saltSize]), 0, packet[t.saltSize..])
      case None => Err(AeadDecryptFailed)
      case Some(p) => Ok(p)
  }

  /** A packet encoded with a salt of the cipher's salt size is
      salt + payload + tag bytes long and decodes to its payload. */
  lemma DatagramRoundTrip(t: CipherType, key: Bytes, salt: Bytes, p: Bytes)
    requires Sound(t) && |salt| == t.saltSize
    ensures |EncodeDatagram(t, key, salt, p)| == t.saltSize + |p| + t.tagSize
    ensures DecodeDatagram(t, key, EncodeDatagram(t, key, salt, p)) == Ok(p)
  {
  }

  /** Conversely, a packet that decodes is the encoding of what it decodes to
      under its own salt, and the payload is tag + salt bytes shorter. */
  lemma DecodedDatagramIsEncoding(t: CipherType, key: Bytes, packet: Bytes)
    requires Sound(t) && DecodeDatagram(t, key, packet).Ok?
    ensures var p := DecodeDatagram(t, key, packet).value;
      && |p| == |packet| - t.tagSize - t.saltSize
      && packet == EncodeDatagram(t, key, packet[..t.saltSize], p)
  {
  }

  /** A packet is refused as too short exactly when it is shorter than a
      salt and a tag. */
  lemma ShortDatagramRejected(t: CipherType, key: Bytes, packet: Bytes)
    ensures DecodeDatagram(t, key, packet) == Err(UnexpectedEof) <==> |packet| < t.tagSize + t.saltSize
  {
  }

  // ---------------------------------------------------------------------
  // Datagrams: the codec

  /** `encrypt_payload_aead`: copies the salt to the front of `output`, seals
      `payload` after it with a fresh session keyed from `key` and the salt,
      and returns the packet length. The salt is the value `gen_salt` drew. */
  method EncryptPayloadAead(t: CipherType, key: Bytes, salt: Bytes, payload: Bytes, output: array<byte>)
    returns (r: Result<nat>)
    requires Sound(t)
    requires |salt| + |payload| + t.tagSize <= output.Length
    modifies output
    ensures r == Ok(|salt| + |payload| + t.tagSize)
    ensures output[..] == EncodeDatagram(t, key, salt, payload) + old(output[|salt| + |payload| + t.tagSize..])
  {
    var tagSize := t.tagSize;
    var cipher := new Encryptor(t, key, salt);

    var saltLen := |salt|;
    forall i | 0 <= i < saltLen {
      output[i] := salt[i];
    }

    cipher.Encrypt(payload, output, saltLen, saltLen + |payload| + tagSize);
    r := Ok(saltLen + |payload| + tagSize);
  }

  /** `decrypt_payload_aead`: refuses a packet too short for a salt and a tag
      before any cipher exists; otherwise opens the body under a session keyed
      from `key` and the packet's salt into the front of `output`. */
  method DecryptPayloadAead(t: CipherType, key: Bytes, payload: Bytes, output: array<byte>)
    returns (r: Result<nat>)
    requires Sound(t)
    requires |payload| <= output.Length + t.tagSize + t.saltSize
    modifies output
    ensures match DecodeDatagram(t, key, payload)
      case Ok(p) => r == Ok(|p|) && output[..] == p + old(output[|p|..])
      case Err(e) => r == Err(e) && output[..] == old(output[..])
  {
    var tagSize := t.tagSize;
    var saltSize := t.saltSize;

    if |payload| < tagSize + saltSize {
      return Err(UnexpectedEof);
    }

    var salt := payload[..saltSize];
    var data := payload[saltSize..];
    var dataLength := |payload| - tagSize - saltSize;

    var cipher := new Decryptor(t, key, salt);

    var decrypted := cipher.Decrypt(data, output, dataLength);
    if decrypted.Err? {
      return Err(decrypted.error);
    }
    r := Ok(dataLength);
  }

  // ---------------------------------------------------------------------
  // The two codecs end to end

  /** One packet encrypted with a salt drawn for the cipher and decrypted
      from exactly the bytes written gives back its payload. */
  method PayloadRoundTrip(t: CipherType, key: Bytes, salt: Bytes, payload: Bytes)
    returns (r: Result<nat>, plain: Bytes)
    requires Sound(t) && |salt| == t.saltSize
    ensures r == Ok(|payload|) && plain == payload
  {
    var output := new byte[|salt| + |payload| + t.tagSize];
    var output2 := new byte[|payload|];
    var size := EncryptPayloadAead(t, key, salt, payload, output);
    assert output[..size.value] == EncodeDatagram(t, key, salt, payload);
    DatagramRoundTrip(t, key, salt, payload);
    r := DecryptPayloadAead(t, key, output[..size.value], output2);
    plain := output2[..r.value];
  }

  /** One chunk written by an encryptor and read by a decryptor made from the
      same key and salt: the decoder returns the payload's length and the
      payload. */
  method StreamRoundTrip(t: CipherType, key: Bytes, iv: Bytes, buf: Bytes)
    returns (s: Result<nat>, plain: Bytes)
    requires Sound(t) && |buf| <= MAX_PACKET_SIZE
    ensures s == Ok(|buf|) && plain == buf
  {
    var encrypter := new Encryptor(t, key, iv);
    var decrypter := new Decryptor(t, key, iv);

    var dst := new byte[BufferSize(t.tagSize, buf)];
    var tmpBuf := new byte[MAX_PACKET_SIZE + t.tagSize];
    var output := new byte[MAX_PACKET_SIZE];

    var size := AheadEncryptedWrite(encrypter, buf, dst);
    var src := new ByteSource(dst[..size.value]);
    assert src.Remaining() == EncodeChunk(t, encrypter.key, 0, buf) + [];
    ChunkRoundTrip(t, encrypter.key, 0, buf, []);
    s := AheadDecryptedRead(decrypter, src, tmpBuf, output);
    plain := output[..s.value];
  }

  /** The stream test as written: with buffers of MAX_PACKET_SIZE bytes it
      compares the payload against `output[..size]`, where `size` is what the
      encoder returned, the length of the whole chunk on the wire. That
      prefix is always longer than the payload, so the comparison fails. */
  method StreamTestAsWritten(t: CipherType, key: Bytes, iv: Bytes, buf: Bytes)
    returns (s: Result<nat>, compared: Bytes)
    requires Sound(t) && BufferSize(t.tagSize, buf) <= MAX_PACKET_SIZE
    ensures s == Ok(|buf|)
    ensures |compared| == BufferSize(t.tagSize, buf) && compared != buf
  {
    var encrypter := new Encryptor(t, key, iv);
    var decrypter := new Decryptor(t, key, iv);

    var dst := new byte[MAX_PACKET_SIZE];
    var tmpBuf := new byte[MAX_PACKET_SIZE];
    var output := new byte[MAX_PACKET_SIZE];

    var size := AheadEncryptedWrite(encrypter, buf, dst);
    var src := new ByteSource(dst[..size.value]);
    assert src.Remaining() == EncodeChunk(t, encrypter.key, 0, buf) + [];
    ChunkRoundTrip(t, encrypter.key, 0, buf, []);
    s := AheadDecryptedRead(decrypter, src, tmpBuf, output);
    compared := output[..size.value];
  }
}
