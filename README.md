# AEAD wire framing of the seeker Shadowsocks client

This project models, in Dafny, the framing layer of the client's AEAD tunnel
(`ssclient/src/ahead.rs`) and proves its properties.

- **Stream chunks.** `ahead_encrypted_write` turns a plaintext of at most
  `MAX_PACKET_SIZE` (0x3FFF) bytes into two sealed units. The first is the
  length as a big-endian u16, sealed under the session's current nonce. The
  second is the payload, sealed under the next nonce. `ahead_decrypted_read`
  reads exactly `2 + tag` bytes and opens them into a length. It rejects a
  length above `MAX_PACKET_SIZE` with `InvalidData`. Only then does it read
  `len + tag` bytes and open them into `output[..len]`.
- **Datagrams.** `encrypt_payload_aead` writes `salt ‖ seal(payload)`. The
  sealing uses a fresh session keyed from the master key and the salt.
  `decrypt_payload_aead` refuses a packet shorter than `tag + salt` with
  `UnexpectedEof`. Otherwise it opens the body under the packet's own salt.
- **Size arithmetic.** `buffer_size` gives the wire size of a chunk.

Layout of the model:

- `bytes.dfy`, module `Bytes`: bytes, `Option`, the `as u16` cast and the
  big-endian u16 field.
- `io.dfy`, module `Io`: error kinds, `Result`, and `ByteSource`, a finite
  byte source with a read position. Its `ReadExact` is `read_exact`: it takes
  exactly `n` bytes, or takes what is left and fails with `UnexpectedEof`.
- `aead.dfy`, module `Aead`: the cipher collaborator. `CipherType` carries
  the tag and salt sizes and three abstract algorithms: `subkey`, `seal` and
  `open`. The ghost predicate `Sound` states what the codec assumes of them:
  - a ciphertext is one tag longer than its plaintext;
  - `open` undoes `seal` under the same key and nonce;
  - a ciphertext that opens is the sealing of its plaintext, so a
    wrong-length input never opens.

  `NullCipherSound` shows that these assumptions can all hold at once.
  `Encryptor` and `Decryptor` are classes holding a session key and a nonce
  counter; every `Encrypt` or `Decrypt` call advances the counter.
- `ahead.dfy`, module `Ahead`: the codec. Each operation is a method on
  arrays. It is proved against a specification function:
  `EncodeChunk`, `DecodeChunk`, `ScratchAfter`, `EncodeDatagram` or
  `DecodeDatagram`. Lemmas state the properties of those functions: round
  trips in both directions, the range check, and error ordering.

A stream round trip holds when the encryptor and the decryptor share a key
and a nonce. A chunk uses two nonces on each side, so two sessions that
start in step stay in step.

## Model

| member | source | states |
|---|---|---|
| `Bytes.AsU16` | ssclient/src/ahead.rs:27 | `buf.len() as u16` is below 2^16, and it keeps any value that fits unchanged |
| `Bytes.WriteU16` | ssclient/src/ahead.rs:28-29 | `BigEndian::write_u16` yields a two-byte field from which `read_u16` gives back the length |
| `Bytes.ReadU16` | ssclient/src/ahead.rs:49 | the length read from the two-byte field is below 2^16 |
| `Bytes.WriteReadU16` | ssclient/src/ahead.rs:47-49 | every two-byte field is the big-endian encoding of the value read from it |
| `Bytes.ReadU16AtMost3FFF` | ssclient/src/ahead.rs:49-50 | the range check `len > MAX_PACKET_SIZE` passes exactly the fields whose top two bits are clear |
| `Io.Taken` | ssclient/src/ahead.rs:46 | `read_exact(n)` takes exactly `n` bytes when `n` are left, and otherwise takes fewer, all that is left |
| `Io.FilledBuffer` | ssclient/src/ahead.rs:46 | after `read_exact`, the bytes taken are at the front of the buffer and the rest of the buffer is as it was |
| `Io.ByteSource.ReadExact` | ssclient/src/ahead.rs:46 | the read succeeds exactly when `n` bytes are left; it advances the position by the bytes taken and stores them at the front of the buffer |
| `Aead.Encryptor.constructor` | ssclient/src/ahead.rs:68 | `new_aead_encryptor(t, key, salt)` is a session keyed from the key and the salt, at nonce 0 |
| `Aead.Encryptor.Encrypt` | ssclient/src/ahead.rs:32-33 | `encrypt` writes the sealed plaintext into exactly its destination slice, leaves the rest of `dst` alone and advances the nonce |
| `Aead.Decryptor.constructor` | ssclient/src/ahead.rs:100 | `new_aead_decryptor(t, key, salt)` is a session keyed from the key and the salt, at nonce 0 |
| `Aead.Decryptor.Decrypt` | ssclient/src/ahead.rs:48 | `decrypt` either writes the opened plaintext into its slice and returns `Ok`, or fails, leaving the slice alone; the nonce advances either way |
| `Ahead.LengthField` | ssclient/src/ahead.rs:48-49 | the length decoded from an authenticated length unit is below 2^16 |
| `Ahead.BufferSize` | ssclient/src/ahead.rs:8-11 | a chunk's wire size exceeds its payload by the 2-byte length field and two tags, whatever the payload; `EncodeChunkLayout` shows that this is the size of the encoded chunk |
| `Ahead.EncodeChunkLayout` | ssclient/src/ahead.rs:8-11 | an encoded chunk is exactly `buffer_size` = `2 + tag + len + tag` bytes; its first `2 + tag` bytes seal the big-endian length and the rest seals the payload under the next nonce |
| `Ahead.AheadEncryptedWrite` | ssclient/src/ahead.rs:13-36 | for a payload of at most 0x3FFF bytes it returns `Ok(buffer_size)` and never an error; `dst[..buffer_size]` is the encoded chunk, the rest of `dst` is unchanged, and the session used two nonces |
| `Ahead.AheadDecryptedRead` | ssclient/src/ahead.rs:38-57 | the result, the bytes consumed, the nonces used, `output` and `tmp_buf` are exactly those of `DecodeChunk`/`ScratchAfter`; on success `output[..len]` is the payload and the rest of `output` is unchanged; on error `output` is unchanged, because the decrypt is assumed to leave it so; `output` must hold `len` bytes only once the payload unit has been read |
| `Ahead.ChunkRoundTrip` | ssclient/src/ahead.rs:125-144 | with matching key and nonce, decoding an encoded chunk, whatever follows it, returns the payload, consumes exactly `buffer_size` bytes and uses two nonces |
| `Ahead.DecodedChunkIsEncoding` | ssclient/src/ahead.rs:46-56 | every chunk the decoder accepts has a payload of at most 0x3FFF bytes; it consumed `buffer_size` bytes, and those bytes are exactly the encoding of that payload |
| `Ahead.LengthAuthFailureStops` | ssclient/src/ahead.rs:48 | a length unit that fails to authenticate ends the decode with that error after `2 + tag` bytes and one nonce; no payload is read or opened |
| `Ahead.OversizedLengthRejected` | ssclient/src/ahead.rs:50-52 | decode returns `InvalidData` exactly when the authenticated length exceeds 0x3FFF; it then has read `2 + tag` bytes and used one nonce, and its outcome depends on the length unit alone |
| `Ahead.ForgedOversizedChunkRejected` | ssclient/src/ahead.rs:49-52 | a validly sealed length field that claims 0x4000 or more bytes is refused with `InvalidData`, whatever follows it |
| `Ahead.MaxBuffersFit` | ssclient/src/ahead.rs:54-55 | a scratch buffer of `0x3FFF + tag` bytes and an output buffer of 0x3FFF bytes fit every slice the decoder takes |
| `Ahead.EncryptPayloadAead` | ssclient/src/ahead.rs:60-79 | returns `Ok(salt + len + tag)`; the output starts with the salt followed by the payload sealed at nonce 0 of the salted session; bytes after that are unchanged |
| `Ahead.DecryptPayloadAead` | ssclient/src/ahead.rs:82-105 | the result and `output` are exactly those of `DecodeDatagram`: `output[..len]` holds the payload on success; on error `output` is unchanged, because the decrypt is assumed to leave it so |
| `Ahead.DatagramRoundTrip` | ssclient/src/ahead.rs:66-78 | a packet encoded with a salt of the cipher's salt size is `salt + len + tag` bytes long and decodes to its payload |
| `Ahead.DecodedDatagramIsEncoding` | ssclient/src/ahead.rs:96-104 | a packet that decodes is the encoding of its payload under its own salt, and the payload is `tag + salt` bytes shorter than the packet |
| `Ahead.ShortDatagramRejected` | ssclient/src/ahead.rs:91-94 | decode fails with `UnexpectedEof` exactly when the packet is shorter than `tag + salt` |
| `Ahead.PayloadRoundTrip` | ssclient/src/ahead.rs:112-122 | encrypting a payload and decrypting exactly the bytes written returns `Ok(len)` and the payload |
| `Ahead.StreamRoundTrip` | ssclient/src/ahead.rs:124-144 | an encryptor and a decryptor made from the same key and salt: reading the written chunk returns `Ok(len)`, and `output[..s]`, with `s` the returned length, is the payload |
| `Ahead.StreamTestAsWritten` | ssclient/src/ahead.rs:137-142 | the test as written decodes correctly, but the prefix it compares, `output[..size]`, is `buffer_size` bytes long, so it never equals the payload |

## Findings

| source | as written | input that shows it | evidently intended | confidence | as-written member | corrected member |
|---|---|---|---|---|---|---|
| ssclient/src/ahead.rs:142 | the stream test compares `&output[..size]` with the payload. `size` is the encoder's result, the wire length `2 + tag + len + tag` | payload `"hello"` with AES-256-GCM (tag 16): `size` is 39, and a 39-byte prefix cannot equal a 5-byte payload | compare `&output[..s]`, where `s` is the length the decoder returned | high; not executed | `Ahead.StreamTestAsWritten` | `Ahead.StreamRoundTrip` |

## Left out

- The cipher algorithms (`crypto::BoxAeadEncryptor`, `BoxAeadDecryptor`, `new_aead_encryptor`, `new_aead_decryptor`) come from a foreign crate. They are abstract functions constrained by `Sound`. Tamper sensitivity is a property of the cipher, so it is not stated.
- Decryptor.Decrypt assumes that a failed decrypt leaves its destination slice unchanged. Only this assumption gives "on error `output` is unchanged" in the contracts of `AheadDecryptedRead` and `DecryptPayloadAead`.
- `Decrypt` advances the nonce even when authentication fails. The foreign crate decides this, and the model assumes it. After a failure the session is unusable in either case.
- `CipherType::bytes_to_key` is not modelled; the key is an arbitrary byte sequence.
- `gen_salt` draws a random salt. Here the salt is a parameter of `EncryptPayloadAead`. The claim that two packets with fresh salts differ depends on randomness and is not stated.
- The async machinery (`AsyncRead`, `.await`, `task::block_on`) and cancellation are left out. The source is a byte sequence consumed from the front.
- End of stream at a chunk boundary is not told apart from truncation. The code reports `UnexpectedEof` in both cases, at lines 46 and 54.
- `MAX_PACKET_SIZE` is imported from the crate root, whose source is not part of this model. It is 0x3FFF, as the message of the assertion at line 23 says.
- The assertion `buf.len() <= MAX_PACKET_SIZE` at line 21 becomes a precondition of `AheadEncryptedWrite`, not an error result.
- The code does not check buffer sizes; a slice that is too short would panic. These sizes are preconditions instead, each required only when the code takes that slice:
  - `dst` must hold `buffer_size` bytes;
  - `tmp_buf` must hold `2 + tag` bytes, and `len + tag` once a length passes the range check;
  - `output` must hold `len` bytes once the whole payload unit has been read;
  - a datagram's `output` must hold `len - tag - salt` bytes when the packet is not too short.

  `MaxBuffersFit` shows that buffers of `0x3FFF + tag` and 0x3FFF bytes suffice.
- The `t: CipherType` argument of the two stream functions is taken to be the cipher type the session was made with (`cipher.suite`).
- `DecryptPayloadAead` refuses a short packet before any cipher exists. Its contract cannot observe that, but its body shows it.
- `usize` arithmetic is unbounded here. `buffer_size` and the datagram lengths cannot overflow for packet-sized inputs.
- The code decodes each chunk straight through, and the model follows it.
- A length whose top two bits are set is refused: `ReadU16AtMost3FFF` shows that the range check at line 50 is exactly that test.
