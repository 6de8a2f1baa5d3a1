/** The AEAD cipher the codec borrows. Its internals belong to a foreign
    crate; the model keeps only what the codec relies on: the tag and salt
    sizes of a cipher type, a ciphertext that is the plaintext's length plus
    one tag, decryption that undoes encryption under the same key and nonce,
    and a nonce counter that every call advances. */
module Aead {
  import opened Bytes
  import opened Io

  /** A cipher type with its algorithms. `subkey` derives the session key from
      a master key and a salt, `seal` encrypts under a key and a nonce and
      appends the tag, `open` authenticates and decrypts, or fails. */
  datatype CipherType = CipherType(
    tagSize: nat,
    saltSize: nat,
    subkey: (Bytes, Bytes) -> Bytes,
    seal: (Bytes, nat, Bytes) -> Bytes,
    open: (Bytes, nat, Bytes) -> Option<Bytes>)

  /** What the codec assumes of every cipher type: a ciphertext is one tag
      longer than its plaintext; opening a sealed plaintext under the same key
      and nonce gives it back; and a ciphertext that opens is the sealing of
      what it opens to (the cipher is "tidy"), so in particular one of the
      wrong length never opens. */
  ghost predicate Sound(t: CipherType) {
    (forall k, n, p :: |t.seal(k, n, p)| == |p| + t.tagSize) &&
    (forall k, n, p :: t.open(k, n, t.seal(k, n, p)) == Some(p)) &&
    (forall k, n, c :: t.open(k, n, c).Some? ==> t.seal(k, n, t.open(k, n, c).value) == c)
  }

  function Zeros(n: nat): (z: Bytes)
    ensures |z| == n && forall i :: 0 <= i < n ==> z[i] == 0
  {
    seq(n, _ => 0)
  }

  /** A cipher type with an all-zero tag: no security, but it meets every
      assumption, so Sound is not vacuous. */
  function NullCipher(tagSize: nat, saltSize: nat): (t: CipherType) {
    CipherType(
      tagSize,
      saltSize,
      (k: Bytes, s: Bytes) => k + s,
      (k: Bytes, n: nat, p: Bytes) => p + Zeros(tagSize),
      (k: Bytes, n: nat, c: Bytes) =>
        if |c| >= tagSize && c[|c| - tagSize..] == Zeros(tagSize)
        then Some(c[..|c| - tagSize]) else None)
  }

  lemma NullCipherSound(tagSize: nat, saltSize: nat)
    ensures Sound(NullCipher(tagSize, saltSize))
  {
  }

  /** `BoxAeadEncryptor`: a session key and the nonce of the next call. */
  class Encryptor {
    const suite: CipherType
    const key: Bytes
    var nonce: nat

    /** `new_aead_encryptor(t, key, salt)`: a fresh session starts at nonce 0. */
    constructor (t: CipherType, masterKey: Bytes, salt: Bytes)
      ensures suite == t && key == t.subkey(masterKey, salt) && nonce == 0
    {
      suite := t;
      key := t.subkey(masterKey, salt);
      nonce := 0;
    }

    /** `encrypt(plain, &mut dst[lo..hi])`: the slice receives the ciphertext
        and its tag, nothing else in `dst` changes, the nonce moves on. */
    method Encrypt(plain: Bytes, dst: array<byte>, lo: nat, hi: nat)
      requires Sound(suite)
      requires lo <= hi <= dst.Length && hi - lo == |plain| + suite.tagSize
      modifies this, dst
      ensures nonce == old(nonce) + 1
      ensures dst[..] == old(dst[..lo]) + suite.seal(key, old(nonce), plain) + old(dst[hi..])
    {
      var c := suite.seal(key, nonce, plain);
      forall i | lo <= i < hi {
        dst[i] := c[i - lo];
      }
      nonce := nonce + 1;
      assert dst[..] == old(dst[..lo]) + c + old(dst[hi..]);
    }
  }

  /** `BoxAeadDecryptor`: a session key and the nonce of the next call. */
  class Decryptor {
    const suite: CipherType
    const key: Bytes
    var nonce: nat

    /** `new_aead_decryptor(t, key, salt)`: a fresh session starts at nonce 0. */
    constructor (t: CipherType, masterKey: Bytes, salt: Bytes)
      ensures suite == t && key == t.subkey(masterKey, salt) && nonce == 0
    {
      suite := t;
      key := t.subkey(masterKey, salt);
      nonce := 0;
    }

    /** `decrypt(cipher, &mut dst[..len])`: on success the plaintext fills
        `dst[..len]`; on a failed authentication `dst` is left alone. Either
        way the nonce moves on. */
    method Decrypt(cipher: Bytes, dst: array<byte>, len: nat) returns (r: Result<()>)
      requires Sound(suite)
      requires len <= dst.Length && |cipher| == len + suite.tagSize
      modifies this, dst
      ensures nonce == old(nonce) + 1
      ensures match suite.open(key, old(nonce), cipher)
        case Some(p) => r == Ok(()) && dst[..] == p + old(dst[len..])
        case None => r == Err(AeadDecryptFailed) && dst[..] == old(dst[..])
    {
      var plain := suite.open(key, nonce, cipher);
      nonce := nonce + 1;
      match plain
      case None =>
        r := Err(AeadDecryptFailed);
      case Some(p) =>
        forall i | 0 <= i < len {
          dst[i] := p[i];
        }
        r := Ok(());
        assert dst[..] == p + old(dst[len..]);
    }
  }
}
