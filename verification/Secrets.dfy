/**
 * Credentials at rest (portal/internal/secret/secret.go) over an abstract authenticated cipher:
 * all that is asked of it is that opening undoes sealing under the same key.
 */
module Secrets {
  import opened Common

  /** seal(key, nonce, plaintext) and open(key, blob); the base64 envelope is part of both. */
  datatype Aead = Aead(seal: (string, string, string) -> string, open: (string, string) -> Option<string>)

  ghost predicate Lawful(a: Aead) {
    forall k, n, p :: a.open(k, a.seal(k, n, p)) == Some(p)
  }

  /** A keyring without a key stores plaintext. */
  datatype Keyring = Keyring(aead: Aead, key: Option<string>)

  datatype Result<+T> = Ok(value: T) | ErrNoKey | ErrCorrupt

  const PREFIX: string := "enc:v1:"

  function Encrypt(ring: Keyring, nonce: string, plain: string): string {
    if plain == "" || HasPrefix(plain, PREFIX) then plain
    else if ring.key.None? then plain
    else PREFIX + ring.aead.seal(ring.key.value, nonce, plain)
  }

  function Decrypt(ring: Keyring, stored: string): Result<string> {
    if stored == "" || !HasPrefix(stored, PREFIX) then Ok(stored)
    else if ring.key.None? then ErrNoKey
    else
      match ring.aead.open(ring.key.value, stored[|PREFIX|..])
      case Some(plain) => Ok(plain)
      case None => ErrCorrupt
  }

  /** Decrypt undoes Encrypt on every plaintext that does not itself carry the prefix. */
  lemma DecryptUndoesEncrypt(ring: Keyring, nonce: string, plain: string)
    requires Lawful(ring.aead) && !HasPrefix(plain, PREFIX)
    ensures Decrypt(ring, Encrypt(ring, nonce, plain)) == Ok(plain)
  {
    if plain != "" && ring.key.Some? {
      var blob := ring.aead.seal(ring.key.value, nonce, plain);
      assert (PREFIX + blob)[|PREFIX|..] == blob;
    }
  }

  /** The rest of `plain` after the prefix happens to be a ciphertext of `plain` itself under this key. */
  predicate OpensToItself(ring: Keyring, plain: string) {
    && HasPrefix(plain, PREFIX) && ring.key.Some?
    && ring.aead.open(ring.key.value, plain[|PREFIX|..]) == Some(plain)
  }

  /**
   * The restriction is exact: a prefixed plaintext is stored as it is, so it is refused without a key
   * and read as somebody's ciphertext with one.
   */
  lemma RoundTripExactlyWhen(ring: Keyring, nonce: string, plain: string)
    requires Lawful(ring.aead)
    ensures Decrypt(ring, Encrypt(ring, nonce, plain)) == Ok(plain) <==>
            !HasPrefix(plain, PREFIX) || OpensToItself(ring, plain)
  {
    if !HasPrefix(plain, PREFIX) {
      DecryptUndoesEncrypt(ring, nonce, plain);
    }
  }

  /** Saving an already encrypted value again does not nest. */
  lemma EncryptIsIdempotent(ring: Keyring, nonce: string, nonce': string, plain: string)
    ensures Encrypt(ring, nonce', Encrypt(ring, nonce, plain)) == Encrypt(ring, nonce, plain)
  {
  }

  /** A credential at rest cannot be read without the key. */
  lemma StoredSecretNeedsTheKey(ring: Keyring, nonce: string, plain: string)
    requires ring.key.Some? && plain != ""
    ensures HasPrefix(Encrypt(ring, nonce, plain), PREFIX)
    ensures Decrypt(Keyring(ring.aead, None), Encrypt(ring, nonce, plain)) == ErrNoKey
  {
  }

}
