/** The crypto-js primitives the screens call, left uninterpreted: each is a field of
    `Primitives`, so every property proved below holds for every choice of them that
    meets the stated laws. */
module Crypto {
  import opened JsValues

  /** The random salt `AES.encrypt` draws for each ciphertext, made an explicit argument. */
  type Salt = nat

  datatype Primitives = Primitives(
    /** `sha256(x).toString()` */
    sha256: string -> string,
    /** `AES.encrypt(message, passphrase).toString()` with the salt it draws */
    encrypt: (string, string, Salt) -> string,
    /** `AES.decrypt(ciphertext, passphrase).toString(enc.Utf8)`; `None` when that conversion throws */
    decrypt: (string, string) -> Option<string>)
  {
    function Sha256(x: string): string {
      sha256(x)
    }

    function Encrypt(message: string, passphrase: string, salt: Salt): string {
      encrypt(message, passphrase, salt)
    }

    function Decrypt(ciphertext: string, passphrase: string): Option<string> {
      decrypt(ciphertext, passphrase)
    }
  }

  /** The one cryptographic law relied on: decryption with the passphrase used for encryption
      gives the message back. Nothing is assumed about decryption with another passphrase. */
  ghost predicate RoundTrips(c: Primitives) {
    forall m, k, salt :: c.Decrypt(c.Encrypt(m, k, salt), k) == Some(m)
  }

  /** A lower-case hexadecimal SHA-256 digest. */
  predicate IsHexDigest(h: string) {
    |h| == 64 && forall i :: 0 <= i < |h| ==> h[i] in "0123456789abcdef"
  }

  /** The format law of `WordArray.toString()`: every digest is 64 hex characters. */
  ghost predicate HexDigests(c: Primitives) {
    forall x :: IsHexDigest(c.Sha256(x))
  }
}
