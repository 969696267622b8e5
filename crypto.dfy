/**
 * The foreign primitives the library calls: OpenSSL's block cipher,
 * SHA-256, Base64 and the FFI_Yajl JSON encoder and parser. They are not
 * modelled; a `Primitives` value stands for any implementation of them and
 * `Lawful` collects the only facts the library relies on.
 */
module Crypto {
  import opened Results
  import opened Values

  datatype Primitives = Primitives(
    /** `OpenSSL::Cipher::Cipher.new(name)` succeeds. */
    supports: string -> bool,
    /** `cipher.iv = iv` succeeds: OpenSSL accepts an IV of the cipher's IV length. */
    acceptsIv: (string, string) -> bool,
    /** `cipher.key = key` succeeds: OpenSSL accepts a key of the cipher's key length. */
    acceptsKey: (string, string) -> bool,
    /** `update(plain) << final` of an encryptor set up with (cipher, key, iv). */
    encrypt: (string, string, string, string) -> string,
    /** `update(data) << final` of a decryptor; `None` when `final` raises. */
    decrypt: (string, string, string, string) -> Option<string>,
    /** `Digest::SHA256.digest`. */
    sha256: string -> string,
    /** `Base64.encode64`. */
    base64Encode: string -> string,
    /** `Base64.decode64`. */
    base64Decode: string -> string,
    /** `FFI_Yajl::Encoder.encode`. */
    toJson: Value -> string,
    /** `FFI_Yajl::Parser.parse`; `None` when it raises. */
    parseJson: string -> Option<Value>)

  /** The key under which serialised structures are wrapped. */
  const WrapperKey: string := "json_wrapper"

  /** The cipher used when an item names none. */
  const DefaultCipher: string := "aes-256-cbc"

  /** `{json_wrapper: value}`. */
  function Wrapped(v: Value): Value {
    Hash([Entry(WrapperKey, v)])
  }

  /**
   * The round-trip laws: decryption undoes encryption under the same cipher,
   * key and IV; Base64 decoding undoes encoding; parsing undoes JSON
   * encoding; and the JSON text of `{json_wrapper: v}` contains its key.
   * Besides, neither the cipher nor Base64 turns non-empty text into "".
   */
  ghost predicate Lawful(p: Primitives) {
    && (forall c, k, iv, x :: p.supports(c) ==> p.decrypt(c, k, iv, p.encrypt(c, k, iv, x)) == Some(x))
    && (forall c, k, iv, x :: x != "" ==> p.encrypt(c, k, iv, x) != "")
    && (forall s :: p.base64Decode(p.base64Encode(s)) == s)
    && (forall s :: s != "" ==> p.base64Encode(s) != "")
    && (forall v :: p.parseJson(p.toJson(v)) == Some(v))
    && (forall v :: IsInfix(WrapperKey, p.toJson(Wrapped(v))))
  }

  /** One OpenSSL cipher object once it is set up: its algorithm, key and IV. */
  datatype CipherSetup = CipherSetup(cipher: string, key: string, iv: string)

  /** The `encryption` hash an item hands to its encryptor and decryptor. */
  datatype Encryption = Encryption(iv: Option<string>, cipher: string, encodedFields: seq<string>)
}
