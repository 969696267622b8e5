/**
 * The field decryptor of the older item format: it walks a nested hash and
 * replaces the value of every listed key by its decrypted plain text,
 * unwrapping serialised structures.
 */
module Decryptors {
  import opened Results
  import opened Values
  import opened Crypto

  /** What one walk needs: primitives, cipher, secret, the Base64 IV (if any) and the listed keys. */
  datatype Context = Context(p: Primitives, cipher: string, secret: string, iv: Option<string>, fields: seq<string>)

  function ContextOf(p: Primitives, e: Encryption, secret: string): Context {
    Context(p, e.cipher, secret, e.iv, e.encodedFields)
  }

  /**
   * `FFI_Yajl::Parser.parse(value)["json_wrapper"]`: a parsed hash gives its
   * `json_wrapper` member (nil when absent); a parsed string answers `[]`
   * with the substring or nil; any other parsed value cannot be indexed by
   * a string.
   */
  function Unwrap(parsed: Option<Value>): (r: Result<Value>)
    ensures parsed.None? ==> r == Err(JsonParseError)
    ensures forall v :: parsed == Some(Wrapped(v)) ==> r == Ok(v)
  {
    match parsed
    case None => Err(JsonParseError)
    case Some(Hash(es)) => Ok(Lookup(es, WrapperKey))
    case Some(Str(s)) => Ok(if IsInfix(WrapperKey, s) then Str(WrapperKey) else Nil)
    case Some(_) => Err(NotIndexable)
  }

  /**
   * `decrypt_value`: only a non-empty string is decrypted. Its Base64 text
   * is decoded and deciphered under SHA-256 of the secret and the decoded
   * IV; plain text that mentions `json_wrapper` is parsed and unwrapped.
   */
  function DecryptedValue(c: Context, v: Value): (r: Result<Value>)
    ensures !v.Str? || v.s == "" ==> r == Ok(v)
    ensures v.Str? && v.s != "" && !c.p.supports(c.cipher) ==> r == Err(UnsupportedCipher(c.cipher))
    ensures v.Str? && v.s != "" && c.iv.None? ==> r.Err?
    ensures v.Str? && v.s != "" && c.p.supports(c.cipher) && !c.p.acceptsKey(c.cipher, c.p.sha256(c.secret)) ==>
      r == Err(KeyRejected(c.cipher))
    ensures v.Str? && v.s != "" && c.iv.Some? && !c.p.acceptsIv(c.cipher, c.p.base64Decode(c.iv.value)) ==> r.Err?
  {
    if !v.Str? || v.s == "" then Ok(v)
    else
      var data := c.p.base64Decode(v.s);
      if !c.p.supports(c.cipher) then Err(UnsupportedCipher(c.cipher))
      else if !c.p.acceptsKey(c.cipher, c.p.sha256(c.secret)) then Err(KeyRejected(c.cipher))
      else if c.iv.None? then Err(MissingIv)
      else if !c.p.acceptsIv(c.cipher, c.p.base64Decode(c.iv.value)) then Err(IvRejected(c.cipher))
      else
        match c.p.decrypt(c.cipher, c.p.sha256(c.secret), c.p.base64Decode(c.iv.value), data)
        case None => Err(CipherFailure)
        case Some(plain) =>
          if IsInfix(WrapperKey, plain) then Unwrap(c.p.parseJson(plain)) else Ok(Str(plain))
  }

  /** `decrypt_hash`: the entries in order; the first exception aborts the walk. */
  function DecryptWalk(c: Context, h: seq<Entry>): (r: Result<seq<Entry>>)
    decreases h
  {
    if h == [] then Ok([])
    else
      match DecryptWalk(c, h[..|h| - 1])
      case Err(x) => Err(x)
      case Ok(pre) =>
        match DecryptEntry(c, h[|h| - 1])
        case Err(x) => Err(x)
        case Ok(e) => Ok(pre + [e])
  }

  /**
   * The block of `decrypt_hash` for one entry: a listed key gets its value
   * decrypted, an unlisted key with a hash value is walked recursively,
   * anything else is kept.
   */
  function DecryptEntry(c: Context, e: Entry): (r: Result<Entry>)
    decreases e
  {
    if e.key in c.fields then
      match DecryptedValue(c, e.val)
      case Err(x) => Err(x)
      case Ok(v) => Ok(Entry(e.key, v))
    else if e.val.Hash? then
      match DecryptWalk(c, e.val.entries)
      case Err(x) => Err(x)
      case Ok(inner) => Ok(Entry(e.key, Hash(inner)))
    else Ok(e)
  }

  lemma DecryptWalkPrefix(c: Context, h: seq<Entry>, i: nat)
    requires i < |h|
    ensures DecryptWalk(c, h[..i + 1]) ==
      match DecryptWalk(c, h[..i])
      case Err(x) => Err(x)
      case Ok(pre) => (match DecryptEntry(c, h[i]) case Err(x) => Err(x) case Ok(e) => Ok(pre + [e]))
  {
    assert h[..i + 1][..i] == h[..i];
  }

  /** Once the walk has failed, later entries change nothing. */
  lemma {:induction false} DecryptFailureSticks(c: Context, h: seq<Entry>, j: nat)
    requires j <= |h| && DecryptWalk(c, h[..j]).Err?
    ensures DecryptWalk(c, h) == DecryptWalk(c, h[..j])
    decreases |h| - j
  {
    if j < |h| {
      DecryptWalkPrefix(c, h, j);
      DecryptFailureSticks(c, h, j + 1);
    } else {
      assert h[..j] == h;
    }
  }

  /** Writing the processed entry back in place: `hash[k] = v` at position `i`. */
  lemma WriteBack(done: seq<Entry>, h: seq<Entry>, i: nat, e: Entry)
    requires i < |h| && |done| == i
    ensures (done + h[i..])[i := e] == (done + [e]) + h[i + 1..]
  {
    assert h[i..] == [h[i]] + h[i + 1..];
  }

  /**
   * `assert_valid_cipher!` compares the requested cipher with the very
   * entry it was read from, so it never raises.
   */
  function AssertValidCipher(e: Encryption): (r: Result<()>)
    ensures r.Ok?
  {
    var requested := e.cipher;
    if requested == e.cipher then Ok(()) else Err(UnsupportedCipher(requested))
  }

  const ErrorPrefix: string := "Error decrypting data bag value"
  const ErrorSuffix: string := ". Most likely the provided key is incorrect"

  /**
   * `decryption_error`: the fixed prefix, then `: '<message>'` exactly when an
   * exception message is given, then the fixed suffix.
   */
  method DecryptionError(e: Option<string>) returns (msg: string)
    ensures |ErrorPrefix| + |ErrorSuffix| <= |msg|
    ensures msg[..|ErrorPrefix|] == ErrorPrefix
    ensures msg[|msg| - |ErrorSuffix|..] == ErrorSuffix
    ensures msg[|ErrorPrefix|..|msg| - |ErrorSuffix|] == if e.Some? then ": '" + e.value + "'" else ""
  {
    msg := ErrorPrefix;
    if e.Some? {
      msg := msg + ": '" + e.value + "'";
    }
    msg := msg + ErrorSuffix;
  }

  class Decryptor {
    const prim: Primitives
    const encryptedHash: seq<Entry>
    const encryption: Encryption
    const key: string
    var ivMemo: Option<string>
    var decryptedHashMemo: Option<seq<Entry>>

    /** The remembered values are the ones the definitions give. */
    ghost predicate Valid()
      reads this
    {
      && (ivMemo.Some? ==> encryption.iv.Some? && ivMemo.value == prim.base64Decode(encryption.iv.value))
      && (decryptedHashMemo.Some? ==> DecryptWalk(Ctx(), encryptedHash) == Ok(decryptedHashMemo.value))
    }

    function Ctx(): Context
      reads this
    {
      ContextOf(prim, encryption, key)
    }

    constructor (prim: Primitives, encryptedHash: seq<Entry>, encryption: Encryption, key: string)
      ensures Valid()
      ensures this.prim == prim && this.encryptedHash == encryptedHash
      ensures this.encryption == encryption && this.key == key
      ensures ivMemo == None && decryptedHashMemo == None
    {
      this.prim := prim;
      this.encryptedHash := encryptedHash;
      this.encryption := encryption;
      this.key := key;
      ivMemo := None;
      decryptedHashMemo := None;
      new;
      // The constructor's `assert_valid_cipher!` cannot fail.
      assert AssertValidCipher(encryption).Ok?;
    }

    /** `iv`: the Base64 decoding of `encryption[:iv]`, computed once. */
    method Iv() returns (r: Result<string>)
      requires Valid()
      modifies this`ivMemo
      ensures Valid() && decryptedHashMemo == old(decryptedHashMemo)
      ensures r == if encryption.iv.None? then Err(MissingIv) else Ok(prim.base64Decode(encryption.iv.value))
      ensures r.Ok? ==> ivMemo == Some(r.value)
      ensures r.Err? ==> ivMemo == old(ivMemo)
    {
      if ivMemo.Some? {
        return Ok(ivMemo.value);
      }
      if encryption.iv.None? {
        return Err(MissingIv);
      }
      ivMemo := Some(prim.base64Decode(encryption.iv.value));
      return Ok(ivMemo.value);
    }

    /**
     * `openssl_decryptor`: the cipher must exist; OpenSSL must accept the key,
     * SHA-256 of the secret, and then the IV, which is `iv`.
     */
    method OpensslDecryptor() returns (r: Result<CipherSetup>)
      requires Valid()
      modifies this`ivMemo
      ensures Valid() && decryptedHashMemo == old(decryptedHashMemo)
      ensures !prim.supports(encryption.cipher) ==> r == Err(UnsupportedCipher(encryption.cipher))
      ensures prim.supports(encryption.cipher) && !prim.acceptsKey(encryption.cipher, prim.sha256(key)) ==>
        r == Err(KeyRejected(encryption.cipher))
      ensures prim.supports(encryption.cipher) && prim.acceptsKey(encryption.cipher, prim.sha256(key)) ==>
        r == if encryption.iv.None? then Err(MissingIv)
          else if !prim.acceptsIv(encryption.cipher, prim.base64Decode(encryption.iv.value)) then Err(IvRejected(encryption.cipher))
          else Ok(CipherSetup(encryption.cipher, prim.sha256(key), prim.base64Decode(encryption.iv.value)))
    {
      if !prim.supports(encryption.cipher) {
        return Err(UnsupportedCipher(encryption.cipher));
      }
      var digest := prim.sha256(key);
      if !prim.acceptsKey(encryption.cipher, digest) {
        return Err(KeyRejected(encryption.cipher));
      }
      var iv :- Iv();
      if !prim.acceptsIv(encryption.cipher, iv) {
        return Err(IvRejected(encryption.cipher));
      }
      return Ok(CipherSetup(encryption.cipher, digest, iv));
    }

    /** `decrypt_value`. */
    method DecryptValue(v: Value) returns (r: Result<Value>)
      requires Valid()
      modifies this`ivMemo
      ensures Valid() && decryptedHashMemo == old(decryptedHashMemo)
      ensures r == DecryptedValue(Ctx(), v)
    {
      if !v.Str? || v.s == "" {
        return Ok(v);
      }
      var data := prim.base64Decode(v.s);
      var setup :- OpensslDecryptor();
      var decrypted := prim.decrypt(setup.cipher, setup.key, setup.iv, data);
      if decrypted.None? {
        return Err(CipherFailure);
      }
      var plain := decrypted.value;
      if IsInfix(WrapperKey, plain) {
        r := Unwrap(prim.parseJson(plain));
      } else {
        r := Ok(Str(plain));
      }
    }

    /** `decrypt_hash`: the hash is rewritten entry by entry, keys and their order kept. */
    method DecryptHash(h: seq<Entry>) returns (r: Result<seq<Entry>>)
      requires Valid()
      modifies this`ivMemo
      decreases h, 1
      ensures Valid() && decryptedHashMemo == old(decryptedHashMemo)
      ensures r == DecryptWalk(Ctx(), h)
    {
      var hash := h;
      var i := 0;
      ghost var done: seq<Entry> := [];
      while i < |h|
        invariant 0 <= i <= |h| && |hash| == |h|
        invariant Valid() && decryptedHashMemo == old(decryptedHashMemo)
        invariant DecryptWalk(Ctx(), h[..i]) == Ok(done) && |done| == i
        invariant hash == done + h[i..]
      {
        DecryptWalkPrefix(Ctx(), h, i);
        var e := DecryptEntryIn(h[i]);
        if e.Err? {
          DecryptFailureSticks(Ctx(), h, i + 1);
          return Err(e.error);
        }
        WriteBack(done, h, i, e.value);
        hash := hash[i := e.value];
        done := done + [e.value];
        i := i + 1;
      }
      assert h[..i] == h && h[i..] == [];
      assert hash == done;
      return Ok(hash);
    }

    /** The block `decrypt_hash` runs for one entry `k, v`; the entry it writes back. */
    method DecryptEntryIn(entry: Entry) returns (r: Result<Entry>)
      requires Valid()
      modifies this`ivMemo
      decreases entry, 0
      ensures Valid() && decryptedHashMemo == old(decryptedHashMemo)
      ensures r == DecryptEntry(Ctx(), entry)
    {
      var k, v := entry.key, entry.val;
      if k in encryption.encodedFields {
        v :- DecryptValue(v);
      } else if v.Hash? {
        var inner :- DecryptHash(v.entries);
        v := Hash(inner);
      }
      return Ok(Entry(k, v));
    }

    /** `decrypted_hash`: computed once, on a copy of the input, then remembered. */
    method DecryptedHash() returns (r: Result<seq<Entry>>)
      requires Valid()
      modifies this`ivMemo, this`decryptedHashMemo
      ensures Valid()
      ensures r == DecryptWalk(Ctx(), encryptedHash)
      ensures decryptedHashMemo == if r.Ok? then Some(r.value) else old(decryptedHashMemo)
    {
      if decryptedHashMemo.Some? {
        return Ok(decryptedHashMemo.value);
      }
      r := DecryptHash(encryptedHash);
      if r.Ok? {
        decryptedHashMemo := Some(r.value);
      }
    }

    /** `for_decrypted_item`. */
    method ForDecryptedItem() returns (r: Result<seq<Entry>>)
      requires Valid()
      modifies this`ivMemo, this`decryptedHashMemo
      ensures Valid()
      ensures r == DecryptWalk(Ctx(), encryptedHash)
    {
      r := DecryptedHash();
    }
  }
}
