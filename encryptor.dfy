/**
 * The field encryptor of the older item format: it walks a nested hash and
 * replaces the value of every listed key by the Base64 text of its
 * ciphertext, recording which keys it encrypted.
 */
module Encryptors {
  import opened Results
  import opened Values
  import opened Crypto

  /** What one walk needs to know: primitives, cipher, secret, the IV in use and the listed keys. */
  datatype Context = Context(p: Primitives, cipher: string, secret: string, iv: string, fields: seq<string>)

  /** The state after walking part of a hash. */
  datatype Walk = Walk(
    hash: seq<Entry>,        // the processed entries, in order
    touched: seq<string>,    // keys appended to `encoded_fields`, in visiting order
    used: bool,              // a cipher was created, so `encryption[:iv] ||=` has run
    failure: Option<Error>)  // the exception that stopped the walk

  function WalkResult(w: Walk): Result<seq<Entry>> {
    if w.failure.Some? then Err(w.failure.value) else Ok(w.hash)
  }

  /** `serialize_value`: the JSON text of `{json_wrapper: value}`. */
  function Serialize(p: Primitives, v: Value): (s: string)
    ensures Lawful(p) ==> IsInfix(WrapperKey, s) && |s| > 0
    ensures Lawful(p) ==> p.parseJson(s) == Some(Wrapped(v))
  {
    var s := p.toJson(Wrapped(v));
    assert Lawful(p) ==> IsInfix(WrapperKey, s) ==> |s| > 0 by {
      if Lawful(p) && IsInfix(WrapperKey, s) {
        var i: nat :| i <= |s| && OccursAt(WrapperKey, s, i);
      }
    }
    s
  }

  /** `normalize_value`: structures are serialised, anything else goes through `to_s`. */
  function Normalize(p: Primitives, v: Value): (s: string)
    ensures Lawful(p) ==> (s == "" <==> v == Nil || v == Str(""))
    ensures Lawful(p) && (v.Hash? || v.Arr?) ==> p.parseJson(s) == Some(Wrapped(v))
    ensures !(v.Hash? || v.Arr?) ==> s == ScalarToS(v)
  {
    if v.Hash? || v.Arr? then Serialize(p, v) else ScalarToS(v)
  }

  /** The IV an OpenSSL encryptor ends up with: the configured one, else the random one. */
  function ChosenIv(iv: Option<string>, random: string): string {
    if iv.Some? then iv.value else random
  }

  /** `encryption[:iv] ||= random_iv`. */
  function AfterSetup(e: Encryption, random: string): (e': Encryption)
    ensures e'.iv.Some? && e'.cipher == e.cipher && e'.encodedFields == e.encodedFields
    ensures ChosenIv(e'.iv, random) == ChosenIv(e.iv, random)
    ensures e.iv.Some? ==> e' == e
  {
    e.(iv := Some(ChosenIv(e.iv, random)))
  }

  function ContextOf(p: Primitives, e: Encryption, secret: string, random: string): Context {
    Context(p, e.cipher, secret, ChosenIv(e.iv, random), e.encodedFields)
  }

  /** OpenSSL sets up the cipher of `c`: it exists and takes the IV in use and SHA-256 of the secret. */
  predicate Ready(c: Context) {
    && c.p.supports(c.cipher)
    && c.p.acceptsIv(c.cipher, c.iv)
    && c.p.acceptsKey(c.cipher, c.p.sha256(c.secret))
  }

  /**
   * `encrypt_value`: an empty normalised value is returned as it is; any
   * other is encrypted under SHA-256 of the secret and Base64 encoded, once
   * OpenSSL has accepted the cipher, then the IV, then the key.
   */
  function EncryptedValue(c: Context, v: Value): (r: Result<Value>)
    ensures Normalize(c.p, v) == "" ==> r == Ok(Str(""))
    ensures Normalize(c.p, v) != "" && !c.p.supports(c.cipher) ==> r == Err(UnsupportedCipher(c.cipher))
    ensures Normalize(c.p, v) != "" && c.p.supports(c.cipher) && !c.p.acceptsIv(c.cipher, c.iv) ==>
      r == Err(IvRejected(c.cipher))
    ensures Normalize(c.p, v) != "" && c.p.supports(c.cipher) && c.p.acceptsIv(c.cipher, c.iv) ==>
      (r == Err(KeyRejected(c.cipher)) <==> !c.p.acceptsKey(c.cipher, c.p.sha256(c.secret)))
    ensures Normalize(c.p, v) != "" && Ready(c) ==>
      r == Ok(Str(c.p.base64Encode(c.p.encrypt(c.cipher, c.p.sha256(c.secret), c.iv, Normalize(c.p, v)))))
  {
    var n := Normalize(c.p, v);
    if n == "" then Ok(Str(n))
    else if !c.p.supports(c.cipher) then Err(UnsupportedCipher(c.cipher))
    else if !c.p.acceptsIv(c.cipher, c.iv) then Err(IvRejected(c.cipher))
    else if !c.p.acceptsKey(c.cipher, c.p.sha256(c.secret)) then Err(KeyRejected(c.cipher))
    else Ok(Str(c.p.base64Encode(c.p.encrypt(c.cipher, c.p.sha256(c.secret), c.iv, n))))
  }

  /** Whether encrypting `v` sets up a cipher. */
  predicate SetsUpCipher(c: Context, v: Value) {
    Normalize(c.p, v) != ""
  }

  /**
   * `encrypt_hash`: the entries are processed in order and the walk stops
   * at the first exception.
   */
  function EncryptWalk(c: Context, h: seq<Entry>): (w: Walk)
    decreases h
  {
    if h == [] then Walk([], [], false, None)
    else Then(EncryptWalk(c, h[..|h| - 1]), EncryptEntry(c, h[|h| - 1]))
  }

  /**
   * The block of `encrypt_hash` for one entry: a listed key gets its value
   * encrypted and is recorded, an unlisted key with a hash value is walked
   * recursively, anything else is kept.
   */
  function EncryptEntry(c: Context, e: Entry): (w: Walk)
    decreases e
  {
    if e.key in c.fields then
      match EncryptedValue(c, e.val)
      case Err(x) => Walk([], [], c.p.supports(c.cipher), Some(x))
      case Ok(v) => Walk([Entry(e.key, v)], [e.key], SetsUpCipher(c, e.val), None)
    else if e.val.Hash? then
      var inner := EncryptWalk(c, e.val.entries);
      Walk([Entry(e.key, Hash(inner.hash))], inner.touched, inner.used, inner.failure)
    else
      Walk([e], [], false, None)
  }

  /** The walk `pre` followed by the walk `next`, unless `pre` already failed. */
  function Then(pre: Walk, next: Walk): Walk {
    if pre.failure.Some? then pre
    else Walk(pre.hash + next.hash, pre.touched + next.touched, pre.used || next.used, next.failure)
  }

  lemma EncryptWalkPrefix(c: Context, h: seq<Entry>, i: nat)
    requires i < |h|
    ensures EncryptWalk(c, h[..i + 1]) == Then(EncryptWalk(c, h[..i]), EncryptEntry(c, h[i]))
  {
    assert h[..i + 1][..i] == h[..i];
  }

  /** Writing the processed entry back in place: `hash[k] = v` at position `i`. */
  lemma WriteBack(done: seq<Entry>, h: seq<Entry>, i: nat, e: Entry)
    requires i < |h| && |done| == i
    ensures (done + h[i..])[i := e] == (done + [e]) + h[i + 1..]
  {
    assert h[i..] == [h[i]] + h[i + 1..];
  }

  /** Once the walk has failed, later entries change nothing. */
  lemma {:induction false} EncryptFailureSticks(c: Context, h: seq<Entry>, j: nat)
    requires j <= |h| && EncryptWalk(c, h[..j]).failure.Some?
    ensures EncryptWalk(c, h) == EncryptWalk(c, h[..j])
    decreases |h| - j
  {
    if j < |h| {
      EncryptWalkPrefix(c, h, j);
      EncryptFailureSticks(c, h, j + 1);
    } else {
      assert h[..j] == h;
    }
  }

  /** The `encryption` entry `for_encrypted_item` adds. */
  function EncryptionEntry(e: Encryption, encoded: seq<string>, p: Primitives): (v: Value)
    ensures v.Hash? && Keys(v.entries) == ["iv", "cipher", "encoded_fields"]
  {
    Hash([
      Entry("iv", Str(p.base64Encode(if e.iv.Some? then e.iv.value else ""))),
      Entry("cipher", Str(e.cipher)),
      Entry("encoded_fields", Arr(StrList(Dedup(encoded))))])
  }

  function StrList(ks: seq<string>): (vs: seq<Value>)
    ensures |vs| == |ks| && forall i :: 0 <= i < |ks| ==> vs[i] == Str(ks[i])
  {
    if ks == [] then [] else StrList(ks[..|ks| - 1]) + [Str(ks[|ks| - 1])]
  }

  /** What `for_encrypted_item` returns for a fresh encryptor with the given inputs. */
  function EncryptedItem(p: Primitives, data: seq<Entry>, e: Encryption, secret: string, random: string): Result<seq<Entry>> {
    var w := EncryptWalk(ContextOf(p, e, secret, random), data);
    if w.failure.Some? then Err(w.failure.value)
    else
      var e' := if w.used then AfterSetup(e, random) else e;
      Ok(Put(w.hash, "encryption", EncryptionEntry(e', w.touched, p)))
  }

  class Encryptor {
    const prim: Primitives
    const unencryptedHash: seq<Entry>
    const key: string
    /** What `random_iv` returns for this encryptor (randomness is an input). */
    const randomIv: string
    var encryption: Encryption
    var encodedFields: seq<string>
    var encryptedData: Option<seq<Entry>>

    constructor (prim: Primitives, unencryptedHash: seq<Entry>, encryption: Encryption, key: string, randomIv: string)
      ensures this.prim == prim && this.unencryptedHash == unencryptedHash && this.key == key
      ensures this.randomIv == randomIv && this.encryption == encryption
      ensures encodedFields == [] && encryptedData == None
    {
      this.prim := prim;
      this.unencryptedHash := unencryptedHash;
      this.encryption := encryption;
      this.key := key;
      this.randomIv := randomIv;
      encodedFields := [];
      encryptedData := None;
    }

    function Ctx(): Context
      reads this
    {
      ContextOf(prim, encryption, key, randomIv)
    }

    /**
     * `openssl_encryptor`: the cipher must exist; the IV is the configured
     * one or, the first time, the random one, which is recorded before
     * OpenSSL checks it; the key is SHA-256 of the secret and is checked last.
     */
    method OpensslEncryptor() returns (r: Result<CipherSetup>)
      modifies this`encryption
      ensures !prim.supports(old(encryption).cipher) ==>
        r == Err(UnsupportedCipher(old(encryption).cipher)) && encryption == old(encryption)
      ensures prim.supports(old(encryption).cipher) ==> encryption == AfterSetup(old(encryption), randomIv)
      ensures prim.supports(old(encryption).cipher) ==>
        var iv, k := ChosenIv(old(encryption).iv, randomIv), prim.sha256(key);
        r == if !prim.acceptsIv(encryption.cipher, iv) then Err(IvRejected(encryption.cipher))
          else if !prim.acceptsKey(encryption.cipher, k) then Err(KeyRejected(encryption.cipher))
          else Ok(CipherSetup(encryption.cipher, k, iv))
    {
      if !prim.supports(encryption.cipher) {
        return Err(UnsupportedCipher(encryption.cipher));
      }
      if encryption.iv.None? {
        encryption := encryption.(iv := Some(randomIv));
      }
      if !prim.acceptsIv(encryption.cipher, encryption.iv.value) {
        return Err(IvRejected(encryption.cipher));
      }
      var k := prim.sha256(key);
      if !prim.acceptsKey(encryption.cipher, k) {
        return Err(KeyRejected(encryption.cipher));
      }
      r := Ok(CipherSetup(encryption.cipher, k, encryption.iv.value));
    }

    /** `encrypt_value`. */
    method EncryptValue(v: Value) returns (r: Result<Value>)
      modifies this`encryption
      ensures r == EncryptedValue(old(Ctx()), v)
      ensures encryption == if SetsUpCipher(old(Ctx()), v) && prim.supports(old(encryption).cipher) then AfterSetup(old(encryption), randomIv) else old(encryption)
    {
      var value := Normalize(prim, v);
      if value != "" {
        var setup :- OpensslEncryptor();
        var cipherText := prim.encrypt(setup.cipher, setup.key, setup.iv, value);
        return Ok(Str(prim.base64Encode(cipherText)));
      }
      return Ok(Str(value));
    }

    /** `encrypt_hash`: the hash is rewritten entry by entry, keys and their order kept. */
    method EncryptHash(h: seq<Entry>) returns (r: Result<seq<Entry>>)
      modifies this`encryption, this`encodedFields
      decreases h, 1
      ensures var w := EncryptWalk(old(Ctx()), h);
        && r == WalkResult(w)
        && encodedFields == old(encodedFields) + w.touched
        && encryption == if w.used then AfterSetup(old(encryption), randomIv) else old(encryption)
    {
      ghost var c, e0, f0 := Ctx(), encryption, encodedFields;
      var hash := h;
      var i := 0;
      ghost var w := EncryptWalk(c, h[..0]);
      while i < |h|
        invariant 0 <= i <= |h| && |hash| == |h|
        invariant w == EncryptWalk(c, h[..i]) && w.failure.None?
        invariant hash == w.hash + h[i..]
        invariant encodedFields == f0 + w.touched
        invariant encryption == if w.used then AfterSetup(e0, randomIv) else e0
        invariant Ctx() == c
      {
        EncryptWalkPrefix(c, h, i);
        ghost var x := EncryptEntry(c, h[i]);
        assert (f0 + w.touched) + x.touched == f0 + (w.touched + x.touched);
        var e := EncryptEntryIn(h[i]);
        if e.Err? {
          EncryptFailureSticks(c, h, i + 1);
          return Err(e.error);
        }
        WriteBack(w.hash, h, i, e.value);
        hash := hash[i := e.value];
        w := Then(w, x);
        i := i + 1;
      }
      assert h[..i] == h && h[i..] == [];
      assert hash == w.hash;
      return Ok(hash);
    }

    /** The block `encrypt_hash` runs for one entry `k, v`; the entry it writes back. */
    method EncryptEntryIn(entry: Entry) returns (r: Result<Entry>)
      modifies this`encryption, this`encodedFields
      decreases entry, 0
      ensures var x := EncryptEntry(old(Ctx()), entry);
        && (if x.failure.Some? then r == Err(x.failure.value) else r.Ok? && x.hash == [r.value])
        && encodedFields == old(encodedFields) + x.touched
        && encryption == if x.used then AfterSetup(old(encryption), randomIv) else old(encryption)
      ensures Ctx() == old(Ctx())
    {
      var k, v := entry.key, entry.val;
      if k in encryption.encodedFields {
        v :- EncryptValue(v);
        encodedFields := encodedFields + [k];
      } else if v.Hash? {
        var inner :- EncryptHash(v.entries);
        v := Hash(inner);
      }
      return Ok(Entry(k, v));
    }

    /** `encrypted_hash`: computed once, on a copy of the input, then remembered. */
    method EncryptedHash() returns (r: Result<seq<Entry>>)
      modifies this`encryption, this`encodedFields, this`encryptedData
      ensures old(encryptedData).Some? ==>
        r == Ok(old(encryptedData).value) && encryption == old(encryption) &&
        encodedFields == old(encodedFields) && encryptedData == old(encryptedData)
      ensures old(encryptedData).None? ==> var w := EncryptWalk(old(Ctx()), unencryptedHash);
        && r == WalkResult(w)
        && encodedFields == old(encodedFields) + w.touched
        && encryption == (if w.used then AfterSetup(old(encryption), randomIv) else old(encryption))
        && encryptedData == (if r.Ok? then Some(r.value) else None)
    {
      if encryptedData.Some? {
        return Ok(encryptedData.value);
      }
      r := EncryptHash(unencryptedHash);
      if r.Ok? {
        encryptedData := Some(r.value);
      }
    }

    /**
     * `for_encrypted_item`: the encrypted hash plus an `encryption` entry
     * holding the Base64 IV (of "" when none was ever set), the cipher and the
     * de-duplicated list of keys actually encrypted.
     */
    method ForEncryptedItem() returns (r: Result<seq<Entry>>)
      requires encodedFields == [] && encryptedData == None
      modifies this`encryption, this`encodedFields, this`encryptedData
      ensures r == EncryptedItem(prim, unencryptedHash, old(encryption), key, randomIv)
    {
      ghost var w := EncryptWalk(Ctx(), unencryptedHash);
      var data :- EncryptedHash();
      assert [] + w.touched == w.touched;
      assert data == w.hash && encodedFields == w.touched;
      var entry := EncryptionEntry(encryption, encodedFields, prim);
      return Ok(Put(data, "encryption", entry));
    }
  }
}
