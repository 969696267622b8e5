/**
 * `Chef::SecureDataBagItem`, the older item: it keeps its document in
 * `raw_data`, takes the `encryption` section out of a document on
 * assignment, decrypts on reading and encrypts when exported.
 */
module SecureDataBagItems {
  import opened Results
  import opened Values
  import opened Crypto
  import opened Secrets
  import E = Encryptors
  import D = Decryptors

  /** The string elements of an `encoded_fields` array: the keys `include?` can match. */
  function FieldNames(vs: seq<Value>): (ks: seq<string>)
    ensures forall k :: k in ks <==> Str(k) in vs
  {
    if vs == [] then []
    else
      var last := vs[|vs| - 1];
      assert forall x :: x in vs <==> x in vs[..|vs| - 1] || x == last;
      FieldNames(vs[..|vs| - 1]) + (if last.Str? then [last.s] else [])
  }

  /** A string accessor built on `set_or_return(..., kind_of: String)`: nil reads, a string writes. */
  function Assigned(field: string, current: Option<string>, arg: Value): (r: Result<Option<string>>)
    ensures arg.Nil? ==> r == Ok(current)
    ensures arg.Str? ==> r == Ok(Some(arg.s))
    ensures !arg.Nil? && !arg.Str? ==> r == Err(ValidationFailed(field))
  {
    if arg.Nil? then Ok(current)
    else if arg.Str? then Ok(Some(arg.s))
    else Err(ValidationFailed(field))
  }

  /** `cipher(arg)`: with neither an argument nor a stored cipher, the default is stored. */
  function CipherAssigned(current: Option<string>, arg: Value): (r: Result<Option<string>>)
    ensures r.Ok? ==> r.value.Some?
    ensures arg.Nil? ==> r == Ok(Some(CipherOr(current)))
    ensures arg.Str? ==> r == Ok(Some(arg.s))
    ensures !arg.Nil? && !arg.Str? ==> r.Err?
  {
    Assigned("cipher", current, if arg.Nil? && current.None? then Str(DefaultCipher) else arg)
  }

  /** `encoded_fields(arg)`: nil reads, an array writes, anything else is refused. */
  function FieldsAssigned(current: Option<seq<Value>>, arg: Value): (r: Result<Option<seq<Value>>>)
    ensures arg.Nil? ==> r == Ok(current)
    ensures arg.Arr? ==> r == Ok(Some(arg.items))
    ensures !arg.Nil? && !arg.Arr? ==> r == Err(ValidationFailed("encoded_fields"))
  {
    if arg.Nil? then Ok(current)
    else if arg.Arr? then Ok(Some(arg.items))
    else Err(ValidationFailed("encoded_fields"))
  }

  function CipherOr(c: Option<string>): string {
    if c.Some? then c.value else DefaultCipher
  }

  /** `encoded_fields` read back: the stored list, else the declared default `[]`. */
  function FieldsOr(f: Option<seq<Value>>): (r: seq<Value>)
    ensures f.None? ==> r == []
    ensures f.Some? ==> r == f.value
  {
    if f.Some? then f.value else []
  }

  /** `@raw_data.delete(:encryption) || {}`, which is then indexed with `[]`. */
  function Section(v: Value): (r: Result<seq<Entry>>)
    ensures !Truthy(v) ==> r == Ok([])
    ensures v.Hash? ==> r == Ok(v.entries)
    ensures Truthy(v) && !v.Hash? ==> r == Err(NotIndexable)
  {
    if !Truthy(v) then Ok([])
    else if v.Hash? then Ok(v.entries)
    else Err(NotIndexable)
  }

  /** What the `secret` getter yields: the stored secret, else the configured one. */
  function SecretRead(current: Option<string>, configSecret: Value): (r: Result<Option<string>>)
    ensures current.Some? ==> r == Ok(current)
    ensures current.None? ==> r == Assigned("secret", None, configSecret)
  {
    Assigned("secret", current, if current.None? then configSecret else Nil)
  }

  /**
   * What an item works with besides its fields: primitives, secret sources,
   * `Chef::Config[:encrypted_data_bag_secret]`, and which reading of the
   * remote key branch is in force (`AsWritten` is the source's own).
   */
  datatype Env = Env(prim: Primitives, sources: SecretSources, configSecret: Value, reading: Reading)

  /** The fields of an item at one moment. */
  datatype State = State(
    rawData: seq<Entry>,
    dataBag: Option<string>,
    decoded: bool,
    secret: Option<string>,
    key: Option<string>,
    cipher: Option<string>,
    iv: Option<string>,
    encodedFields: Option<seq<Value>>)

  /** The `encryption` hash an item in state `s` reports. */
  function Reported(s: State): Encryption {
    Encryption(s.iv, CipherOr(s.cipher), FieldNames(FieldsOr(s.encodedFields)))
  }

  /** What `key` yields in state `s`. */
  function KeyOutcome(env: Env, s: State): Result<string> {
    if s.key.Some? then Ok(s.key.value)
    else
      var secret :- SecretRead(s.secret, env.configSecret);
      KeyFromSecret(env.reading, secret, env.sources)
  }

  /**
   * As written, an item with no key whose secret is a URL cannot yield a
   * key: reading it raises the NameError of the remote branch.
   */
  lemma RemoteKeyRaises(env: Env, s: State, scheme: string, rest: string)
    requires env.reading.AsWritten? && s.key.None?
    requires SecretRead(s.secret, env.configSecret) == Ok(Some(scheme + "://" + rest))
    requires scheme != [] && forall k :: 0 <= k < |scheme| ==> WordChar(scheme[k])
    ensures KeyOutcome(env, s) == Err(UndefinedName("path"))
  {
    RemoteSecretRaises(scheme, rest, env.sources);
  }

  /** The remembered key once `key` has run: the old one, else the one just read, if any. */
  function KeyAfter(env: Env, s: State): Option<string> {
    if s.key.Some? then s.key
    else if KeyOutcome(env, s).Ok? then Some(KeyOutcome(env, s).value)
    else None
  }

  /** The stored secret once `key` has run: a configured secret it read is stored. */
  function SecretAfter(env: Env, s: State): Option<string> {
    if s.key.None? && SecretRead(s.secret, env.configSecret).Ok? then SecretRead(s.secret, env.configSecret).value
    else s.secret
  }

  /** What `decode_data` yields in state `s`. */
  function DecodedData(env: Env, s: State): Result<seq<Entry>> {
    var k :- KeyOutcome(env, s);
    D.DecryptWalk(D.ContextOf(env.prim, Reported(s), k), s.rawData)
  }

  /** What `encode_data` yields in state `s`, given the encryptor's random IV. */
  function EncodedData(env: Env, s: State, randomIv: string): Result<seq<Entry>> {
    var data :- if s.decoded then Ok(s.rawData) else DecodedData(env, s);
    var k :- KeyOutcome(env, s);
    E.EncryptedItem(env.prim, data, Reported(s), k, randomIv)
  }

  /** `data_bag` as a document value. */
  function DataBagValue(b: Option<string>): Value {
    if b.Some? then Str(b.value) else Nil
  }

  /** What `to_hash` yields in state `s`. */
  function ItemHash(env: Env, s: State, randomIv: string): (r: Result<seq<Entry>>)
    ensures r.Ok? <==> EncodedData(env, s, randomIv).Ok?
    ensures r.Ok? ==> Get(r.value, "chef_type") == Some(Str("data_bag_item"))
    ensures r.Ok? ==> Get(r.value, "data_bag") == Some(DataBagValue(s.dataBag))
    ensures r.Ok? ==> forall k :: k != "chef_type" && k != "data_bag" ==>
      Get(r.value, k) == Get(EncodedData(env, s, randomIv).value, k)
  {
    var data :- EncodedData(env, s, randomIv);
    Ok(Put(Put(data, "chef_type", Str("data_bag_item")), "data_bag", DataBagValue(s.dataBag)))
  }

  /** `Encryptor.new(data, encryption, key).for_encrypted_item`. */
  method EncryptFresh(prim: Primitives, data: seq<Entry>, e: Encryption, key: string, randomIv: string)
    returns (r: Result<seq<Entry>>)
    ensures r == E.EncryptedItem(prim, data, e, key, randomIv)
  {
    var encryptor := new E.Encryptor(prim, data, e, key, randomIv);
    r := encryptor.ForEncryptedItem();
  }

  /** `Decryptor.new(data, encryption, key).for_decrypted_item`. */
  method DecryptFresh(prim: Primitives, data: seq<Entry>, e: Encryption, key: string) returns (r: Result<seq<Entry>>)
    ensures r == D.DecryptWalk(D.ContextOf(prim, e, key), data)
  {
    var decryptor := new D.Decryptor(prim, data, e, key);
    r := decryptor.ForDecryptedItem();
  }

  class SecureDataBagItem {
    const env: Env
    var rawData: seq<Entry>
    var dataBag: Option<string>
    var decoded: bool
    var secret: Option<string>
    var key: Option<string>
    var cipher: Option<string>
    var iv: Option<string>
    var encodedFields: Option<seq<Value>>

    constructor (env: Env)
      ensures this.env == env
      ensures St() == State([], None, false, None, None, None, None, None)
    {
      this.env := env;
      rawData := [];
      dataBag := None;
      decoded := false;
      secret := None;
      key := None;
      cipher := None;
      iv := None;
      encodedFields := None;
    }

    function St(): State
      reads this
    {
      State(rawData, dataBag, decoded, secret, key, cipher, iv, encodedFields)
    }

    /** `secret(arg)`. */
    method Secret(arg: Value) returns (r: Result<Option<string>>)
      modifies this`secret
      ensures r == Assigned("secret", old(secret), if old(secret).None? && arg.Nil? then env.configSecret else arg)
      ensures secret == if r.Ok? then r.value else old(secret)
    {
      var a := arg;
      if secret.None? && a.Nil? {
        a := env.configSecret;
      }
      if a.Nil? {
        return Ok(secret);
      }
      if !a.Str? {
        return Err(ValidationFailed("secret"));
      }
      secret := Some(a.s);
      return Ok(secret);
    }

    /**
     * `key(arg)`: an argument replaces the key; otherwise the key is read
     * once from the secret and remembered.
     */
    method Key(arg: Option<string>) returns (r: Result<string>)
      modifies this`key, this`secret
      ensures arg.Some? ==> r == Ok(arg.value) && key == arg && secret == old(secret)
      ensures arg.None? ==> r == KeyOutcome(env, old(St())) && key == KeyAfter(env, old(St())) && secret == SecretAfter(env, old(St()))
    {
      if arg.Some? {
        key := arg;
      }
      if key.Some? {
        return Ok(key.value);
      }
      var s :- Secret(Nil);
      r := KeyFromSecret(env.reading, s, env.sources);
      if r.Ok? {
        key := Some(r.value);
      }
    }
    /** `cipher(arg)`: `aes-256-cbc` until a cipher is set; reading stores the default. */
    method Cipher(arg: Value) returns (r: Result<string>)
      modifies this`cipher
      ensures CipherAssigned(old(cipher), arg).Ok? ==>
        r == Ok(CipherAssigned(old(cipher), arg).value.value) && cipher == CipherAssigned(old(cipher), arg).value
      ensures CipherAssigned(old(cipher), arg).Err? ==>
        r == Err(CipherAssigned(old(cipher), arg).error) && cipher == old(cipher)
    {
      var a := arg;
      if a.Nil? && cipher.None? {
        a := Str(DefaultCipher);
      }
      if a.Nil? {
        return Ok(cipher.value);
      }
      if !a.Str? {
        return Err(ValidationFailed("cipher"));
      }
      cipher := Some(a.s);
      return Ok(a.s);
    }

    /** `iv(arg)`. */
    method Iv(arg: Value) returns (r: Result<Option<string>>)
      modifies this`iv
      ensures r == Assigned("iv", old(iv), arg)
      ensures iv == if r.Ok? then r.value else old(iv)
    {
      if arg.Nil? {
        return Ok(iv);
      }
      if !arg.Str? {
        return Err(ValidationFailed("iv"));
      }
      iv := Some(arg.s);
      return Ok(iv);
    }

    /** `encoded_fields(arg)`, which reads as `[]` until set. */
    method EncodedFields(arg: Value) returns (r: Result<seq<Value>>)
      modifies this`encodedFields
      ensures FieldsAssigned(old(encodedFields), arg).Ok? ==>
        r == Ok(FieldsOr(FieldsAssigned(old(encodedFields), arg).value)) && encodedFields == FieldsAssigned(old(encodedFields), arg).value
      ensures FieldsAssigned(old(encodedFields), arg).Err? ==>
        r == Err(FieldsAssigned(old(encodedFields), arg).error) && encodedFields == old(encodedFields)
    {
      if arg.Nil? {
        return Ok(FieldsOr(encodedFields));
      }
      if !arg.Arr? {
        return Err(ValidationFailed("encoded_fields"));
      }
      encodedFields := Some(arg.items);
      return Ok(arg.items);
    }

    /** `encryption`: exactly the item's IV, cipher and field list. */
    method ReportEncryption() returns (e: Encryption)
      modifies this`cipher
      ensures e == Reported(old(St())) && e == Reported(St())
      ensures cipher == Some(CipherOr(old(cipher)))
    {
      var c := Cipher(Nil);
      e := Crypto.Encryption(iv, c.value, FieldNames(FieldsOr(encodedFields)));
    }

    /**
     * `raw_data=`: a document with an `encryption` entry loses it, its cipher,
     * IV and field list are copied into the item and the item is marked
     * encoded; a document without one is marked decoded.
     */
    method SetRawData(encData: Value) returns (r: Result<()>)
      modifies this`rawData, this`cipher, this`iv, this`encodedFields, this`decoded
      ensures !encData.Hash? ==> r == Err(NotAHash) && unchanged(this)
      ensures encData.Hash? && !HasKey(encData.entries, "encryption") ==>
        r.Ok? && rawData == encData.entries && decoded && unchanged(this`cipher, this`iv, this`encodedFields)
      ensures encData.Hash? && HasKey(encData.entries, "encryption") ==>
        rawData == Delete(encData.entries, "encryption") && decoded == (old(decoded) && r.Err?)
      ensures encData.Hash? && HasKey(encData.entries, "encryption") ==>
        var sec := Section(Lookup(encData.entries, "encryption"));
        r.Ok? <==> (
          && sec.Ok?
          && CipherAssigned(old(cipher), Lookup(sec.value, "cipher")).Ok?
          && Assigned("iv", old(iv), Lookup(sec.value, "iv")).Ok?
          && FieldsAssigned(old(encodedFields), Lookup(sec.value, "encoded_fields")).Ok?)
      ensures encData.Hash? && HasKey(encData.entries, "encryption") ==>
        var sec := Section(Lookup(encData.entries, "encryption"));
        var c := if sec.Ok? then CipherAssigned(old(cipher), Lookup(sec.value, "cipher")) else Err(NotIndexable);
        var i := if c.Ok? then Assigned("iv", old(iv), Lookup(sec.value, "iv")) else Err(NotIndexable);
        var f := if i.Ok? then FieldsAssigned(old(encodedFields), Lookup(sec.value, "encoded_fields")) else Err(NotIndexable);
        && cipher == (if c.Ok? then c.value else old(cipher))
        && iv == (if i.Ok? then i.value else old(iv))
        && encodedFields == (if f.Ok? then f.value else old(encodedFields))
    {
      if !encData.Hash? {
        return Err(NotAHash);
      }
      rawData := encData.entries;
      if HasKey(rawData, "encryption") {
        var section := Lookup(rawData, "encryption");
        rawData := Delete(rawData, "encryption");
        var sec :- Section(section);
        var _ :- Cipher(Lookup(sec, "cipher"));
        var _ :- Iv(Lookup(sec, "iv"));
        var _ :- EncodedFields(Lookup(sec, "encoded_fields"));
        decoded := false;
      } else {
        decoded := true;
      }
      return Ok(());
    }

    /** `decode_data`: the stored document decrypted with the reported encryption and the key. */
    method DecodeData() returns (r: Result<seq<Entry>>)
      modifies this`cipher, this`key, this`secret
      ensures r == DecodedData(env, old(St()))
      ensures cipher == Some(CipherOr(old(cipher)))
      ensures key == KeyAfter(env, old(St())) && secret == SecretAfter(env, old(St()))
    {
      var e := ReportEncryption();
      var k :- Key(None);
      r := DecryptFresh(env.prim, rawData, e, k);
    }

    /**
     * `raw_data`: a decoded item returns its document; any other decrypts
     * the stored document, stores and returns the result, and, as written,
     * stays marked encoded.
     */
    method RawData() returns (r: Result<seq<Entry>>)
      modifies this`rawData, this`cipher, this`key, this`secret
      ensures old(decoded) ==> r == Ok(old(rawData)) && unchanged(this)
      ensures !old(decoded) ==> r == DecodedData(env, old(St()))
      ensures !old(decoded) ==> rawData == if r.Ok? then r.value else old(rawData)
      ensures decoded == old(decoded)
      ensures !old(decoded) ==> cipher == Some(CipherOr(old(cipher)))
      ensures !old(decoded) ==> key == KeyAfter(env, old(St())) && secret == SecretAfter(env, old(St()))
    {
      if !decoded {
        var d :- DecodeData();
        rawData := d;
      }
      return Ok(rawData);
    }

    /** `encode_data`: the (decoded) document run through a fresh encryptor. */
    method EncodeData(randomIv: string) returns (r: Result<seq<Entry>>)
      modifies this`rawData, this`cipher, this`key, this`secret
      ensures r == EncodedData(env, old(St()), randomIv)
      ensures rawData == if !old(decoded) && DecodedData(env, old(St())).Ok? then DecodedData(env, old(St())).value else old(rawData)
      ensures key == KeyAfter(env, old(St())) && secret == SecretAfter(env, old(St()))
      ensures decoded == old(decoded) && dataBag == old(dataBag)
    {
      ghost var s0 := St();
      ghost var pre := if s0.decoded then Ok(s0.rawData) else DecodedData(env, s0);
      var data := RawData();
      assert data == pre;
      if data.Err? {
        return Err(data.error);
      }
      assert Reported(St()) == Reported(s0);
      assert KeyOutcome(env, St()) == KeyOutcome(env, s0) by {
        if !s0.decoded { assert KeyOutcome(env, s0).Ok?; }
      }
      assert KeyAfter(env, St()) == KeyAfter(env, s0) && SecretAfter(env, St()) == SecretAfter(env, s0);
      var e := ReportEncryption();
      var k := Key(None);
      assert k == KeyOutcome(env, s0);
      if k.Err? {
        return Err(k.error);
      }
      r := EncryptFresh(env.prim, data.value, e, k.value, randomIv);
    }

    /** `to_hash`: the encoded document plus `chef_type` and `data_bag`. */
    method ToHash(randomIv: string) returns (r: Result<seq<Entry>>)
      modifies this`rawData, this`cipher, this`key, this`secret
      ensures r == ItemHash(env, old(St()), randomIv)
      ensures r.Ok? ==> Get(r.value, "chef_type") == Some(Str("data_bag_item")) && Get(r.value, "data_bag") == Some(DataBagValue(dataBag))
      ensures r.Ok? ==> forall k :: k != "chef_type" && k != "data_bag" ==> Get(r.value, k) == Get(EncodedData(env, old(St()), randomIv).value, k)
      ensures rawData == if !old(decoded) && DecodedData(env, old(St())).Ok? then DecodedData(env, old(St())).value else old(rawData)
      ensures key == KeyAfter(env, old(St())) && secret == SecretAfter(env, old(St()))
      ensures decoded == old(decoded) && dataBag == old(dataBag)
    {
      var result :- EncodeData(randomIv);
      result := Put(result, "chef_type", Str("data_bag_item"));
      result := Put(result, "data_bag", DataBagValue(dataBag));
      return Ok(result);
    }
  }

  /**
   * The item `from_hash` builds from `h`: a document without an `encryption`
   * entry is taken as decoded; one with it is stored without it, encoded,
   * with the cipher, IV and field list it names, or is refused when these
   * have the wrong kinds.
   */
  function FromHashState(h: seq<Entry>): (r: Result<State>)
    ensures !HasKey(h, "encryption") ==> r == Ok(State(h, None, true, None, None, None, None, None))
    ensures HasKey(h, "encryption") ==>
      var sec := Section(Lookup(h, "encryption"));
      r.Ok? <==> (
        && sec.Ok?
        && CipherAssigned(None, Lookup(sec.value, "cipher")).Ok?
        && Assigned("iv", None, Lookup(sec.value, "iv")).Ok?
        && FieldsAssigned(None, Lookup(sec.value, "encoded_fields")).Ok?)
    ensures HasKey(h, "encryption") && r.Ok? ==>
      var sec := Section(Lookup(h, "encryption")).value;
      && r.value.rawData == Delete(h, "encryption") && !r.value.decoded
      && r.value.dataBag == None && r.value.secret == None && r.value.key == None
      && r.value.cipher == CipherAssigned(None, Lookup(sec, "cipher")).value
      && r.value.iv == Assigned("iv", None, Lookup(sec, "iv")).value
      && r.value.encodedFields == FieldsAssigned(None, Lookup(sec, "encoded_fields")).value
  {
    if !HasKey(h, "encryption") then Ok(State(h, None, true, None, None, None, None, None))
    else
      var sec :- Section(Lookup(h, "encryption"));
      var cipher :- CipherAssigned(None, Lookup(sec, "cipher"));
      var iv :- Assigned("iv", None, Lookup(sec, "iv"));
      var fields :- FieldsAssigned(None, Lookup(sec, "encoded_fields"));
      Ok(State(Delete(h, "encryption"), None, false, None, None, cipher, iv, fields))
  }

  /** The `encryption` section of a document exported with an empty IV and one listed field, `p`. */
  function EmptyIvSection(): seq<Entry> {
    [Entry("iv", Str("")), Entry("cipher", Str(DefaultCipher)), Entry("encoded_fields", Arr([Str("p")]))]
  }

  /** `from_hash` copies the empty IV of such a document into the item. */
  lemma EmptyIvRead()
    ensures var r := FromHashState([Entry("id", Str("x")), Entry("encryption", Hash(EmptyIvSection()))]);
      r.Ok? && r.value.iv == Some("") && r.value.cipher == Some(DefaultCipher) && r.value.encodedFields == Some([Str("p")])
  {
    var sec := EmptyIvSection();
    var h := [Entry("id", Str("x")), Entry("encryption", Hash(sec))];
    assert "iv"[0] != "cipher"[0] && "iv"[0] != "encoded_fields"[0] && "cipher"[0] != "encoded_fields"[0];
    assert Lookup(sec, "iv") == Str("");
    assert sec[1..] == [Entry("cipher", Str(DefaultCipher)), Entry("encoded_fields", Arr([Str("p")]))];
    assert Get(sec[1..], "cipher") == Some(Str(DefaultCipher));
    assert Lookup(sec, "cipher") == Str(DefaultCipher);
    assert sec[1..][1..] == [Entry("encoded_fields", Arr([Str("p")]))];
    assert Get(sec[1..][1..], "encoded_fields") == Some(Arr([Str("p")]));
    assert Get(sec[1..], "encoded_fields") == Get(sec[1..][1..], "encoded_fields");
    assert Lookup(sec, "encoded_fields") == Arr([Str("p")]);
    assert "id"[0] != "encryption"[0];
    assert h[1..] == [Entry("encryption", Hash(sec))];
    assert Get(h[1..], "encryption") == Some(Hash(sec));
    assert Lookup(h, "encryption") == Hash(sec);
    assert Section(Lookup(h, "encryption")) == Ok(sec);
    assert CipherAssigned(None, Lookup(sec, "cipher")) == Ok(Some(DefaultCipher));
    assert Assigned("iv", None, Lookup(sec, "iv")) == Ok(Some(""));
    assert FieldsAssigned(None, Lookup(sec, "encoded_fields")) == Ok(Some([Str("p")]));
  }

  /** Encrypting `{"id" => "x", "p" => "s"}` with `p` listed fails on the IV when OpenSSL refuses it. */
  lemma RejectedIvWalk(c: E.Context)
    requires c.p.supports(c.cipher) && !c.p.acceptsIv(c.cipher, c.iv) && c.fields == ["p"]
    ensures E.EncryptWalk(c, [Entry("id", Str("x")), Entry("p", Str("s"))]).failure == Some(IvRejected(c.cipher))
  {
    var data := [Entry("id", Str("x")), Entry("p", Str("s"))];
    assert "id" !in c.fields by { assert "id"[0] != "p"[0]; }
    assert E.EncryptEntry(c, data[0]).failure == None;
    assert E.EncryptedValue(c, Str("s")) == Err(IvRejected(c.cipher));
    assert E.EncryptEntry(c, data[1]).failure == Some(IvRejected(c.cipher));
    E.EncryptWalkPrefix(c, data, 0);
    E.EncryptWalkPrefix(c, data, 1);
    assert data[..2] == data;
  }

  /**
   * An item read back from a document whose `iv` is empty, the IV
   * `for_encrypted_item` writes when nothing was encrypted, keeps that IV:
   * once `raw_data=` gives a listed field a non-empty value, `to_hash`
   * raises where OpenSSL refuses the empty IV.
   */
  lemma EmptyIvRejected(env: Env, k: string, randomIv: string)
    requires env.prim.supports(DefaultCipher) && !env.prim.acceptsIv(DefaultCipher, "")
    ensures var r := FromHashState([Entry("id", Str("x")), Entry("encryption", Hash(EmptyIvSection()))]);
      && r.Ok? && r.value.iv == Some("")
      && ItemHash(env, r.value.(rawData := [Entry("id", Str("x")), Entry("p", Str("s"))], decoded := true, key := Some(k)), randomIv)
         == Err(IvRejected(DefaultCipher))
  {
    EmptyIvRead();
    var r := FromHashState([Entry("id", Str("x")), Entry("encryption", Hash(EmptyIvSection()))]);
    var s := r.value.(rawData := [Entry("id", Str("x")), Entry("p", Str("s"))], decoded := true, key := Some(k));
    var c := E.ContextOf(env.prim, Reported(s), k, randomIv);
    assert FieldNames([Str("p")]) == ["p"];
    RejectedIvWalk(c);
  }

  /** `SecureDataBagItem.from_hash`: a new item whose `raw_data` is assigned the document. */
  method FromHash(env: Env, h: seq<Entry>) returns (r: Result<SecureDataBagItem>)
    ensures r.Ok? <==> FromHashState(h).Ok?
    ensures r.Ok? ==> fresh(r.value) && r.value.env == env && r.value.St() == FromHashState(h).value
  {
    var item := new SecureDataBagItem(env);
    var _ :- item.SetRawData(Hash(h));
    return Ok(item);
  }
}
