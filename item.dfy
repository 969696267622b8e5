/**
 * `SecureDataBag::Item`, the version 3 item. It keeps the decrypted
 * document in `raw_data` together with metadata: the encryption and
 * decryption formats, the list of keys to encrypt and the version. The
 * metadata travels in the document under a reserved key. Its decryptor
 * and encryptor, `SecureDataBag::Decryptor.for` and
 * `SecureDataBag::Encryptor.new`, are not part of this model and form the
 * `Codec` parameter.
 */
module Items {
  import opened Results
  import opened Values
  import S = SecureDataBagItems

  /** `SecureDataBag::METADATA_KEY`: where an item's metadata sits in its document. */
  const MetadataKey: string := "_metadata"

  /** What a decryptor hands back: the decrypted hash, the keys it found encrypted and the format it read. */
  datatype Decrypted = Decrypted(hash: seq<Entry>, keys: seq<Value>, format: Value)

  /**
   * The collaborators: `Decryptor.for(data, secret, metadata)` followed by
   * `decrypt!`, `Encryptor.new(data, secret, metadata)` followed by
   * `encrypt!`, and `Chef::EncryptedDataBagItem.load_secret(path)`.
   */
  datatype Codec = Codec(
    decrypt: (seq<Entry>, Value, seq<Entry>) -> Result<Decrypted>,
    encrypt: (seq<Entry>, Value, seq<Entry>) -> Result<seq<Entry>>,
    loadSecret: Value -> Result<string>)

  /**
   * The collaborators, `SecureDataBag::VERSION`, and the three configuration
   * values an item reads: `knife[:secure_data_bag][:secret_file]`,
   * `encrypted_data_bag_secret` and `knife[:secure_data_bag][:encrypted_keys]`.
   */
  datatype Env = Env(
    codec: Codec,
    version: string,
    knifeSecretFile: Value,
    encryptedDataBagSecret: Value,
    knifeEncryptedKeys: Value)

  /** The fields of an item at one moment. */
  datatype State = State(
    version: Value,
    encryptionFormat: Value,
    decryptionFormat: Value,
    secret: Value,
    secretPath: Value,
    encryptedKeys: seq<Value>,
    rawData: seq<Entry>,
    dataBag: Option<string>)

  /** The first truthy value of `a || b`. */
  function Or(a: Value, b: Value): (r: Value)
    ensures Truthy(a) ==> r == a
    ensures !Truthy(a) ==> r == b
  {
    if Truthy(a) then a else b
  }

  /** `Item.load_secret(path)`'s choice of file: the path given, else the knife setting, else Chef's. */
  function SecretPath(env: Env, path: Value): (r: Value)
    ensures Truthy(path) ==> r == path
    ensures !Truthy(path) && Truthy(env.knifeSecretFile) ==> r == env.knifeSecretFile
    ensures !Truthy(path) && !Truthy(env.knifeSecretFile) ==> r == env.encryptedDataBagSecret
  {
    Or(path, Or(env.knifeSecretFile, env.encryptedDataBagSecret))
  }

  /** `Item.load_secret(path)`. */
  function LoadSecret(env: Env, path: Value): Result<string> {
    env.codec.loadSecret(SecretPath(env, path))
  }

  /** `v.uniq`: arrays lose their repeated elements, hashes become their distinct pairs, nothing else has `uniq`. */
  function Uniq(v: Value): (r: Result<seq<Value>>)
    ensures v.Arr? ==> r.Ok? && forall x :: x in r.value <==> x in v.items
    ensures v.Hash? ==> r.Ok? && forall x :: x in r.value <==> x in Pairs(v.entries)
    ensures r.Ok? ==> Distinct(r.value)
    ensures !v.Arr? && !v.Hash? ==> r == Err(NotAList)
  {
    match v
    case Arr(items) => Ok(Dedup(items))
    case Hash(entries) => Ok(Dedup(Pairs(entries)))
    case _ => Err(NotAList)
  }

  /**
   * `initialize(opts)` before any data is assigned: the version defaults to
   * the library's; a falsy secret is not stored; the keys to encrypt come
   * from the options, else the configuration, else none, without repeats.
   */
  function Initial(env: Env, opts: seq<Entry>): (r: Result<State>)
    ensures r.Ok? ==> r.value.rawData == [] && r.value.dataBag == None && Distinct(r.value.encryptedKeys)
    ensures r.Ok? ==> r.value.version == Or(Lookup(opts, "version"), Str(env.version))
    ensures r.Ok? ==> !Truthy(Lookup(opts, "secret")) ==> r.value.secret == Nil
    ensures r.Ok? ==> Truthy(Lookup(opts, "secret")) ==> r.value.secret == Lookup(opts, "secret")
    ensures r.Ok? ==>
      && r.value.encryptionFormat == Lookup(opts, "encryption_format")
      && r.value.decryptionFormat == Lookup(opts, "decryption_format")
      && r.value.secretPath == Lookup(opts, "secret_path")
    ensures r.Ok? <==> Uniq(Or(Lookup(opts, "encrypted_keys"), Or(env.knifeEncryptedKeys, Arr([])))).Ok?
    ensures r.Ok? ==> r.value.encryptedKeys == Uniq(Or(Lookup(opts, "encrypted_keys"), Or(env.knifeEncryptedKeys, Arr([])))).value
  {
    var keys :- Uniq(Or(Lookup(opts, "encrypted_keys"), Or(env.knifeEncryptedKeys, Arr([]))));
    Ok(State(
      Or(Lookup(opts, "version"), Str(env.version)),
      Lookup(opts, "encryption_format"),
      Lookup(opts, "decryption_format"),
      if Truthy(Lookup(opts, "secret")) then Lookup(opts, "secret") else Nil,
      Lookup(opts, "secret_path"),
      keys,
      [],
      None))
  }

  /** `metadata`: exactly the two formats, the keys to encrypt and the version. */
  function Metadata(s: State): (m: seq<Entry>)
    ensures Keys(m) == ["encryption_format", "decryption_format", "encrypted_keys", "version"]
    ensures DistinctKeys(m)
    ensures Get(m, "encryption_format") == Some(s.encryptionFormat)
    ensures Get(m, "decryption_format") == Some(s.decryptionFormat)
    ensures Get(m, "encrypted_keys") == Some(Arr(s.encryptedKeys))
    ensures Get(m, "version") == Some(s.version)
  {
    [Entry("encryption_format", s.encryptionFormat),
     Entry("decryption_format", s.decryptionFormat),
     Entry("encrypted_keys", Arr(s.encryptedKeys)),
     Entry("version", s.version)]
  }

  /** What `secret` yields in state `s`: the stored secret, else one loaded from the item's path. */
  function SecretOutcome(env: Env, s: State): (r: Result<Value>)
    ensures Truthy(s.secret) ==> r == Ok(s.secret)
    ensures !Truthy(s.secret) ==> r == (var x :- LoadSecret(env, s.secretPath); Ok(Str(x)))
    ensures r.Ok? ==> Truthy(r.value)
  {
    if Truthy(s.secret) then Ok(s.secret)
    else
      var x :- LoadSecret(env, s.secretPath);
      Ok(Str(x))
  }

  /** The state once `secret` has run: a loaded secret is remembered. */
  function WithSecret(env: Env, s: State): State {
    if SecretOutcome(env, s).Ok? then s.(secret := SecretOutcome(env, s).value) else s
  }

  /** What the decryptor yields on `data` in state `s`. */
  function DecryptOutcome(env: Env, s: State, data: seq<Entry>): Result<Decrypted> {
    var secret :- SecretOutcome(env, s);
    env.codec.decrypt(data, secret, Metadata(s))
  }

  /** Saving a decryption: its keys join the keys to encrypt, and its format is recorded. */
  function Saved(s: State, d: Decrypted): State {
    s.(encryptedKeys := Dedup(s.encryptedKeys + d.keys), decryptionFormat := d.format)
  }

  /** What `raw_data = v` does in state `s`: the metadata key is dropped, the rest decrypted and saved. */
  function AfterRawData(env: Env, s: State, v: Value): Result<State> {
    if !v.Hash? then Err(NotAHash)
    else
      var d :- DecryptOutcome(env, s, Delete(v.entries, MetadataKey));
      Ok(Saved(WithSecret(env, s), d).(rawData := d.hash))
  }

  /**
   * What `encrypt_data(data)` yields in state `s`: the encryptor's hash with
   * `data_bag` and `id` overwritten by the plaintext values of the raw data.
   */
  function EncryptOutcome(env: Env, s: State, data: seq<Entry>): (r: Result<seq<Entry>>)
    ensures r.Ok? ==> Get(r.value, "id") == Some(Lookup(s.rawData, "id"))
    ensures r.Ok? ==> Get(r.value, "data_bag") == Some(Lookup(s.rawData, "data_bag"))
    ensures r.Ok? <==> SecretOutcome(env, s).Ok? && env.codec.encrypt(data, SecretOutcome(env, s).value, Metadata(s)).Ok?
    ensures r.Ok? ==> var enc := env.codec.encrypt(data, SecretOutcome(env, s).value, Metadata(s)).value;
      forall k :: k != "id" && k != "data_bag" ==> Get(r.value, k) == Get(enc, k)
  {
    var secret :- SecretOutcome(env, s);
    var enc :- env.codec.encrypt(data, secret, Metadata(s));
    Ok(Put(Put(enc, "data_bag", Lookup(s.rawData, "data_bag")), "id", Lookup(s.rawData, "id")))
  }

  /** What `to_data(opts)` yields in state `s`. */
  function DataOut(env: Env, s: State, opts: seq<Entry>): (r: Result<seq<Entry>>)
    ensures !Truthy(Lookup(opts, "encrypt")) ==> r.Ok?
    ensures !Truthy(Lookup(opts, "encrypt")) && !Truthy(Lookup(opts, "metadata")) ==> r == Ok(s.rawData)
    ensures Truthy(Lookup(opts, "encrypt")) && !Truthy(Lookup(opts, "metadata")) ==> r == EncryptOutcome(env, s, s.rawData)
    ensures r.Ok? && Truthy(Lookup(opts, "metadata")) ==> Get(r.value, MetadataKey) == Some(Hash(Metadata(s)))
    ensures var base := if Truthy(Lookup(opts, "encrypt")) then EncryptOutcome(env, s, s.rawData) else Ok(s.rawData);
      && (r.Ok? <==> base.Ok?)
      && (r.Ok? ==> forall k :: k != MetadataKey ==> Get(r.value, k) == Get(base.value, k))
  {
    var base :- if Truthy(Lookup(opts, "encrypt")) then EncryptOutcome(env, s, s.rawData) else Ok(s.rawData);
    Ok(if Truthy(Lookup(opts, "metadata")) then Put(base, MetadataKey, Hash(Metadata(s))) else base)
  }

  /** `data_bag.to_s`. */
  function DataBagString(b: Option<string>): string {
    if b.Some? then b.value else ""
  }

  /** What `to_hash(opts)` yields in state `s`. */
  function HashOut(env: Env, s: State, opts: seq<Entry>): (r: Result<seq<Entry>>)
    ensures r.Ok? <==> DataOut(env, s, opts).Ok?
    ensures r.Ok? ==> Get(r.value, "chef_type") == Some(Str("data_bag_item"))
    ensures r.Ok? ==> Get(r.value, "data_bag") == Some(Str(DataBagString(s.dataBag)))
    ensures r.Ok? ==> forall k :: k != "chef_type" && k != "data_bag" ==> Get(r.value, k) == Get(DataOut(env, s, opts).value, k)
  {
    var data :- DataOut(env, s, opts);
    Ok(Put(Put(data, "chef_type", Str("data_bag_item")), "data_bag", Str(DataBagString(s.dataBag))))
  }

  /** The state once `to_data` or `to_hash` has run: without encryption the result is the raw data itself. */
  function AfterExport(env: Env, s: State, opts: seq<Entry>, result: seq<Entry>): State {
    if Truthy(Lookup(opts, "encrypt")) then WithSecret(env, s) else s.(rawData := result)
  }

  /** `from_hash`'s working copy once `chef_type` and `json_class` are gone. */
  function WithoutChefKeys(h: seq<Entry>): (r: seq<Entry>)
    ensures forall k :: Get(r, k) == if k in ["chef_type", "json_class"] then None else Get(h, k)
  {
    DeleteKeys(h, ["chef_type", "json_class"])
  }

  /** The options `from_hash` builds: the embedded metadata, overridden by `opts`. */
  function ItemOptions(h: seq<Entry>, opts: seq<Entry>): (r: Result<seq<Entry>>)
    ensures r.Ok? && DistinctKeys(opts) ==> forall k :: HasKey(opts, k) ==> Get(r.value, k) == Get(opts, k)
    ensures var m := Lookup(WithoutChefKeys(h), MetadataKey);
      && (r.Err? <==> Truthy(m) && !m.Hash?)
      && (r.Err? ==> r.error == NotAHash)
      && (r.Ok? ==> forall k :: !HasKey(opts, k) ==> Get(r.value, k) == if m.Hash? then Get(m.entries, k) else None)
  {
    var m := Lookup(WithoutChefKeys(h), MetadataKey);
    var embedded :- if !Truthy(m) then Ok([]) else if m.Hash? then Ok(m.entries) else Err(NotAHash);
    Ok(Merge(embedded, opts))
  }

  /** The keys `from_hash` removes before the data becomes raw data. */
  const BookkeepingKeys: seq<string> := ["chef_type", "json_class", MetadataKey, "data_bag"]

  /** The data `from_hash` keeps: the document without its bookkeeping keys. */
  function ItemData(h: seq<Entry>): (r: seq<Entry>)
    ensures forall k :: Get(r, k) == if k in BookkeepingKeys then None else Get(h, k)
  {
    DeleteKeys(h, BookkeepingKeys)
  }

  /** What `from_hash` assigns to `raw_data`: the nested `raw_data` entry if there is one, else the kept data. */
  function ItemRawData(h: seq<Entry>): Value {
    var data := ItemData(h);
    if HasKey(data, "raw_data") then Lookup(data, "raw_data") else Hash(data)
  }

  /** `new(opts)`: the initial state, then `raw_data = opts[:data]` when that is given. */
  function Created(env: Env, opts: seq<Entry>): Result<State> {
    var s :- Initial(env, opts);
    if Truthy(Lookup(opts, "data")) then AfterRawData(env, s, Lookup(opts, "data")) else Ok(s)
  }

  /** What `from_hash(h, opts)` builds. */
  function FromHashState(env: Env, h: seq<Entry>, opts: seq<Entry>): Result<State> {
    var meta :- ItemOptions(h, opts);
    var s :- Created(env, meta);
    var bag := Get(WithoutChefKeys(h), "data_bag");
    var dataBag :- if bag.Some? then S.Assigned("data_bag", s.dataBag, bag.value) else Ok(s.dataBag);
    AfterRawData(env, s.(dataBag := dataBag), ItemRawData(h))
  }

  /** Every state an item reaches keeps its keys to encrypt free of repeats. */
  lemma AfterRawDataDistinct(env: Env, s: State, v: Value)
    requires AfterRawData(env, s, v).Ok?
    ensures Distinct(AfterRawData(env, s, v).value.encryptedKeys)
  {
  }

  /**
   * Saving a decryption keeps the old keys first and in order, adds each
   * newly found key once, and nothing else.
   */
  lemma SavedKeys(s: State, d: Decrypted)
    requires Distinct(s.encryptedKeys)
    ensures var ks := Saved(s, d).encryptedKeys;
      && Distinct(ks)
      && |s.encryptedKeys| <= |ks| && ks[..|s.encryptedKeys|] == s.encryptedKeys
      && forall x :: x in ks <==> x in s.encryptedKeys || x in d.keys
  {
    DedupKeepsPrefix(s.encryptedKeys, d.keys);
  }

  /** A remembered secret is returned again without loading. */
  lemma SecretMemoised(env: Env, s: State)
    requires SecretOutcome(env, s).Ok?
    ensures SecretOutcome(env, WithSecret(env, s)) == SecretOutcome(env, s)
    ensures WithSecret(env, WithSecret(env, s)) == WithSecret(env, s)
  {
  }

  /**
   * Metadata read back by `new` restores the version, both formats and the
   * keys to encrypt of the item that reported it.
   */
  lemma {:induction false} MetadataRoundTrip(env: Env, s: State)
    requires Truthy(s.version) && Distinct(s.encryptedKeys)
    ensures Initial(env, Metadata(s)).Ok?
    ensures var t := Initial(env, Metadata(s)).value;
      && t.version == s.version
      && t.encryptionFormat == s.encryptionFormat
      && t.decryptionFormat == s.decryptionFormat
      && t.encryptedKeys == s.encryptedKeys
  {
    var m := Metadata(s);
    assert Lookup(m, "encrypted_keys") == Arr(s.encryptedKeys);
    DedupDistinct(s.encryptedKeys);
    assert Get(m, "secret") == None by {
      assert !HasKey(m, "secret") by {
        forall i | 0 <= i < |m| ensures m[i].key != "secret" {
          assert Keys(m)[i] == m[i].key;
        }
      }
    }
  }

  /** A document that holds metadata `m` still yields it once `to_hash` has added `chef_type` and `data_bag`. */
  lemma MetadataReadBack(d: seq<Entry>, m: seq<Entry>, bag: string)
    requires Get(d, MetadataKey) == Some(Hash(m))
    ensures var h := Put(Put(d, "chef_type", Str("data_bag_item")), "data_bag", Str(bag));
      Lookup(WithoutChefKeys(h), MetadataKey) == Hash(m)
  {
    var h := Put(Put(d, "chef_type", Str("data_bag_item")), "data_bag", Str(bag));
    assert Get(h, MetadataKey) == Some(Hash(m));
    assert Get(WithoutChefKeys(h), MetadataKey) == Some(Hash(m));
  }

  /**
   * What `to_hash(metadata: true)` writes is what `from_hash` then reads:
   * a document exported with its metadata yields that metadata as the
   * options of the item built from it.
   */
  lemma MetadataSurvivesExport(env: Env, s: State, opts: seq<Entry>)
    requires Truthy(Lookup(opts, "metadata")) && HashOut(env, s, opts).Ok?
    ensures ItemOptions(HashOut(env, s, opts).value, []) == Ok(Metadata(s))
  {
    var m := Metadata(s);
    var d := DataOut(env, s, opts).value;
    assert Get(d, MetadataKey) == Some(Hash(m));
    MetadataReadBack(d, m, DataBagString(s.dataBag));
    assert Merge(m, []) == m;
  }

  /** An item with the fields and the configuration it works with. */
  class Item {
    const env: Env
    var version: Value
    var encryptionFormat: Value
    var decryptionFormat: Value
    var secret: Value
    var secretPath: Value
    var encryptedKeys: seq<Value>
    var rawData: seq<Entry>
    var dataBag: Option<string>

    /** An item holding the fields of `s`. */
    constructor (env: Env, s: State)
      ensures this.env == env && St() == s
    {
      this.env := env;
      version := s.version;
      encryptionFormat := s.encryptionFormat;
      decryptionFormat := s.decryptionFormat;
      secret := s.secret;
      secretPath := s.secretPath;
      encryptedKeys := s.encryptedKeys;
      rawData := s.rawData;
      dataBag := s.dataBag;
    }

    function St(): State
      reads this
    {
      State(version, encryptionFormat, decryptionFormat, secret, secretPath, encryptedKeys, rawData, dataBag)
    }

    /** `secret(arg)`: an argument replaces the secret; a missing secret is loaded once and remembered. */
    method Secret(arg: Value) returns (r: Result<Value>)
      modifies this`secret
      ensures var s := if arg.Nil? then old(St()) else old(St()).(secret := arg);
        r == SecretOutcome(env, s) && St() == WithSecret(env, s)
    {
      if !arg.Nil? {
        secret := arg;
      }
      if !Truthy(secret) {
        var loaded :- LoadSecret(env, secretPath);
        secret := Str(loaded);
      }
      return Ok(secret);
    }

    /** `data_bag(arg)`, Chef's accessor: nil reads, a string writes. */
    method DataBag(arg: Value) returns (r: Result<Option<string>>)
      modifies this`dataBag
      ensures r == S.Assigned("data_bag", old(dataBag), arg)
      ensures dataBag == if r.Ok? then r.value else old(dataBag)
    {
      if arg.Nil? {
        return Ok(dataBag);
      }
      if !arg.Str? {
        return Err(ValidationFailed("data_bag"));
      }
      dataBag := Some(arg.s);
      return Ok(dataBag);
    }

    /**
     * `decrypt_data(data, save:)`: the decrypted hash; when saving, the keys
     * found encrypted join the keys to encrypt and the format is recorded.
     */
    method DecryptData(data: seq<Entry>, save: bool) returns (r: Result<seq<Entry>>)
      modifies this`secret, this`encryptedKeys, this`decryptionFormat
      ensures var d := DecryptOutcome(env, old(St()), data);
        r == (if d.Ok? then Ok(d.value.hash) else Err(d.error))
      ensures var d := DecryptOutcome(env, old(St()), data);
        St() == if save && d.Ok? then Saved(WithSecret(env, old(St())), d.value) else WithSecret(env, old(St()))
    {
      var sec :- Secret(Nil);
      var d :- env.codec.decrypt(data, sec, Metadata(St()));
      if save {
        encryptedKeys := Dedup(encryptedKeys + d.keys);
        decryptionFormat := d.format;
      }
      return Ok(d.hash);
    }

    /** `raw_data = v`: the metadata key is dropped and the rest decrypted, saved and stored. */
    method SetRawData(v: Value) returns (r: Result<()>)
      modifies this`secret, this`encryptedKeys, this`decryptionFormat, this`rawData
      ensures r.Ok? <==> AfterRawData(env, old(St()), v).Ok?
      ensures r.Ok? ==> St() == AfterRawData(env, old(St()), v).value
      ensures r.Err? ==> r.error == AfterRawData(env, old(St()), v).error
      ensures r.Err? ==> St() == if v.Hash? then WithSecret(env, old(St())) else old(St())
    {
      if !v.Hash? {
        return Err(NotAHash);
      }
      var hash :- DecryptData(Delete(v.entries, MetadataKey), true);
      rawData := hash;
      return Ok(());
    }

    /** `encrypt_data(data)`: see `EncryptOutcome`. */
    method EncryptData(data: seq<Entry>) returns (r: Result<seq<Entry>>)
      modifies this`secret
      ensures r == EncryptOutcome(env, old(St()), data)
      ensures St() == WithSecret(env, old(St()))
    {
      var sec :- Secret(Nil);
      var encrypted :- env.codec.encrypt(data, sec, Metadata(St()));
      encrypted := Put(encrypted, "data_bag", Lookup(rawData, "data_bag"));
      encrypted := Put(encrypted, "id", Lookup(rawData, "id"));
      return Ok(encrypted);
    }

    /**
     * `to_data(opts)`: the raw data, encrypted when asked, with the metadata
     * when asked. Unencrypted, the result is the raw data hash itself, so
     * the metadata is written into it.
     */
    method ToData(opts: seq<Entry>) returns (r: Result<seq<Entry>>)
      modifies this`secret, this`rawData
      ensures r == DataOut(env, old(St()), opts)
      ensures r.Ok? ==> St() == AfterExport(env, old(St()), opts, r.value)
      ensures r.Err? ==> St() == WithSecret(env, old(St()))
    {
      var result: seq<Entry>;
      var encrypt := Truthy(Lookup(opts, "encrypt"));
      if encrypt {
        result :- EncryptData(rawData);
      } else {
        result := rawData;
      }
      if Truthy(Lookup(opts, "metadata")) {
        result := Put(result, MetadataKey, Hash(Metadata(St())));
        if !encrypt {
          rawData := result;
        }
      }
      return Ok(result);
    }

    /** `to_hash(opts)`: `to_data(opts)` with `chef_type` and `data_bag` set, written into the raw data when unencrypted. */
    method ToHash(opts: seq<Entry>) returns (r: Result<seq<Entry>>)
      modifies this`secret, this`rawData
      ensures r == HashOut(env, old(St()), opts)
      ensures r.Ok? ==> St() == AfterExport(env, old(St()), opts, r.value)
      ensures r.Err? ==> St() == WithSecret(env, old(St()))
    {
      var result :- ToData(opts);
      result := Put(result, "chef_type", Str("data_bag_item"));
      result := Put(result, "data_bag", Str(DataBagString(dataBag)));
      if !Truthy(Lookup(opts, "encrypt")) {
        rawData := result;
      }
      return Ok(result);
    }
  }

  /** `Item.new(opts)`. */
  method NewItem(env: Env, opts: seq<Entry>) returns (r: Result<Item>)
    ensures r.Ok? <==> Created(env, opts).Ok?
    ensures r.Ok? ==> fresh(r.value) && r.value.env == env && r.value.St() == Created(env, opts).value
  {
    var s :- Initial(env, opts);
    var item := new Item(env, s);
    var data := Lookup(opts, "data");
    if Truthy(data) {
      var _ :- item.SetRawData(data);
    }
    return Ok(item);
  }

  /**
   * `Item.from_hash(h, opts)`: an item configured by the embedded metadata
   * and `opts`, with its bag name set from `data_bag`, holding the rest of
   * the document (or its nested `raw_data` entry) as raw data.
   */
  method FromHash(env: Env, h: seq<Entry>, opts: seq<Entry>) returns (r: Result<Item>)
    ensures r.Ok? <==> FromHashState(env, h, opts).Ok?
    ensures r.Ok? ==> fresh(r.value) && r.value.env == env && r.value.St() == FromHashState(env, h, opts).value
  {
    var metadata :- ItemOptions(h, opts);
    var item :- NewItem(env, metadata);
    var bag := Get(WithoutChefKeys(h), "data_bag");
    if bag.Some? {
      var _ :- item.DataBag(bag.value);
    }
    var _ :- item.SetRawData(ItemRawData(h));
    return Ok(item);
  }
}
