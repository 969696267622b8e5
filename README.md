# chef-secure_data_bag in Dafny

A model of the core of `chef-secure_data_bag`, a Chef extension that keeps
selected fields of a data bag item encrypted while the rest of the document
stays readable. It has five parts.

- **The recursive field walkers.** `Encryptor#encrypt_hash` and
  `Decryptor#decrypt_hash` walk a nested hash depth-first. The value of a key
  listed in `encryption[:encoded_fields]` is replaced by its encrypted or
  decrypted form. An unlisted hash is walked in turn, and anything else is
  kept. Values are normalised before encryption: a hash or an array becomes
  the JSON text of `{json_wrapper: v}`, and anything else goes through `to_s`.
  Decryption parses any plain text that mentions `json_wrapper`.
- **The format detector.** `CheckEncrypted#partially_encrypted?` asks whether
  some nested hash, `id` entries left aside, looks encrypted.
- **The item of the first iteration.** `Chef::SecureDataBagItem` splits the
  `encryption` section off on assignment and tracks whether its document is
  decoded. Its cipher and field list have defaults. It reads and checks its
  key from a secret. The item's `Env.reading` chooses how a URL secret is
  read: `AsWritten` follows the source, where that read always raises, and
  `Intended` fetches the URL (see "## Findings").
- **The item of version 3.** `SecureDataBag::Item` keeps metadata, a
  repeat-free list of keys to encrypt that grows with what decryption finds,
  and raw data. It exports with `chef_type`, `data_bag` and, on request, its
  metadata. It re-imports with `from_hash`.
- **Per-bag knife defaults.** `DefaultsMixin#config_defaults_for_data_bag!`
  fills unset declared options from the bag's defaults. It iterates them with
  `each |key, value|`, so a hash and an array of names or `[name, value]`
  pairs both work.

How the model represents the system:

- A Ruby hash is an ordered `seq<Entry>`. Ruby hashes keep insertion order,
  and the order decides which listed key is met first.
  - `hash[k] = v` is `Values.Put`.
  - `delete` is `Values.Delete`.
  - `merge` is `Values.Merge`.
  - `uniq` is `Values.Dedup`.
- Ruby truthiness (everything but `nil` and `false`) is `Values.Truthy`.
- An exception is an `Err` of `Results.Result`.
- OpenSSL, SHA-256, Base64 and FFI_Yajl are function fields of
  `Crypto.Primitives`. Proofs that need their round-trip laws require
  `Crypto.Lawful`. Whether OpenSSL knows a cipher and accepts an IV or a key
  for it (`cipher.iv =` and `cipher.key =` raise on the wrong length) are
  fields too, `supports`, `acceptsIv` and `acceptsKey`; an IV or key it
  refuses raises. The source can itself hand OpenSSL an unusable IV: an item
  exported with nothing to encrypt records the IV `""`, and re-encrypting
  the item read back raises (`SecureDataBagItems.EmptyIvRejected`). More
  generally an item read back holds the Base64 text of its IV, and the
  encryptor hands `encryption[:iv]` to OpenSSL as it is; whether that is
  accepted is up to `acceptsIv`.
- OpenSSL's `random_iv` is a parameter.
- Secret files and URLs are the `Secrets.SecretSources` functions.
- `Chef::Config` values are fields of each module's `Env`.
- `SecureDataBag::Decryptor.for`, `SecureDataBag::Encryptor.new` and
  `Chef::EncryptedDataBagItem.load_secret` are not the classes shown. They are
  the `Items.Codec` functions.
- Objects whose fields change are classes whose methods `modifies` those
  fields:
  - `Encryptors.Encryptor`;
  - `Decryptors.Decryptor`;
  - `SecureDataBagItems.SecureDataBagItem`;
  - `Items.Item`;
  - `Defaults.KnifeCommand`.

  Each method's new state and result are tied to a pure function of the old
  state, and the properties are proved about those functions.

The central results:

- `Walkers.EncryptWalkSpec` and `Walkers.DecryptWalkSpec` say what each walk
  does for every input.
- `Walkers.RoundTrip` says that decrypting what was encrypted, with the key,
  cipher and IV written out, restores every listed value. Structures come back
  as they were and scalars as their `to_s` string.
- `ItemRoundTrip.ExportThenImport` lifts that to a whole
  `Chef::SecureDataBagItem`: `to_hash`, then `from_hash`, then `raw_data`.
- `CheckEncrypted.PartiallyEncryptedIffPath` ties the detector to an
  independent path-based definition.
- `Items.MetadataRoundTrip` and `Items.MetadataSurvivesExport` show that
  exported metadata configures the item read back.

## Model

| member | source | states |
|---|---|---|
| `Encryptors.Serialize` | lib/secure_data_bag/encryptor.rb:68-70 | under the laws, the text is non-empty, mentions `json_wrapper` and parses back to `{json_wrapper: v}` |
| `Encryptors.Normalize` | lib/secure_data_bag/encryptor.rb:60-66 | the normalised text is empty exactly for `nil` and `""`; a hash or array normalises to text that parses back to its wrapper; anything else to its `to_s` |
| `Encryptors.EncryptedValue` | lib/secure_data_bag/encryptor.rb:47-58 | an empty normalised value is returned as `""` unencrypted; otherwise an unknown cipher raises `UnsupportedCipher`, an IV OpenSSL refuses raises `IvRejected`, a key it refuses raises `KeyRejected`, and a cipher set up with both gives Base64 of the cipher text under SHA-256 of the secret and the IV in use |
| `Encryptors.AfterSetup` | lib/secure_data_bag/encryptor.rb:76 | `encryption[:iv] ||= random_iv` fixes an IV, keeps an existing one, and changes neither cipher nor field list |
| `Encryptors.EncryptionEntry` | lib/secure_data_bag/encryptor.rb:21-24 | the `encryption` entry holds exactly `iv`, `cipher` and `encoded_fields`, in that order |
| `Encryptors.StrList` | lib/secure_data_bag/encryptor.rb:23 | the field list written out holds each key as a string, position by position |
| `Encryptors.EncryptWalkPrefix` | lib/secure_data_bag/encryptor.rb:35-43 | the walk over one more entry is the walk so far followed by that entry's step |
| `Encryptors.EncryptFailureSticks` | lib/secure_data_bag/encryptor.rb:35-43 | once an exception is raised, later entries change nothing |
| `Encryptors.Encryptor.constructor` | lib/secure_data_bag/encryptor.rb:12-17 | a new encryptor holds its inputs and an empty `encoded_fields`, and has no memoised hash |
| `Encryptors.Encryptor.OpensslEncryptor` | lib/secure_data_bag/encryptor.rb:72-81 | an unknown cipher raises and changes nothing; otherwise the IV is the configured one or the random one, which is stored before OpenSSL sees it, then an IV and next a key (SHA-256 of the secret) that OpenSSL refuses raise in that order |
| `Encryptors.Encryptor.EncryptValue` | lib/secure_data_bag/encryptor.rb:47-58 | returns `EncryptedValue`; the `encryption` hash gains an IV exactly when a known cipher was created for a non-empty value, whether or not OpenSSL then accepts IV and key |
| `Encryptors.Encryptor.EncryptHash` | lib/secure_data_bag/encryptor.rb:34-45 | the in-place loop returns the walk's result, appends exactly the walk's touched keys to `encoded_fields`, and fixes the IV exactly when the walk set up a cipher |
| `Encryptors.Encryptor.EncryptEntryIn` | lib/secure_data_bag/encryptor.rb:36-42 | one loop step: a listed key is encrypted and recorded, an unlisted hash is walked recursively, anything else is kept; the cipher and IV in use stay the same |
| `Encryptors.Encryptor.EncryptedHash` | lib/secure_data_bag/encryptor.rb:27-32 | computed once on a copy of the input and remembered; a second call returns the remembered hash and changes nothing |
| `Encryptors.Encryptor.ForEncryptedItem` | lib/secure_data_bag/encryptor.rb:19-25 | a fresh encryptor returns the encrypted hash with the `encryption` entry: Base64 of the IV (of `""` when none), the cipher, and the de-duplicated keys actually encrypted |
| `Walkers.EncryptWalkSpec` | lib/secure_data_bag/encryptor.rb:34-58 | the walk fails exactly when some reached value needs a cipher and OpenSSL does not know the cipher or refuses its IV or key; otherwise it keeps keys and order, encrypts every listed value at any depth without descending into it, walks unlisted hashes, keeps the rest, records exactly the listed keys reached in visiting order, and sets up a cipher exactly when a reached value is non-empty |
| `Walkers.EncryptEntrySpec` | lib/secure_data_bag/encryptor.rb:36-42 | the same statement for one entry |
| `Walkers.EncryptNeverFails` | lib/secure_data_bag/encryptor.rb:72-75 | with a cipher OpenSSL knows and an IV and key it accepts, encryption never raises |
| `Walkers.RewritesKeys` | lib/secure_data_bag/encryptor.rb:42 | writing `hash[k] = v` for each entry keeps the top-level keys and their order |
| `Walkers.DecryptWalkSpec` | lib/secure_data_bag/decryptor.rb:42-52 | a successful decryption walk keeps keys and order, decrypts every listed value at any depth, walks unlisted hashes and keeps everything else |
| `Walkers.DecryptEntrySpec` | lib/secure_data_bag/decryptor.rb:43-49 | the same statement for one entry |
| `Walkers.ValueRoundTrip` | lib/secure_data_bag/decryptor.rb:54-66 | decrypting an encrypted value under the same key, cipher and Base64 IV gives back a hash or array itself and any other value as its `to_s` string, unless that string mentions `json_wrapper` |
| `Walkers.RoundTrip` | lib/secure_data_bag/decryptor.rb:42-66 | with a cipher OpenSSL sets up with the IV and key in use, decrypting `encrypt_hash`'s output with a field list that covers the keys encrypted and names no others succeeds and restores every listed value at any depth, with keys, order and unlisted values as they were |
| `Walkers.EntryRoundTrip` | lib/secure_data_bag/decryptor.rb:43-49 | the same statement for one entry |
| `Walkers.ScalarNotWrapped` | lib/secure_data_bag/encryptor.rb:64 | `to_s` of `nil`, a boolean or an integer never mentions `json_wrapper`, so those always round-trip to their string |
| `Decryptors.Unwrap` | lib/secure_data_bag/decryptor.rb:61 | text that does not parse raises; parsed `{json_wrapper: v}` gives `v` |
| `Decryptors.DecryptedValue` | lib/secure_data_bag/decryptor.rb:54-66 | a value that is not a string, or is empty, is returned unchanged; otherwise an unknown cipher raises `UnsupportedCipher`, then a key OpenSSL refuses raises `KeyRejected`, a missing IV raises, and a decoded IV it refuses raises |
| `Decryptors.DecryptWalkPrefix` | lib/secure_data_bag/decryptor.rb:43-50 | the walk over one more entry is the walk so far followed by that entry's step |
| `Decryptors.DecryptFailureSticks` | lib/secure_data_bag/decryptor.rb:43-50 | once an exception is raised, later entries change nothing |
| `Decryptors.AssertValidCipher` | lib/secure_data_bag/decryptor.rb:78-83 | the cipher is compared with itself, so the check never raises |
| `Decryptors.DecryptionError` | lib/secure_data_bag/decryptor.rb:22-27 | the message starts with `Error decrypting data bag value`, ends with `. Most likely the provided key is incorrect`, and holds `: '<msg>'` between them exactly when an exception is given |
| `Decryptors.Decryptor.constructor` | lib/secure_data_bag/decryptor.rb:11-16 | a new decryptor holds its inputs, has nothing memoised, and its cipher check passes |
| `Decryptors.Decryptor.Iv` | lib/secure_data_bag/decryptor.rb:29-34 | the IV is the Base64 decoding of `encryption[:iv]`, remembered; a missing IV raises |
| `Decryptors.Decryptor.OpensslDecryptor` | lib/secure_data_bag/decryptor.rb:68-76 | an unknown cipher raises; otherwise the key is SHA-256 of the secret and the IV is the decoded one, and OpenSSL refusing either raises, the key first |
| `Decryptors.Decryptor.DecryptValue` | lib/secure_data_bag/decryptor.rb:54-66 | returns `DecryptedValue` and keeps the memoised values consistent |
| `Decryptors.Decryptor.DecryptHash` | lib/secure_data_bag/decryptor.rb:42-52 | the in-place loop returns the decryption walk's result |
| `Decryptors.Decryptor.DecryptEntryIn` | lib/secure_data_bag/decryptor.rb:44-49 | one loop step, as the walk defines it |
| `Decryptors.Decryptor.DecryptedHash` | lib/secure_data_bag/decryptor.rb:36-40 | the decrypted copy of the input is remembered once it is computed |
| `Decryptors.Decryptor.ForDecryptedItem` | lib/secure_data_bag/decryptor.rb:18-20 | returns the decryption walk over the encrypted hash |
| `CheckEncrypted.PartiallyEncryptedIffPath` | lib/secure_data_bag/check_encrypted.rb:9-27 | the detector answers yes exactly when a path of non-`id` keys through nested hashes leads to a hash that looks encrypted |
| `CheckEncrypted.PartiallyEncryptedHasPath` | lib/secure_data_bag/check_encrypted.rb:14-16 | every yes comes with such a path |
| `CheckEncrypted.PathMakesPartiallyEncrypted` | lib/secure_data_bag/check_encrypted.rb:24-27 | every such path forces a yes |
| `CheckEncrypted.FoundBelow` | lib/secure_data_bag/check_encrypted.rb:26 | a path below a non-`id` hash entry extends to a path from the enclosing hash |
| `CheckEncrypted.IdIgnored` | lib/secure_data_bag/check_encrypted.rb:10 | deleting the `id` entry, or adding one with any value, never changes the answer |
| `CheckEncrypted.NonHashNeverCounts` | lib/secure_data_bag/check_encrypted.rb:25 | a value that is not a hash, such as an array or string, never counts, whatever it holds |
| `CheckEncrypted.FlatNeverPartiallyEncrypted` | lib/secure_data_bag/check_encrypted.rb:14-16 | a hash whose non-`id` values are not hashes is never partially encrypted |
| `CheckEncrypted.OnlyIdNotPartiallyEncrypted` | lib/secure_data_bag/check_encrypted.rb:10-16 | an empty hash, or one with only `id` entries, is not partially encrypted |
| `CheckEncrypted.NestedIdSkipped` | lib/secure_data_bag/check_encrypted.rb:26 | inside a nested hash an `id` entry is skipped too: only the detector's verdict on the nested hash itself counts |
| `Secrets.LStrip` | lib/secure_data_bag/secure_data_bag_item.rb:51 | a suffix of the text that drops only whitespace and starts with no whitespace |
| `Secrets.RStrip` | lib/secure_data_bag/secure_data_bag_item.rb:51 | a prefix of the text that drops only whitespace and ends with no whitespace |
| `Secrets.Strip` | lib/secure_data_bag/secure_data_bag_item.rb:51 | an infix of the text with only whitespace around it, neither starting nor ending with whitespace |
| `Secrets.StripEmpty` | lib/secure_data_bag/secure_data_bag_item.rb:54-56 | a key strips to nothing exactly when it is all whitespace |
| `Secrets.SchemeIsRemote` | lib/secure_data_bag/secure_data_bag_item.rb:39 | `scheme://rest` with a word scheme is classified as remote |
| `Secrets.NoColonNotRemote` | lib/secure_data_bag/secure_data_bag_item.rb:39 | a text without a colon, such as a plain file path, is never remote |
| `Secrets.LaterLineRemote` | lib/secure_data_bag/secure_data_bag_item.rb:39 | `^` matches after a newline, so a URL on any later line makes the secret remote |
| `Secrets.ReadKeyFile` | lib/secure_data_bag/secure_data_bag_item.rb:48-51 | a missing file raises `ENOENT` with its path; an existing one gives its stripped text |
| `Secrets.ReadKeyAsWritten` | lib/secure_data_bag/secure_data_bag_item.rb:38-52 | as written, a remote secret raises a NameError on `path`; any other is read as a file |
| `Secrets.RemoteKeyNeverRead` | lib/secure_data_bag/secure_data_bag_item.rb:41 | as written, no URL secret is ever fetched, whatever the network answers |
| `Secrets.ReadKey` | lib/secure_data_bag/secure_data_bag_item.rb:38-52 | a remote secret is fetched from the secret itself; a refused connection and an HTTP error each give their own error; a file secret is read as a file |
| `Secrets.RemoteSecretRaises` | lib/secure_data_bag/secure_data_bag_item.rb:33-58 | as written, the key block given a URL secret raises the NameError instead of yielding a key |
| `SecureDataBagItems.RemoteKeyRaises` | lib/secure_data_bag/secure_data_bag_item.rb:28-59 | as written, an item with no key whose secret (stored or configured) is a URL cannot yield a key |
| `Secrets.ReadKeyAgrees` | lib/secure_data_bag/secure_data_bag_item.rb:47-52 | the corrected reader and the one as written agree on every secret that is not remote |
| `Secrets.KeyFromSecret` | lib/secure_data_bag/secure_data_bag_item.rb:33-58 | no secret raises; a read failure under the chosen reading is passed on; an empty stripped key raises `invalid zero length secret`; otherwise the key is the read text, which neither starts nor ends with whitespace |
| `SecureDataBagItems.FieldNames` | lib/secure_data_bag/encryptor.rb:36 | `include?(k)` on the field array holds exactly for the string elements |
| `SecureDataBagItems.Assigned` | lib/secure_data_bag/secure_data_bag_item.rb:69-71 | `set_or_return` with `kind_of: String`: nil reads, a string writes, anything else fails validation |
| `SecureDataBagItems.CipherAssigned` | lib/secure_data_bag/secure_data_bag_item.rb:61-67 | with neither argument nor stored cipher, `aes-256-cbc` is stored; a string writes; anything else fails |
| `SecureDataBagItems.FieldsAssigned` | lib/secure_data_bag/secure_data_bag_item.rb:73-75 | nil reads, an array writes, anything else fails validation |
| `SecureDataBagItems.FieldsOr` | lib/secure_data_bag/secure_data_bag_item.rb:74 | the field list reads as the declared default `[]` until set, and as the stored list after |
| `SecureDataBagItems.Section` | lib/secure_data_bag/secure_data_bag_item.rb:96 | `delete(:encryption) \|\| {}`: a falsy section reads as empty, a hash as its entries, and anything else cannot be indexed |
| `SecureDataBagItems.SecretRead` | lib/secure_data_bag/secure_data_bag_item.rb:20-26 | a stored secret is returned; otherwise the configured secret is read and must be a string |
| `SecureDataBagItems.ItemHash` | lib/secure_data_bag/secure_data_bag_item.rb:125-130 | `to_hash` fails exactly when encoding does; it has `chef_type = "data_bag_item"` and the item's `data_bag`, and every other key as encoded |
| `SecureDataBagItems.EncryptFresh` | lib/secure_data_bag/secure_data_bag_item.rb:115 | a fresh encryptor's `for_encrypted_item`, as `EncryptedItem` defines it |
| `SecureDataBagItems.DecryptFresh` | lib/secure_data_bag/secure_data_bag_item.rb:109-110 | a fresh decryptor's `for_decrypted_item` is the decryption walk |
| `SecureDataBagItems.SecureDataBagItem.constructor` | lib/secure_data_bag/secure_data_bag_item.rb:6-16 | a new item is empty, not decoded, and has no secret, key, cipher, IV or field list |
| `SecureDataBagItems.SecureDataBagItem.Secret` | lib/secure_data_bag/secure_data_bag_item.rb:20-26 | with no stored secret and no argument the configured secret is validated and stored |
| `SecureDataBagItems.SecureDataBagItem.Key` | lib/secure_data_bag/secure_data_bag_item.rb:28-59 | an argument replaces the key; otherwise the key is read once from the secret and remembered, under the item's reading of the remote branch, and a configured secret read on the way is stored |
| `SecureDataBagItems.SecureDataBagItem.Cipher` | lib/secure_data_bag/secure_data_bag_item.rb:61-67 | returns and stores `CipherAssigned`; a failed validation changes nothing |
| `SecureDataBagItems.SecureDataBagItem.Iv` | lib/secure_data_bag/secure_data_bag_item.rb:69-71 | returns and stores `Assigned("iv", ...)` |
| `SecureDataBagItems.SecureDataBagItem.EncodedFields` | lib/secure_data_bag/secure_data_bag_item.rb:73-75 | returns the field list, `[]` when unset, and stores what `FieldsAssigned` gives |
| `SecureDataBagItems.SecureDataBagItem.ReportEncryption` | lib/secure_data_bag/secure_data_bag_item.rb:77-83 | exactly the item's IV, cipher (stored as the default when unset) and field list |
| `SecureDataBagItems.SecureDataBagItem.SetRawData` | lib/secure_data_bag/secure_data_bag_item.rb:92-105 | a non-hash is refused; a document without `encryption` is stored and marked decoded; one with it is stored without it, marked encoded, and its cipher, IV and field list are copied in, or the copy fails exactly when one of them has the wrong kind; a failed copy keeps what was copied before the failing field and leaves the rest as it was |
| `SecureDataBagItems.SecureDataBagItem.DecodeData` | lib/secure_data_bag/secure_data_bag_item.rb:107-112 | the stored document decrypted with the reported encryption and the key |
| `SecureDataBagItems.SecureDataBagItem.RawData` | lib/secure_data_bag/secure_data_bag_item.rb:85-90 | a decoded item returns its document unchanged; any other decrypts and stores the result and, as written, stays encoded |
| `SecureDataBagItems.SecureDataBagItem.EncodeData` | lib/secure_data_bag/secure_data_bag_item.rb:114-116 | the (decoded) document run through a fresh encryptor |
| `SecureDataBagItems.SecureDataBagItem.ToHash` | lib/secure_data_bag/secure_data_bag_item.rb:125-130 | the encoded data with `chef_type` and `data_bag` set and every other key as encoded |
| `SecureDataBagItems.FromHashState` | lib/secure_data_bag/secure_data_bag_item.rb:92-105 | a document without `encryption` gives a decoded item holding it; one with it gives an encoded item holding the rest, with the cipher (the default when unnamed), IV and field list of its `encryption` entry, and fails exactly when that entry or one of those three has the wrong kind |
| `SecureDataBagItems.FromHash` | lib/secure_data_bag/secure_data_bag_item.rb:118-123 | a new item whose `raw_data` is assigned the document; it fails exactly when that assignment does |
| `SecureDataBagItems.EmptyIvRejected` | lib/secure_data_bag/secure_data_bag_item.rb:92-130 | an item read back by `from_hash` from a document with `iv` `""`, the IV `for_encrypted_item` writes when nothing was encrypted, keeps that IV, and after `raw_data=` with a non-empty listed value its `to_hash` raises `IvRejected` where OpenSSL refuses the empty IV |
| `ItemRoundTrip.Exported` | lib/secure_data_bag/secure_data_bag_item.rb:125-130 | for a decoded item whose cipher OpenSSL knows and whose IV and key it accepts, `to_hash` is the encrypted document, then `encryption`, `chef_type` and `data_bag` |
| `ItemRoundTrip.Imported` | lib/secure_data_bag/secure_data_bag_item.rb:92-105 | `from_hash` on such an export copies the written cipher, Base64 IV and field list into an encoded item holding the rest |
| `ItemRoundTrip.ContextsAgree` | lib/secure_data_bag/encryptor.rb:19-25 | the decryption context read back has the encryptor's cipher, secret and IV, and a field list that covers exactly keys that were listed |
| `ItemRoundTrip.DecryptedBack` | lib/secure_data_bag/decryptor.rb:42-52 | decrypting the read-back document restores the encrypted part and passes the added entries through |
| `ItemRoundTrip.ExportThenImport` | lib/secure_data_bag/secure_data_bag_item.rb:85-130 | `to_hash`, then `from_hash`, then `raw_data` with the same key gives the item's document with every listed value restored, followed by `chef_type` and `data_bag` |
| `ItemRoundTrip.DecryptPlainTail` | lib/secure_data_bag/decryptor.rb:43-50 | unlisted entries that are not hashes pass through decryption as they are |
| `ItemRoundTrip.StrListNames` | lib/secure_data_bag/encryptor.rb:23 | the names in the written field list are exactly the keys written |
| `Items.SecretPath` | lib/secure_data_bag/item.rb:14-18 | the path given, else the knife `secret_file`, else `encrypted_data_bag_secret` |
| `Items.Uniq` | lib/secure_data_bag/item.rb:101-105 | `uniq` on an array keeps exactly its elements, each once; a hash gives exactly its `[key, value]` pairs, each once; anything else has no `uniq` |
| `Items.Initial` | lib/secure_data_bag/item.rb:77-109 | the version defaults to the library's; the two formats and the secret path are the options'; a truthy secret is stored and a falsy one is not; the keys to encrypt come from the options, else the configuration, else none, without repeats, and a value with no `uniq` raises |
| `Items.Metadata` | lib/secure_data_bag/item.rb:139-146 | exactly `encryption_format`, `decryption_format`, `encrypted_keys` and `version`, with the item's values |
| `Items.SecretOutcome` | lib/secure_data_bag/item.rb:131-134 | a stored secret is returned; otherwise one is loaded from the item's path |
| `Items.SecretMemoised` | lib/secure_data_bag/item.rb:133 | a loaded secret is remembered and returned again without loading |
| `Items.AfterRawDataDistinct` | lib/secure_data_bag/item.rb:152-156 | assigning raw data keeps the keys to encrypt free of repeats |
| `Items.SavedKeys` | lib/secure_data_bag/item.rb:214 | saving a decryption keeps the old keys first and in order and adds each found key once, and nothing else |
| `Items.EncryptOutcome` | lib/secure_data_bag/item.rb:228-236 | succeeds exactly when the secret and the encryptor do; `id` and `data_bag` are the plaintext values of the raw data; every other key is as encrypted |
| `Items.DataOut` | lib/secure_data_bag/item.rb:162-167 | the raw data, encrypted when `encrypt` is truthy; it fails exactly when that encryption does; `metadata` truthy adds the metadata key and leaves every other key as it was |
| `Items.HashOut` | lib/secure_data_bag/item.rb:173-179 | `to_data` with `chef_type = "data_bag_item"` and `data_bag` as a string; every other key as `to_data` gives it |
| `Items.WithoutChefKeys` | lib/secure_data_bag/item.rb:45-47 | the copy loses `chef_type` and `json_class` and keeps everything else |
| `Items.ItemOptions` | lib/secure_data_bag/item.rb:49-50 | the embedded metadata, with every key of `opts` overriding it and every other key as embedded; a truthy metadata value that is not a hash is refused, and nothing else is |
| `Items.ItemData` | lib/secure_data_bag/item.rb:45-54 | the data without `chef_type`, `json_class`, the metadata key and `data_bag`, everything else kept |
| `Items.MetadataRoundTrip` | lib/secure_data_bag/item.rb:86-105 | metadata read back by `new` restores the version, both formats and the keys to encrypt |
| `Items.MetadataReadBack` | lib/secure_data_bag/item.rb:49 | a document holding metadata still yields it after `to_hash` adds `chef_type` and `data_bag` |
| `Items.MetadataSurvivesExport` | lib/secure_data_bag/item.rb:173-179 | what `to_hash(metadata: true)` writes is what `from_hash` reads as the item's options |
| `Items.Item.constructor` | lib/secure_data_bag/item.rb:77-109 | an item holding the given fields |
| `Items.Item.Secret` | lib/secure_data_bag/item.rb:131-134 | an argument replaces the secret; a missing one is loaded once and remembered |
| `Items.Item.DataBag` | lib/secure_data_bag/item.rb:53 | Chef's `data_bag` accessor: nil reads, a string writes |
| `Items.Item.DecryptData` | lib/secure_data_bag/item.rb:211-217 | returns the decrypted hash; when saving, the keys found join the keys to encrypt and the format is recorded |
| `Items.Item.SetRawData` | lib/secure_data_bag/item.rb:152-156 | the metadata key is dropped, the rest decrypted and saved, and the result stored |
| `Items.Item.EncryptData` | lib/secure_data_bag/item.rb:228-236 | returns `EncryptOutcome` and remembers the secret |
| `Items.Item.ToData` | lib/secure_data_bag/item.rb:162-167 | returns `DataOut`; unencrypted, the metadata is written into the raw data itself |
| `Items.Item.ToHash` | lib/secure_data_bag/item.rb:173-179 | returns `HashOut`; unencrypted, the added keys land in the raw data itself |
| `Items.NewItem` | lib/secure_data_bag/item.rb:77-109 | `new(opts)` fails exactly when the initial state or the first data assignment does, and otherwise holds that state |
| `Items.FromHash` | lib/secure_data_bag/item.rb:44-56 | an item configured by the embedded metadata and `opts`, with its bag set from `data_bag`, holding the rest (or its nested `raw_data`) as raw data |
| `Defaults.DefaultsFor` | lib/chef/knife/secure_data_bag/defaults_mixin.rb:24-28 | a falsy section, `defaults` entry or bag entry gives `{}`; indexing a non-hash raises; any truthy bag entry is returned as it is |
| `Defaults.BlockArgs` | lib/chef/knife/secure_data_bag/defaults_mixin.rb:11-12 | `\|key, value\|` splits an array element into its first two elements (nil when missing) and takes any other element as a key with a nil value; only a string key survives `to_sym` |
| `Defaults.StepsComplete` | lib/chef/knife/secure_data_bag/defaults_mixin.rb:11-15 | `each` runs to the end exactly when every element gives a key, and the block then sees one pair per element, in order |
| `Defaults.StepsFailureSticks` | lib/chef/knife/secure_data_bag/defaults_mixin.rb:11-15 | once an element raises, the later ones are never reached |
| `Defaults.StepsOfPairs` | lib/chef/knife/secure_data_bag/defaults_mixin.rb:11 | iterating a hash gives the block its entries, in order, and never raises |
| `Defaults.HashDefaults` | lib/chef/knife/secure_data_bag/defaults_mixin.rb:10-16 | hash defaults are answered as they are and applied entry by entry |
| `Defaults.BareNameDefault` | lib/chef/knife/secure_data_bag/defaults_mixin.rb:10-16 | array defaults `["secret_file"]` set an unset declared `secret_file` to nil and are answered as they are |
| `Defaults.NamelessElementRaises` | lib/chef/knife/secure_data_bag/defaults_mixin.rb:10-16 | an element with no string key raises `NoMethodError` after the writes of the elements before it |
| `Defaults.ApplyDefaultsKeeps` | lib/chef/knife/secure_data_bag/defaults_mixin.rb:12-13 | keys that are not declared options are never written, and set values are never overwritten |
| `Defaults.ApplyDefaultsUntouched` | lib/chef/knife/secure_data_bag/defaults_mixin.rb:11-15 | keys the defaults do not mention are untouched |
| `Defaults.ApplyDefaultsDomain` | lib/chef/knife/secure_data_bag/defaults_mixin.rb:11-15 | the keys afterwards are those configured before and the declared options that have a default |
| `Defaults.ApplyDefaultsFills` | lib/chef/knife/secure_data_bag/defaults_mixin.rb:13 | an unset declared option takes its default |
| `Defaults.KnifeCommand.ConfigDefaultsForDataBag` | lib/chef/knife/secure_data_bag/defaults_mixin.rb:10-16 | the loop leaves the configuration as the fold of `config[key] \|\|= value` over the pairs the block sees, for a hash or an array alike; it answers the defaults; when reading them or calling `each` raises, the configuration is unchanged, and when an element raises, the earlier writes stay |
| `Values.Put` | lib/secure_data_bag/encryptor.rb:42 | `hash[k] = v`: `k` maps to `v` and every other key is unchanged |
| `Values.PutKeys` | lib/secure_data_bag/encryptor.rb:42 | an existing key keeps its place, a new key is appended, and keys stay distinct |
| `Values.Delete` | lib/secure_data_bag/item.rb:46-47 | `delete(k)`: `k` is gone and every other key is unchanged |
| `Values.DeleteMembers` | lib/secure_data_bag/item.rb:46-47 | the remaining entries are exactly the entries under other keys |
| `Values.DeleteOnly` | lib/secure_data_bag/secure_data_bag_item.rb:96 | deleting the only entry for a key closes the gap it leaves |
| `Values.DeleteKeys` | lib/secure_data_bag/item.rb:46-53 | deleting several keys in turn removes exactly those keys |
| `Values.Merge` | lib/secure_data_bag/item.rb:50 | `merge`: every key of the second hash takes its value there, every other key keeps its value in the first |
| `Values.Dedup` | lib/secure_data_bag/item.rb:105 | `uniq`: no repeats, exactly the same elements |
| `Values.DedupInOrder` | lib/secure_data_bag/item.rb:105 | `uniq` keeps the elements in the order in which each first occurs |
| `Values.DedupKeepsPrefix` | lib/secure_data_bag/item.rb:214 | `concat(...).uniq!` keeps a repeat-free prefix as it was |
| `Values.ScalarToS` | lib/secure_data_bag/encryptor.rb:64 | `to_s` of a string is itself and of `nil` is `""`; of a boolean or an integer it is non-empty text made of digits, a sign and the letters of `true`/`false` |

## Left out

- OpenSSL, SHA-256, Base64 and FFI_Yajl are foreign code. They are the functions of `Crypto.Primitives`. Only the laws in `Crypto.Lawful` are known about them, and only where a proof needs them.
- OpenSSL's `random_iv` is randomness. It is the `randomIv` parameter of the encryptor.
- Reading secret files and fetching URLs is I/O. It is `Secrets.SecretSources`.
- `Chef::EncryptedDataBagItem.load_secret` is Chef's own code. It is `Items.Codec.loadSecret`.
- `Chef::Config` lookups are configuration. They are fields of each module's `Env` or of `Defaults.KnifeCommand`.
- `SecureDataBag::Decryptor.for`, `SecureDataBag::Encryptor.new` and their `decrypt!`, `encrypt!`, `decrypted_hash`, `decrypted_keys` and `format` belong to classes of the version-3 format. Their sources are not part of this model, so they are the `Items.Codec` functions.
- `SecureDataBag::METADATA_KEY` and `SecureDataBag::VERSION` are defined in files that are not part of this model.
  - The metadata key is the constant `"_metadata"`.
  - The version is a field of `Items.Env`.
- `set_or_return` is Chef's accessor helper, modelled as a getter/setter with a kind check. The regular-expression check Chef applies to `data_bag` names is left out, and so is `validate_id!`.
- `Chef::DataBagItem#raw_data=` is modelled only as far as this code depends on it: a hash is stored and anything else is refused.
- `Mash` key indifference is left out. Keys are strings, and `:encryption` and `"encryption"` are one key.
- `Items.ItemOptions` and `Items.AfterRawData`: a non-hash `_metadata` value or raw data is refused with `NotAHash`. Chef's `Mash.new` of a non-hash gives an empty Mash with that value as its default, and the next `Mash.new` drops the default, so the source takes such a value as empty. Chef's `Mash` is not part of this model.
- `SecureDataBagItems.FieldsOr`: follows the declared `default: []` of `encoded_fields`. `initialize` sets `@encoded_fields = nil`. In a Chef whose `set_or_return` returns any defined instance variable, nil included, the field list would read as nil until set. Then `include?` in the encryptor and decryptor would raise on any non-empty document. Chef's `set_or_return` is not part of this model.
- Float values are left out. Ruby's `to_s` of a float has no counterpart in the model's values.
- `SecureDataBagItem#to_json` and `Item#to_json` are JSON serialisation of what `encode_data` and `encrypt_data` give, which are modelled. They are left out.
- `Item.load` fetches an item from the Chef server, which is I/O. It is left out.
- `Item.from_item` is `from_hash(data_bag_item.to_hash, opts)` over a Chef object. It is left out.
- `Item#encrypt_data!` passes `save:` to `encrypt_data`, whose keyword is `_save:`, so any call would raise `ArgumentError`. Nothing calls it, and it is left out.
- `Item#encrypted_keys=` and the other `attr_accessor` setters are plain field writes. They are left out, and the methods read the fields directly.
- The `pp "encrypted_hash"` debug print in `Encryptor#encrypted_hash` writes to standard output. It is left out.
- Aliasing is not captured. The walkers rebuild the hash as a value, so three things that happen in Ruby are not modelled:
  - the nested hashes of the caller's document are rewritten in place through the shallow `dup`;
  - `encryption[:iv] ||=` writes into the `encryption` hash the item handed over;
  - `Item#to_data` without encryption returns the raw data hash itself.
    `Items.AfterExport` models that one write explicitly.
- The Chef superclass behaviour, the knife subcommands, the other mixins and the DSL helpers are CLI wiring, REST calls and editor UI. They are not part of this model.
- `ItemRoundTrip.ExportThenImport`: requires that the document holds no `encryption`, `chef_type` or `data_bag` key. It also requires that those keys are not listed, and that no listed string mentions `json_wrapper`. Without these conditions the round trip does not hold in the source either.
- `Walkers.ValueRoundTrip`: a listed string that mentions `json_wrapper` is parsed on decryption in the source, so it does not come back. This lemma excludes such strings rather than describing what comes back.
- `Decryptors.DecryptedValue`: for a string whose decryption succeeds, the contract states only the error cases. `Walkers.ValueRoundTrip` states what comes back for an encrypted value.

## Findings

| source | as written | input that shows it | evidently intended | confidence | as-written member | corrected member |
|---|---|---|---|---|---|---|
| lib/secure_data_bag/secure_data_bag_item.rb:41 | the remote-key branch calls `Kernel.open(path)`, but nothing defines `path`, so a NameError is raised that neither rescue clause catches | a secret `https://example.org/key` | open the secret itself, `Kernel.open(secret)`, as the rescue messages quoting `secret` show | high, by reading; not executed | `Secrets.RemoteKeyNeverRead` | `Secrets.ReadKey` |
