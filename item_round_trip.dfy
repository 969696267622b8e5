/**
 * The round trip through a `Chef::SecureDataBagItem`: a decoded item
 * exported with `to_hash` and read back with `from_hash` decrypts to the
 * document it held, plus the `chef_type` and `data_bag` entries the export
 * adds.
 */
module ItemRoundTrip {
  import opened Results
  import opened Values
  import opened Crypto
  import opened SecureDataBagItems
  import opened Walkers
  import E = Encryptors
  import D = Decryptors

  /** The names of an `encoded_fields` array written from `ks` are the elements of `ks`. */
  lemma StrListNames(ks: seq<string>)
    ensures forall k :: k in FieldNames(E.StrList(ks)) <==> k in ks
  {
    var vs := E.StrList(ks);
    forall k ensures Str(k) in vs <==> k in ks {
      if Str(k) in vs {
        var i :| 0 <= i < |vs| && vs[i] == Str(k);
        assert ks[i] == k;
      }
      if k in ks {
        var i :| 0 <= i < |ks| && ks[i] == k;
        assert vs[i] == Str(k);
      }
    }
  }

  /** Every entry the walkers reach is under a listed key. */
  lemma {:induction false} ReachedListed(fields: seq<string>, h: seq<Entry>)
    ensures forall x :: x in Reached(fields, h) ==> x.key in fields
    decreases h
  {
    if h != [] {
      ReachedListed(fields, h[..|h| - 1]);
      EntryReachedListed(fields, h[|h| - 1]);
    }
  }

  lemma {:induction false} EntryReachedListed(fields: seq<string>, e: Entry)
    ensures forall x :: x in EntryReached(fields, e) ==> x.key in fields
    decreases e
  {
    if e.key !in fields && e.val.Hash? {
      ReachedListed(fields, e.val.entries);
    }
  }

  /** Unlisted entries that are not hashes, appended to a hash, come out of decryption as they are. */
  lemma {:induction false} DecryptPlainTail(d: D.Context, a: seq<Entry>, tail: seq<Entry>)
    requires D.DecryptWalk(d, a).Ok?
    requires forall x :: x in tail ==> x.key !in d.fields && !x.val.Hash?
    ensures D.DecryptWalk(d, a + tail) == Ok(D.DecryptWalk(d, a).value + tail)
    decreases |tail|
  {
    if tail != [] {
      var init, last := tail[..|tail| - 1], tail[|tail| - 1];
      assert (a + tail)[..|a + tail| - 1] == a + init;
      assert (a + tail)[|a + tail| - 1] == last;
      DecryptPlainTail(d, a, init);
      assert last in tail;
      assert D.DecryptEntry(d, last) == Ok(last);
      var h := a + tail;
      assert h != [] && h[..|h| - 1] == a + init && h[|h| - 1] == last;
      assert D.DecryptWalk(d, h) == Ok(D.DecryptWalk(d, a + init).value + [last]);
      assert D.DecryptWalk(d, a).value + init + [last] == D.DecryptWalk(d, a).value + tail;
    } else {
      assert a + tail == a && D.DecryptWalk(d, a).value + tail == D.DecryptWalk(d, a).value;
    }
  }

  /** The `encryption` entry `for_encrypted_item` writes, as `from_hash` reads it back. */
  lemma SectionReadBack(p: Primitives, e: Encryption, touched: seq<string>)
    ensures var entry := E.EncryptionEntry(e, touched, p);
      && Section(entry) == Ok(entry.entries)
      && Lookup(entry.entries, "cipher") == Str(e.cipher)
      && Lookup(entry.entries, "iv") == Str(IvText(p, e))
      && Lookup(entry.entries, "encoded_fields") == Arr(E.StrList(Dedup(touched)))
  {
    var es := E.EncryptionEntry(e, touched, p).entries;
    assert es[1..] == [es[1], es[2]];
    assert es[1..][1..] == [es[2]];
  }

  /** A new key written into a hash is appended. */
  lemma PutAppends(x: seq<Entry>, a: Entry)
    requires !HasKey(x, a.key)
    ensures Put(x, a.key, a.val) == x + [a]
    ensures forall k :: k != a.key ==> (HasKey(x + [a], k) <==> HasKey(x, k))
  {
    PutKeys(x, a.key, a.val);
    forall k | k != a.key ensures HasKey(x + [a], k) <==> HasKey(x, k) {
      KeysHasKey(x, k);
      KeysHasKey(x + [a], k);
      KeysAppend(x, [a]);
    }
  }

  /** Three new keys written into a hash are appended in order. */
  lemma PutsAppend(x: seq<Entry>, a: Entry, b: Entry, c: Entry)
    requires !HasKey(x, a.key) && !HasKey(x, b.key) && !HasKey(x, c.key)
    requires a.key != b.key && a.key != c.key && b.key != c.key
    ensures Put(Put(Put(x, a.key, a.val), b.key, b.val), c.key, c.val) == x + [a, b, c]
  {
    PutAppends(x, a);
    PutAppends(x + [a], b);
    PutAppends(x + [a] + [b], c);
    assert x + [a] + [b] + [c] == x + [a, b, c];
  }

  /** The encryption walk over a decoded item's document, when OpenSSL sets the cipher up. */
  lemma WalkFacts(c: E.Context, h: seq<Entry>)
    requires E.Ready(c)
    requires !HasKey(h, "encryption") && !HasKey(h, "chef_type") && !HasKey(h, "data_bag")
    ensures var w := E.EncryptWalk(c, h);
      && w.failure.None?
      && !HasKey(w.hash, "encryption") && !HasKey(w.hash, "chef_type") && !HasKey(w.hash, "data_bag")
  {
    var w := E.EncryptWalk(c, h);
    EncryptWalkSpec(c, h);
    RewritesKeys(c.fields, Encrypting(c), h, w.hash);
    KeysHasKey(w.hash, "encryption");
    KeysHasKey(h, "encryption");
    KeysHasKey(w.hash, "chef_type");
    KeysHasKey(h, "chef_type");
    KeysHasKey(w.hash, "data_bag");
    KeysHasKey(h, "data_bag");
  }

  /** The document `to_hash` exports from a decoded item, when OpenSSL sets the cipher up. */
  lemma Exported(env: Env, s: State, randomIv: string)
    requires s.decoded && KeyOutcome(env, s).Ok?
    requires E.Ready(E.ContextOf(env.prim, Reported(s), KeyOutcome(env, s).value, randomIv))
    requires !HasKey(s.rawData, "encryption") && !HasKey(s.rawData, "chef_type") && !HasKey(s.rawData, "data_bag")
    ensures var c := E.ContextOf(env.prim, Reported(s), KeyOutcome(env, s).value, randomIv);
      var w := E.EncryptWalk(c, s.rawData);
      var e' := if w.used then E.AfterSetup(Reported(s), randomIv) else Reported(s);
      && w.failure.None?
      && !HasKey(w.hash, "encryption")
      && ItemHash(env, s, randomIv) == Ok(w.hash + [
           Entry("encryption", E.EncryptionEntry(e', w.touched, env.prim)),
           Entry("chef_type", Str("data_bag_item")),
           Entry("data_bag", DataBagValue(s.dataBag))])
  {
    var c := E.ContextOf(env.prim, Reported(s), KeyOutcome(env, s).value, randomIv);
    var w := E.EncryptWalk(c, s.rawData);
    var e' := if w.used then E.AfterSetup(Reported(s), randomIv) else Reported(s);
    WalkFacts(c, s.rawData);
    PutsAppend(w.hash,
      Entry("encryption", E.EncryptionEntry(e', w.touched, env.prim)),
      Entry("chef_type", Str("data_bag_item")),
      Entry("data_bag", DataBagValue(s.dataBag)));
  }

  /** The `encryption` entry `for_encrypted_item` writes, as `from_hash` reads it back. */
  function IvText(p: Primitives, e: Encryption): string {
    p.base64Encode(if e.iv.Some? then e.iv.value else "")
  }

  /** `from_hash` on an exported document: the `encryption` entry becomes the item's cipher, IV and field list. */
  lemma Imported(x: seq<Entry>, p: Primitives, e: Encryption, touched: seq<string>, tail: seq<Entry>)
    requires !HasKey(x, "encryption") && !HasKey(tail, "encryption")
    ensures FromHashState(x + [Entry("encryption", E.EncryptionEntry(e, touched, p))] + tail)
      == Ok(State(x + tail, None, false, None, None, Some(e.cipher), Some(IvText(p, e)), Some(E.StrList(Dedup(touched)))))
  {
    var entry := E.EncryptionEntry(e, touched, p);
    var out := x + [Entry("encryption", entry)] + tail;
    DeleteOnly(x, "encryption", entry, tail);
    AppendGet(x, "encryption", entry);
    GetConcat(x + [Entry("encryption", entry)], tail, "encryption");
    SectionReadBack(p, e, touched);
  }

  /** A field list written from the keys of listed entries names exactly listed keys, and all of those entries. */
  lemma ListedNames(fields: seq<string>, rs: seq<Entry>)
    requires forall x :: x in rs ==> x.key in fields
    ensures var names := FieldNames(E.StrList(Dedup(Keys(rs))));
      && (forall k :: k in names ==> k in fields)
      && (forall x :: x in rs ==> x.key in names)
  {
    StrListNames(Dedup(Keys(rs)));
    KeysHasKeyAll(rs);
    forall k | k in Keys(rs) ensures k in fields {
      var i :| 0 <= i < |rs| && Keys(rs)[i] == k;
      assert rs[i] in rs;
    }
  }

  /** The decryption context of the item read back agrees with the encryption context that wrote it. */
  lemma ContextsAgree(c: E.Context, h: seq<Entry>, e: Encryption, random: string)
    requires c == E.ContextOf(c.p, e, c.secret, random) && E.Ready(c)
    ensures var w := E.EncryptWalk(c, h);
      var e' := if w.used then E.AfterSetup(e, random) else e;
      var d := D.Context(c.p, e'.cipher, c.secret, Some(IvText(c.p, e')), FieldNames(E.StrList(Dedup(w.touched))));
      && Matches(c, d)
      && (w.used ==> SameIv(c, d))
      && Covers(c, d, Reached(c.fields, h))
  {
    var w := E.EncryptWalk(c, h);
    EncryptWalkSpec(c, h);
    var rs := Reached(c.fields, h);
    assert w.touched == Keys(rs);
    ReachedListed(c.fields, h);
    ListedNames(c.fields, rs);
  }

  /** Decrypting the document read back: the walk over the encrypted part, then the added entries as they are. */
  lemma DecryptedBack(c: E.Context, d: D.Context, h: seq<Entry>, tail: seq<Entry>)
    requires Lawful(c.p) && E.Ready(c) && Matches(c, d)
    requires E.EncryptWalk(c, h).used ==> SameIv(c, d)
    requires PlainStrings(Reached(c.fields, h)) && Covers(c, d, Reached(c.fields, h))
    requires forall x :: x in tail ==> x.key !in c.fields && !x.val.Hash?
    ensures var r := D.DecryptWalk(d, E.EncryptWalk(c, h).hash + tail);
      && r.Ok? && |r.value| == |h| + |tail|
      && Rewrites(c.fields, Restoring, h, r.value[..|h|])
      && r.value[|h|..] == tail
  {
    var w := E.EncryptWalk(c, h);
    RoundTrip(c, d, h);
    var r0 := D.DecryptWalk(d, w.hash).value;
    DecryptPlainTail(d, w.hash, tail);
    RewritesKeys(c.fields, Restoring, h, r0);
    assert (r0 + tail)[..|h|] == r0 && (r0 + tail)[|h|..] == tail;
  }

  /** What reading back a `to_hash` export and decrypting it yields. */
  function Reimported(env: Env, s: State, randomIv: string): Result<seq<Entry>> {
    var out :- ItemHash(env, s, randomIv);
    var t :- FromHashState(out);
    DecodedData(env, t)
  }

  /** The entries `to_hash` adds after the `encryption` entry. */
  function Added(bag: Option<string>): seq<Entry> {
    [Entry("chef_type", Str("data_bag_item")), Entry("data_bag", DataBagValue(bag))]
  }

  /** The added entries are plain values under unlisted keys, and none of them is `encryption`. */
  lemma AddedPlain(fields: seq<string>, bag: Option<string>)
    requires "chef_type" !in fields && "data_bag" !in fields
    ensures forall x :: x in Added(bag) ==> x.key !in fields && !x.val.Hash?
    ensures !HasKey(Added(bag), "encryption")
  {
  }

  lemma SplitFirst(x: seq<Entry>, a: Entry, tail: seq<Entry>)
    requires |tail| == 2
    ensures x + [a, tail[0], tail[1]] == x + [a] + tail
  {
  }

  /**
   * A decoded item exported with `to_hash` and read back with `from_hash`
   * decrypts, with the same key, to its document with every listed value
   * restored as `RoundTripValue` says and everything else as it was,
   * followed by the `chef_type` and `data_bag` entries the export added.
   * The key must come from the same configured secret, the document must
   * not hold the three keys the export writes, those keys must not be
   * listed, and no listed string may mention `json_wrapper`.
   */
  lemma ExportThenImport(env: Env, s: State, randomIv: string)
    requires Lawful(env.prim)
    requires s.decoded && s.key.None? && s.secret.None? && KeyOutcome(env, s).Ok?
    requires E.Ready(E.ContextOf(env.prim, Reported(s), KeyOutcome(env, s).value, randomIv))
    requires !HasKey(s.rawData, "encryption") && !HasKey(s.rawData, "chef_type") && !HasKey(s.rawData, "data_bag")
    requires "chef_type" !in Reported(s).encodedFields && "data_bag" !in Reported(s).encodedFields
    requires PlainStrings(Reached(Reported(s).encodedFields, s.rawData))
    ensures var r := Reimported(env, s, randomIv);
      && r.Ok? && |r.value| == |s.rawData| + 2
      && Rewrites(Reported(s).encodedFields, Restoring, s.rawData, r.value[..|s.rawData|])
      && r.value[|s.rawData|..] == Added(s.dataBag)
  {
    var p, h, e := env.prim, s.rawData, Reported(s);
    var key := KeyOutcome(env, s).value;
    var c := E.ContextOf(p, e, key, randomIv);
    var w := E.EncryptWalk(c, h);
    var e' := if w.used then E.AfterSetup(e, randomIv) else e;
    var tail := Added(s.dataBag);
    Exported(env, s, randomIv);
    SplitFirst(w.hash, Entry("encryption", E.EncryptionEntry(e', w.touched, p)), tail);
    AddedPlain(e.encodedFields, s.dataBag);
    Imported(w.hash, p, e', w.touched, tail);
    var t := State(w.hash + tail, None, false, None, None, Some(e'.cipher), Some(IvText(p, e')), Some(E.StrList(Dedup(w.touched))));
    assert KeyOutcome(env, t) == KeyOutcome(env, s);
    ContextsAgree(c, h, e, randomIv);
    var d := D.Context(p, e'.cipher, key, Some(IvText(p, e')), FieldNames(E.StrList(Dedup(w.touched))));
    assert D.ContextOf(p, Reported(t), key) == d;
    DecryptedBack(c, d, h, tail);
  }

  lemma KeysHasKeyAll(h: seq<Entry>)
    ensures forall x :: x in h ==> x.key in Keys(h)
  {
    forall x | x in h ensures x.key in Keys(h) {
      var i :| 0 <= i < |h| && h[i] == x;
      assert Keys(h)[i] == x.key;
    }
  }
}
