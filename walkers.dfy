/**
 * What the two field walkers do, stated independently of how they walk:
 * which entries they reach, how they rewrite a hash, which keys they
 * record, when they fail, and when decrypting undoes encrypting.
 */
module Walkers {
  import opened Results
  import opened Values
  import opened Crypto
  import E = Encryptors
  import D = Decryptors

  /**
   * The entries the walkers treat as listed, in depth-first order: a listed
   * key is taken whole, an unlisted key with a hash value is searched.
   */
  function Reached(fields: seq<string>, h: seq<Entry>): seq<Entry>
    decreases h
  {
    if h == [] then [] else Reached(fields, h[..|h| - 1]) + EntryReached(fields, h[|h| - 1])
  }

  function EntryReached(fields: seq<string>, e: Entry): seq<Entry>
    decreases e
  {
    if e.key in fields then [e]
    else if e.val.Hash? then Reached(fields, e.val.entries)
    else []
  }

  /** What a walk does to one listed value. */
  datatype Rewrite = Encrypting(ec: E.Context) | Decrypting(dc: D.Context) | Restoring

  /**
   * The value that comes back out of decryption: structures survive the
   * JSON wrapper, anything else comes back as its `to_s` string.
   */
  function RoundTripValue(v: Value): Value {
    if v.Hash? || v.Arr? then v else Str(ScalarToS(v))
  }

  function Apply(rw: Rewrite, v: Value): Result<Value> {
    match rw
    case Encrypting(c) => E.EncryptedValue(c, v)
    case Decrypting(c) => D.DecryptedValue(c, v)
    case Restoring => Ok(RoundTripValue(v))
  }

  /**
   * `r` is `h` with the same keys in the same order, every listed value
   * rewritten, every unlisted hash rewritten recursively and every other
   * value kept.
   */
  predicate Rewrites(fields: seq<string>, rw: Rewrite, h: seq<Entry>, r: seq<Entry>)
    decreases h
  {
    |r| == |h| && forall i :: 0 <= i < |h| ==> EntryRewrites(fields, rw, h[i], r[i])
  }

  predicate EntryRewrites(fields: seq<string>, rw: Rewrite, e: Entry, e': Entry)
    decreases e
  {
    && e'.key == e.key
    && if e.key in fields then Apply(rw, e.val) == Ok(e'.val)
       else if e.val.Hash? then e'.val.Hash? && Rewrites(fields, rw, e.val.entries, e'.val.entries)
       else e'.val == e.val
  }

  lemma KeysAppend(a: seq<Entry>, b: seq<Entry>)
    ensures Keys(a + b) == Keys(a) + Keys(b)
  {
    assert |Keys(a + b)| == |Keys(a) + Keys(b)|;
    forall i | 0 <= i < |a + b|
      ensures Keys(a + b)[i] == (Keys(a) + Keys(b))[i]
    {
      if i >= |a| {
        assert (a + b)[i] == b[i - |a|];
      }
    }
  }

  /** A rewrite keeps the top-level keys and their order. */
  lemma RewritesKeys(fields: seq<string>, rw: Rewrite, h: seq<Entry>, r: seq<Entry>)
    requires Rewrites(fields, rw, h, r)
    ensures Keys(r) == Keys(h)
  {
    assert forall i :: 0 <= i < |h| ==> Keys(r)[i] == Keys(h)[i] by {
      forall i | 0 <= i < |h| ensures Keys(r)[i] == Keys(h)[i] {
        assert EntryRewrites(fields, rw, h[i], r[i]);
      }
    }
  }

  lemma RewritesSnoc(fields: seq<string>, rw: Rewrite, h: seq<Entry>, pre: seq<Entry>, e': Entry)
    requires h != []
    requires Rewrites(fields, rw, h[..|h| - 1], pre)
    requires EntryRewrites(fields, rw, h[|h| - 1], e')
    ensures Rewrites(fields, rw, h, pre + [e'])
  {
    var n := |h| - 1;
    forall i | 0 <= i < |h| ensures EntryRewrites(fields, rw, h[i], (pre + [e'])[i]) {
      if i < n {
        assert h[i] == h[..n][i];
        assert EntryRewrites(fields, rw, h[..n][i], pre[i]);
      }
    }
  }

  // ---------------------------------------------------------------- encryption

  /** The whole encryption walk in terms of what it reaches. */
  predicate EncryptSpec(c: E.Context, h: seq<Entry>, w: E.Walk) {
    && (w.failure.None? <==> E.Ready(c) || forall e :: e in Reached(c.fields, h) ==> !E.SetsUpCipher(c, e.val))
    && (w.failure.None? ==> Rewrites(c.fields, Encrypting(c), h, w.hash))
    && (w.failure.None? ==> w.touched == Keys(Reached(c.fields, h)))
    && (w.failure.None? ==> (w.used <==> exists e :: e in Reached(c.fields, h) && E.SetsUpCipher(c, e.val)))
  }

  /**
   * `encrypt_hash` succeeds exactly when the cipher exists or nothing
   * reached needs it; it then rewrites every listed value at any depth
   * into its encrypted form, keeps keys and order, records exactly the
   * listed keys reached, in visiting order, and sets up a cipher exactly
   * when some reached value is non-empty once normalised.
   */
  lemma {:induction false} EncryptWalkSpec(c: E.Context, h: seq<Entry>)
    ensures EncryptSpec(c, h, E.EncryptWalk(c, h))
    decreases h
  {
    if h != [] {
      var n := |h| - 1;
      var pre, next := E.EncryptWalk(c, h[..n]), E.EncryptEntry(c, h[n]);
      EncryptWalkSpec(c, h[..n]);
      EncryptEntrySpec(c, h[n]);
      var w := E.EncryptWalk(c, h);
      assert w == E.Then(pre, next);
      assert Reached(c.fields, h) == Reached(c.fields, h[..n]) + EntryReached(c.fields, h[n]);
      if w.failure.None? {
        RewritesSnoc(c.fields, Encrypting(c), h, pre.hash, next.hash[0]);
        assert next.hash == [next.hash[0]];
        KeysAppend(Reached(c.fields, h[..n]), EntryReached(c.fields, h[n]));
      }
    }
  }

  lemma {:induction false} EncryptEntrySpec(c: E.Context, e: Entry)
    ensures var w := E.EncryptEntry(c, e);
      && (w.failure.None? <==> E.Ready(c) || forall x :: x in EntryReached(c.fields, e) ==> !E.SetsUpCipher(c, x.val))
      && (w.failure.None? ==> |w.hash| == 1 && EntryRewrites(c.fields, Encrypting(c), e, w.hash[0]))
      && (w.failure.None? ==> w.touched == Keys(EntryReached(c.fields, e)))
      && (w.failure.None? ==> (w.used <==> exists x :: x in EntryReached(c.fields, e) && E.SetsUpCipher(c, x.val)))
    decreases e
  {
    if e.key in c.fields {
      assert EntryReached(c.fields, e) == [e];
    } else if e.val.Hash? {
      EncryptWalkSpec(c, e.val.entries);
    }
  }

  /** With a cipher OpenSSL knows and an IV and key it accepts, the encryption walk never fails. */
  lemma EncryptNeverFails(c: E.Context, h: seq<Entry>)
    requires E.Ready(c)
    ensures E.EncryptWalk(c, h).failure.None?
  {
    EncryptWalkSpec(c, h);
  }

  // ---------------------------------------------------------------- decryption

  /**
   * A successful `decrypt_hash` rewrites every listed value at any depth into
   * its decrypted form, keeping keys, order and every other value.
   */
  lemma {:induction false} DecryptWalkSpec(c: D.Context, h: seq<Entry>)
    ensures D.DecryptWalk(c, h).Ok? ==> Rewrites(c.fields, Decrypting(c), h, D.DecryptWalk(c, h).value)
    decreases h
  {
    if h != [] && D.DecryptWalk(c, h).Ok? {
      var n := |h| - 1;
      DecryptWalkSpec(c, h[..n]);
      DecryptEntrySpec(c, h[n]);
      RewritesSnoc(c.fields, Decrypting(c), h, D.DecryptWalk(c, h[..n]).value, D.DecryptEntry(c, h[n]).value);
    }
  }

  lemma {:induction false} DecryptEntrySpec(c: D.Context, e: Entry)
    ensures D.DecryptEntry(c, e).Ok? ==> EntryRewrites(c.fields, Decrypting(c), e, D.DecryptEntry(c, e).value)
    decreases e
  {
    if e.key !in c.fields && e.val.Hash? {
      DecryptWalkSpec(c, e.val.entries);
    }
  }

  // ---------------------------------------------------------------- round trip

  /** A decryption context for what an encryption context wrote: same primitives, cipher and secret. */
  ghost predicate Matches(c: E.Context, d: D.Context) {
    d.p == c.p && d.cipher == c.cipher && d.secret == c.secret
  }

  /** The decryptor reads the IV the encryptor used, Base64 encoded as `for_encrypted_item` emits it. */
  ghost predicate SameIv(c: E.Context, d: D.Context) {
    d.iv == Some(c.p.base64Encode(c.iv))
  }

  /** None of the entries holds a string that mentions `json_wrapper`. */
  predicate PlainStrings(rs: seq<Entry>) {
    forall e :: e in rs ==> !(e.val.Str? && IsInfix(WrapperKey, e.val.s))
  }

  /** The decryptor's list names no unlisted key and every one of the entries' keys. */
  predicate Covers(c: E.Context, d: D.Context, rs: seq<Entry>) {
    && (forall k :: k in d.fields ==> k in c.fields)
    && (forall e :: e in rs ==> e.key in d.fields)
  }

  /** `to_s` of nil, a boolean or an integer never mentions `json_wrapper`. */
  lemma ScalarNotWrapped(v: Value)
    requires !v.Hash? && !v.Arr? && !v.Str?
    ensures !IsInfix(WrapperKey, ScalarToS(v))
  {
    NotInfixOver(WrapperKey, ScalarToS(v), Digits + {'-', 't', 'r', 'u', 'e', 'f', 'a', 'l', 's'});
  }

  /**
   * Decrypting an encrypted value gives back the value itself for a hash or
   * an array, and its `to_s` string otherwise, unless that string mentions
   * `json_wrapper`.
   */
  lemma ValueRoundTrip(c: E.Context, d: D.Context, v: Value)
    requires Lawful(c.p) && E.Ready(c) && Matches(c, d)
    requires E.SetsUpCipher(c, v) ==> SameIv(c, d)
    requires !(v.Str? && IsInfix(WrapperKey, v.s))
    ensures E.EncryptedValue(c, v).Ok?
    ensures D.DecryptedValue(d, E.EncryptedValue(c, v).value) == Ok(RoundTripValue(v))
  {
    var n := E.Normalize(c.p, v);
    if n != "" {
      var ct := c.p.encrypt(c.cipher, c.p.sha256(c.secret), c.iv, n);
      assert ct != "";
      assert c.p.base64Encode(ct) != "";
      assert c.p.base64Decode(c.p.base64Encode(ct)) == ct;
      assert c.p.base64Decode(d.iv.value) == c.iv;
      assert c.p.decrypt(c.cipher, c.p.sha256(c.secret), c.iv, ct) == Some(n);
      if !(v.Hash? || v.Arr?) && !v.Str? {
        ScalarNotWrapped(v);
      }
    }
  }

  /**
   * Decrypting, with a list that covers the keys it encrypted, what
   * `encrypt_hash` produced succeeds and restores every listed value as
   * `RoundTripValue` says, at any depth, with keys, order and every
   * unlisted value as they were.
   */
  lemma {:induction false} RoundTrip(c: E.Context, d: D.Context, h: seq<Entry>)
    requires Lawful(c.p) && E.Ready(c) && Matches(c, d)
    requires E.EncryptWalk(c, h).used ==> SameIv(c, d)
    requires PlainStrings(Reached(c.fields, h)) && Covers(c, d, Reached(c.fields, h))
    ensures D.DecryptWalk(d, E.EncryptWalk(c, h).hash).Ok?
    ensures Rewrites(c.fields, Restoring, h, D.DecryptWalk(d, E.EncryptWalk(c, h).hash).value)
    decreases h
  {
    if h != [] {
      var n := |h| - 1;
      var pre, next := E.EncryptWalk(c, h[..n]), E.EncryptEntry(c, h[n]);
      EncryptNeverFails(c, h[..n]);
      assert Reached(c.fields, h) == Reached(c.fields, h[..n]) + EntryReached(c.fields, h[n]);
      RoundTrip(c, d, h[..n]);
      EntryRoundTrip(c, d, h[n]);
      var x := next.hash[0];
      assert E.EncryptWalk(c, h).hash == pre.hash + [x];
      assert (pre.hash + [x])[..|pre.hash|] == pre.hash;
      var r := D.DecryptWalk(d, pre.hash);
      assert D.DecryptWalk(d, pre.hash + [x]) == Ok(r.value + [D.DecryptEntry(d, x).value]);
      RewritesSnoc(c.fields, Restoring, h, r.value, D.DecryptEntry(d, x).value);
    }
  }

  lemma {:induction false} EntryRoundTrip(c: E.Context, d: D.Context, e: Entry)
    requires Lawful(c.p) && E.Ready(c) && Matches(c, d)
    requires E.EncryptEntry(c, e).used ==> SameIv(c, d)
    requires PlainStrings(EntryReached(c.fields, e)) && Covers(c, d, EntryReached(c.fields, e))
    ensures E.EncryptEntry(c, e).failure.None? && |E.EncryptEntry(c, e).hash| == 1
    ensures D.DecryptEntry(d, E.EncryptEntry(c, e).hash[0]).Ok?
    ensures EntryRewrites(c.fields, Restoring, e, D.DecryptEntry(d, E.EncryptEntry(c, e).hash[0]).value)
    decreases e
  {
    if e.key in c.fields {
      assert e in EntryReached(c.fields, e);
      ValueRoundTrip(c, d, e.val);
    } else if e.val.Hash? {
      EncryptNeverFails(c, e.val.entries);
      RoundTrip(c, d, e.val.entries);
    }
  }
}
