/**
 * Format detection: deciding whether a raw item hash holds nested
 * structures that were encrypted field by field. Chef's test of one hash,
 * `looks_like_encrypted?`, is not part of this library and is a parameter.
 */
module CheckEncrypted {
  import opened Values

  /** Chef's `looks_like_encrypted?` on one hash. */
  datatype Detector = Detector(looksEncrypted: seq<Entry> -> bool)

  /**
   * `partially_encrypted?`: after dropping the `id` entry, some value
   * looks partially encrypted.
   */
  predicate PartiallyEncrypted(d: Detector, raw: seq<Entry>)
    decreases raw, 1
  {
    exists e | e in raw && e.key != "id" :: LooksLikePartiallyEncrypted(d, e.val)
  }

  /**
   * `looks_like_partially_encrypted?`: only a hash counts, when it looks
   * encrypted itself or is partially encrypted.
   */
  predicate LooksLikePartiallyEncrypted(d: Detector, v: Value)
    decreases v, 0
  {
    v.Hash? && (d.looksEncrypted(v.entries) || PartiallyEncrypted(d, v.entries))
  }

  /**
   * An independent reading: following the indices `p` down from `h` passes
   * only keys other than `id` whose values are hashes, and the last hash
   * reached looks encrypted.
   */
  predicate FoundAt(d: Detector, h: seq<Entry>, p: seq<nat>)
    decreases p
  {
    && |p| > 0
    && p[0] < |h|
    && h[p[0]].key != "id"
    && h[p[0]].val.Hash?
    && if |p| == 1 then d.looksEncrypted(h[p[0]].val.entries) else FoundAt(d, h[p[0]].val.entries, p[1..])
  }

  /** A path found below one entry of `h` extends to a path from `h`. */
  lemma FoundBelow(d: Detector, h: seq<Entry>, i: nat, p: seq<nat>)
    requires i < |h| && h[i].key != "id" && h[i].val.Hash? && FoundAt(d, h[i].val.entries, p)
    ensures FoundAt(d, h, [i] + p)
  {
    assert ([i] + p)[1..] == p;
  }

  /** Whenever the detector answers yes, there is a path to an encrypted-looking hash. */
  lemma {:induction false} PartiallyEncryptedHasPath(d: Detector, raw: seq<Entry>)
    requires PartiallyEncrypted(d, raw)
    ensures exists p :: FoundAt(d, raw, p)
    decreases raw
  {
    var e :| e in raw && e.key != "id" && LooksLikePartiallyEncrypted(d, e.val);
    var i :| 0 <= i < |raw| && raw[i] == e;
    if d.looksEncrypted(e.val.entries) {
      assert FoundAt(d, raw, [i]);
    } else {
      PartiallyEncryptedHasPath(d, e.val.entries);
      var p :| FoundAt(d, e.val.entries, p);
      FoundBelow(d, raw, i, p);
    }
  }

  /** Every path to an encrypted-looking hash makes the detector answer yes. */
  lemma {:induction false} PathMakesPartiallyEncrypted(d: Detector, raw: seq<Entry>, p: seq<nat>)
    requires FoundAt(d, raw, p)
    ensures PartiallyEncrypted(d, raw)
    decreases p
  {
    var e := raw[p[0]];
    if |p| > 1 {
      PathMakesPartiallyEncrypted(d, e.val.entries, p[1..]);
    }
    assert e in raw && e.key != "id" && LooksLikePartiallyEncrypted(d, e.val);
  }

  /** The detector answers yes exactly when some path leads to an encrypted-looking hash. */
  lemma PartiallyEncryptedIffPath(d: Detector, raw: seq<Entry>)
    ensures PartiallyEncrypted(d, raw) <==> exists p :: FoundAt(d, raw, p)
  {
    if PartiallyEncrypted(d, raw) {
      PartiallyEncryptedHasPath(d, raw);
    }
    if exists p :: FoundAt(d, raw, p) {
      var p :| FoundAt(d, raw, p);
      PathMakesPartiallyEncrypted(d, raw, p);
    }
  }

  /** The `id` entry never matters: deleting it, or adding one with any value, keeps the answer. */
  lemma IdIgnored(d: Detector, raw: seq<Entry>, v: Value)
    ensures PartiallyEncrypted(d, Delete(raw, "id")) == PartiallyEncrypted(d, raw)
    ensures PartiallyEncrypted(d, raw + [Entry("id", v)]) == PartiallyEncrypted(d, raw)
  {
    DeleteMembers(raw, "id");
    var r := raw + [Entry("id", v)];
    if PartiallyEncrypted(d, r) {
      var e :| e in r && e.key != "id" && LooksLikePartiallyEncrypted(d, e.val);
      assert e in raw;
    }
  }

  /** Values that are not hashes, arrays of hashes included, never count, whatever the detector says. */
  lemma NonHashNeverCounts(d: Detector, v: Value)
    requires !v.Hash?
    ensures !LooksLikePartiallyEncrypted(d, v)
  {
  }

  /** A hash whose values other than `id` are no hashes is never partially encrypted. */
  lemma FlatNeverPartiallyEncrypted(d: Detector, raw: seq<Entry>)
    requires forall e :: e in raw && e.key != "id" ==> !e.val.Hash?
    ensures !PartiallyEncrypted(d, raw)
  {
  }

  /** An empty hash, or one that holds only `id` entries, is not partially encrypted. */
  lemma OnlyIdNotPartiallyEncrypted(d: Detector, raw: seq<Entry>)
    requires forall e :: e in raw ==> e.key == "id"
    ensures !PartiallyEncrypted(d, raw)
  {
  }

  /**
   * An `id` key is skipped in nested hashes too: a hash whose only entry is
   * an encrypted-looking `id` sub-hash counts only when the detector flags
   * that hash itself.
   */
  lemma NestedIdSkipped(d: Detector, k: string, inner: seq<Entry>)
    requires k != "id"
    ensures PartiallyEncrypted(d, [Entry(k, Hash([Entry("id", Hash(inner))]))])
      == d.looksEncrypted([Entry("id", Hash(inner))])
  {
    var top := [Entry(k, Hash([Entry("id", Hash(inner))]))];
    assert Entry(k, Hash([Entry("id", Hash(inner))])) in top;
    assert !PartiallyEncrypted(d, [Entry("id", Hash(inner))]);
  }
}
