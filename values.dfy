/**
 * The documents the library works on: Ruby hashes with string keys whose
 * values are nil, booleans, integers, strings, arrays or further hashes.
 * A hash is an ordered sequence of entries, since Ruby hashes keep
 * insertion order and the walkers must keep it.
 */
module Values {
  import opened Results

  datatype Value =
    | Nil
    | Bool(b: bool)
    | Int(n: int)
    | Str(s: string)
    | Arr(items: seq<Value>)
    | Hash(entries: seq<Entry>)

  datatype Entry = Entry(key: string, val: Value)

  /** Ruby truthiness: only nil and false are falsy. */
  predicate Truthy(v: Value) {
    !(v.Nil? || v == Bool(false))
  }

  /** The keys of a hash, in order. */
  function Keys(h: seq<Entry>): (ks: seq<string>)
    ensures |ks| == |h|
    ensures forall i :: 0 <= i < |h| ==> ks[i] == h[i].key
  {
    if h == [] then [] else Keys(h[..|h| - 1]) + [h[|h| - 1].key]
  }

  predicate HasKey(h: seq<Entry>, k: string) {
    exists i :: 0 <= i < |h| && h[i].key == k
  }

  predicate DistinctKeys(h: seq<Entry>) {
    forall i, j :: 0 <= i < j < |h| ==> h[i].key != h[j].key
  }

  /** `h[k]` when the key is present: the value of its first entry. */
  function Get(h: seq<Entry>, k: string): (r: Option<Value>)
    ensures r.None? <==> !HasKey(h, k)
    ensures r.Some? ==> exists i :: 0 <= i < |h| && h[i] == Entry(k, r.value)
  {
    if h == [] then None
    else if h[0].key == k then Some(h[0].val)
    else Get(h[1..], k)
  }

  /** Ruby's `h[k]`: nil for a missing key. */
  function Lookup(h: seq<Entry>, k: string): (v: Value)
    ensures !HasKey(h, k) ==> v == Nil
    ensures HasKey(h, k) ==> Get(h, k) == Some(v)
  {
    match Get(h, k)
    case Some(v) => v
    case None => Nil
  }

  /** Ruby's `h[k] = v`: the entry for `k` gets `v` in place, or a new entry is appended. */
  function Put(h: seq<Entry>, k: string, v: Value): (r: seq<Entry>)
    ensures Get(r, k) == Some(v)
    ensures forall k' :: k' != k ==> Get(r, k') == Get(h, k')
  {
    if HasKey(h, k) then
      ReplaceFacts(h, k, v);
      Replace(h, k, v)
    else
      AppendFacts(h, k, v);
      h + [Entry(k, v)]
  }

  /** `h[k] = v` keeps the order of the keys, appending `k` when it is new, and keeps them distinct. */
  lemma PutKeys(h: seq<Entry>, k: string, v: Value)
    ensures Keys(Put(h, k, v)) == if HasKey(h, k) then Keys(h) else Keys(h) + [k]
    ensures DistinctKeys(h) ==> DistinctKeys(Put(h, k, v))
    ensures !HasKey(h, k) ==> Put(h, k, v) == h + [Entry(k, v)]
  {
    if HasKey(h, k) {
      ReplaceFacts(h, k, v);
    } else {
      AppendFacts(h, k, v);
    }
  }

  /** Every entry with key `k` gets value `v`. */
  function Replace(h: seq<Entry>, k: string, v: Value): (r: seq<Entry>)
    ensures |r| == |h|
    ensures forall i :: 0 <= i < |h| ==> r[i] == if h[i].key == k then Entry(k, v) else h[i]
  {
    if h == [] then [] else
      [if h[0].key == k then Entry(k, v) else h[0]] + Replace(h[1..], k, v)
  }

  lemma NoKeyInTail(h: seq<Entry>, k: string)
    requires h != [] && !HasKey(h, k)
    ensures !HasKey(h[1..], k)
  {
    forall i | 0 <= i < |h[1..]| ensures h[1..][i].key != k {
      assert h[1..][i] == h[i + 1];
    }
  }

  lemma KeyInTail(h: seq<Entry>, k: string)
    requires HasKey(h, k) && h[0].key != k
    ensures HasKey(h[1..], k)
  {
    var i :| 0 <= i < |h| && h[i].key == k;
    assert h[1..][i - 1].key == k;
  }

  lemma {:induction false} ReplaceGet(h: seq<Entry>, k: string, v: Value)
    requires HasKey(h, k)
    ensures Get(Replace(h, k, v), k) == Some(v)
    ensures forall k' :: k' != k ==> Get(Replace(h, k, v), k') == Get(h, k')
  {
    var r := Replace(h, k, v);
    assert r[1..] == Replace(h[1..], k, v);
    if h[0].key != k {
      KeyInTail(h, k);
      ReplaceGet(h[1..], k, v);
    } else if HasKey(h[1..], k) {
      ReplaceGet(h[1..], k, v);
    } else {
      ReplaceUnchanged(h[1..], k, v);
    }
  }

  lemma {:induction false} ReplaceUnchanged(h: seq<Entry>, k: string, v: Value)
    requires !HasKey(h, k)
    ensures Replace(h, k, v) == h
  {
    if h != [] {
      NoKeyInTail(h, k);
      ReplaceUnchanged(h[1..], k, v);
    }
  }

  lemma ReplaceFacts(h: seq<Entry>, k: string, v: Value)
    requires HasKey(h, k)
    ensures Keys(Replace(h, k, v)) == Keys(h)
    ensures Get(Replace(h, k, v), k) == Some(v)
    ensures forall k' :: k' != k ==> Get(Replace(h, k, v), k') == Get(h, k')
    ensures DistinctKeys(h) ==> DistinctKeys(Replace(h, k, v))
  {
    ReplaceGet(h, k, v);
    ReplaceKeys(h, k, v);
  }

  lemma ReplaceKeys(h: seq<Entry>, k: string, v: Value)
    ensures Keys(Replace(h, k, v)) == Keys(h)
    ensures DistinctKeys(h) ==> DistinctKeys(Replace(h, k, v))
  {
    var r := Replace(h, k, v);
    var kr, kh := Keys(r), Keys(h);
    assert |kr| == |kh|;
    forall i | 0 <= i < |h| ensures kr[i] == kh[i] {
      assert r[i].key == h[i].key;
    }
  }

  lemma {:induction false} AppendGet(h: seq<Entry>, k: string, v: Value)
    requires !HasKey(h, k)
    ensures Get(h + [Entry(k, v)], k) == Some(v)
    ensures forall k' :: k' != k ==> Get(h + [Entry(k, v)], k') == Get(h, k')
  {
    if h != [] {
      assert (h + [Entry(k, v)])[1..] == h[1..] + [Entry(k, v)];
      NoKeyInTail(h, k);
      AppendGet(h[1..], k, v);
    }
  }

  lemma AppendFacts(h: seq<Entry>, k: string, v: Value)
    requires !HasKey(h, k)
    ensures Keys(h + [Entry(k, v)]) == Keys(h) + [k]
    ensures Get(h + [Entry(k, v)], k) == Some(v)
    ensures forall k' :: k' != k ==> Get(h + [Entry(k, v)], k') == Get(h, k')
    ensures DistinctKeys(h) ==> DistinctKeys(h + [Entry(k, v)])
  {
    AppendGet(h, k, v);
    var r := h + [Entry(k, v)];
    assert r[..|r| - 1] == h;
  }

  /** Ruby's `h.delete(k)` on the hash (its return value is `Lookup(h, k)`). */
  function Delete(h: seq<Entry>, k: string): (r: seq<Entry>)
    ensures !HasKey(r, k)
    ensures forall k' :: k' != k ==> Get(r, k') == Get(h, k')
    ensures forall i :: 0 <= i < |r| ==> r[i] in h
    ensures !HasKey(h, k) ==> r == h
  {
    if h == [] then []
    else if h[0].key == k then Delete(h[1..], k)
    else
      var rest := Delete(h[1..], k);
      if !HasKey(h, k) then NoKeyInTail(h, k); [h[0]] + rest
      else [h[0]] + rest
  }

  /** A key is present exactly when it is among the keys. */
  lemma KeysHasKey(h: seq<Entry>, k: string)
    ensures HasKey(h, k) <==> k in Keys(h)
  {
    if k in Keys(h) {
      var i :| 0 <= i < |h| && Keys(h)[i] == k;
      assert h[i].key == k;
    }
  }

  /** Looking a key up in two hashes joined: the first one's entry wins. */
  lemma {:induction false} GetConcat(a: seq<Entry>, b: seq<Entry>, k: string)
    ensures Get(a + b, k) == if HasKey(a, k) then Get(a, k) else Get(b, k)
  {
    if a == [] {
      assert a + b == b;
    } else {
      assert (a + b)[1..] == a[1..] + b;
      GetConcat(a[1..], b, k);
      if a[0].key != k {
        if HasKey(a, k) { KeyInTail(a, k); } else { NoKeyInTail(a, k); }
      }
    }
  }

  /** Deleting the only entry for `k` leaves the entries around it. */
  lemma {:induction false} DeleteOnly(a: seq<Entry>, k: string, v: Value, b: seq<Entry>)
    requires !HasKey(a, k) && !HasKey(b, k)
    ensures Delete(a + [Entry(k, v)] + b, k) == a + b
  {
    var h := a + [Entry(k, v)] + b;
    if a == [] {
      assert h[1..] == b;
    } else {
      assert h[1..] == a[1..] + [Entry(k, v)] + b;
      NoKeyInTail(a, k);
      DeleteOnly(a[1..], k, v, b);
      assert a + b == [a[0]] + (a[1..] + b);
    }
  }

  /** How a hash relates to the hash without its last entry. */
  lemma LastEntry(h: seq<Entry>)
    requires h != []
    ensures var init, last := h[..|h| - 1], h[|h| - 1];
      && (forall k :: HasKey(h, k) <==> HasKey(init, k) || k == last.key)
      && (DistinctKeys(h) ==> DistinctKeys(init) && !HasKey(init, last.key))
      && (DistinctKeys(h) ==> forall k :: Get(h, k) == if k == last.key then Some(last.val) else Get(init, k))
  {
    var init, last := h[..|h| - 1], h[|h| - 1];
    assert h == init + [last];
    forall k | HasKey(h, k) ensures HasKey(init, k) || k == last.key {
      var i :| 0 <= i < |h| && h[i].key == k;
      if i < |init| { assert init[i].key == k; }
    }
    if DistinctKeys(h) {
      forall k ensures Get(h, k) == if k == last.key then Some(last.val) else Get(init, k) {
        if HasKey(init, k) || k == last.key {
          assert forall i :: 0 <= i < |init| ==> init[i] == h[i];
          AppendGet(init, last.key, last.val);
        } else {
          AppendGet(init, last.key, last.val);
        }
      }
    }
  }

  /** `h.delete(k)` for each key of `ks` in turn. */
  function DeleteKeys(h: seq<Entry>, ks: seq<string>): (r: seq<Entry>)
    ensures forall k :: Get(r, k) == if k in ks then None else Get(h, k)
    decreases |ks|
  {
    if ks == [] then h
    else
      var init := ks[..|ks| - 1];
      assert forall k :: k in ks <==> k in init || k == ks[|ks| - 1];
      Delete(DeleteKeys(h, init), ks[|ks| - 1])
  }

  /** Deleting a key keeps exactly the entries under the other keys. */
  lemma {:induction false} DeleteMembers(h: seq<Entry>, k: string)
    ensures forall e :: e in Delete(h, k) <==> e in h && e.key != k
  {
    if h != [] {
      DeleteMembers(h[1..], k);
      assert forall e :: e in h <==> e == h[0] || e in h[1..];
    }
  }

  /**
   * Ruby's `h.merge(other)`: the entries of `other`, in order, written over
   * `h` with `h[k] = v`. For a hash `other` (distinct keys) every key of
   * `other` takes its value there and every other key keeps its value in `h`.
   */
  function Merge(h: seq<Entry>, other: seq<Entry>): (r: seq<Entry>)
    ensures DistinctKeys(other) ==> forall k :: HasKey(other, k) ==> Get(r, k) == Get(other, k)
    ensures forall k :: !HasKey(other, k) ==> Get(r, k) == Get(h, k)
    decreases |other|
  {
    if other == [] then h
    else
      MergeStep(h, other);
      Merge(Put(h, other[0].key, other[0].val), other[1..])
  }

  lemma MergeStep(h: seq<Entry>, other: seq<Entry>)
    requires other != []
    ensures forall k :: !HasKey(other, k) ==> k != other[0].key && !HasKey(other[1..], k)
    ensures DistinctKeys(other) ==> DistinctKeys(other[1..]) && !HasKey(other[1..], other[0].key)
    ensures forall k :: HasKey(other[1..], k) ==> HasKey(other, k)
    ensures forall k :: HasKey(other, k) && k != other[0].key ==> HasKey(other[1..], k) && Get(other, k) == Get(other[1..], k)
  {
    forall k | !HasKey(other, k) ensures !HasKey(other[1..], k) { NoKeyInTail(other, k); }
    forall k | HasKey(other, k) && k != other[0].key ensures HasKey(other[1..], k) { KeyInTail(other, k); }
    forall k | HasKey(other[1..], k) ensures HasKey(other, k) {
      var i :| 0 <= i < |other[1..]| && other[1..][i].key == k;
      assert other[i + 1].key == k;
    }
    if DistinctKeys(other) {
      forall i | 0 <= i < |other[1..]| ensures other[1..][i].key != other[0].key {
        assert other[1..][i] == other[i + 1];
      }
    }
  }

  /** A hash as the array (`to_a`) of its `[key, value]` pairs. */
  function Pairs(h: seq<Entry>): (r: seq<Value>)
    ensures |r| == |h|
    ensures forall i :: 0 <= i < |h| ==> r[i] == Arr([Str(h[i].key), h[i].val])
  {
    if h == [] then [] else Pairs(h[..|h| - 1]) + [Arr([Str(h[|h| - 1].key), h[|h| - 1].val])]
  }

  /** A sequence with no element twice. */
  predicate Distinct<T(==)>(s: seq<T>) {
    forall i, j :: 0 <= i < j < |s| ==> s[i] != s[j]
  }

  /** Ruby's `Array#uniq`: the first occurrence of every element, in order. */
  function Dedup<T(==,!new)>(s: seq<T>): (r: seq<T>)
    ensures Distinct(r)
    ensures forall x :: x in r <==> x in s
    ensures |r| <= |s|
  {
    if s == [] then []
    else
      var d := Dedup(s[..|s| - 1]);
      var x := s[|s| - 1];
      assert forall y :: y in s <==> y in s[..|s| - 1] || y == x;
      if x in d then d else d + [x]
  }

  /** Where `x` first occurs in `s`. */
  function FirstIndex<T(==)>(s: seq<T>, x: T): (r: nat)
    requires x in s
    ensures r < |s| && s[r] == x
    ensures forall k :: 0 <= k < r ==> s[k] != x
  {
    if s[0] == x then 0 else 1 + FirstIndex(s[1..], x)
  }

  /** `uniq` keeps the elements in the order of their first occurrences. */
  lemma {:induction false} DedupInOrder<T(!new)>(s: seq<T>)
    ensures forall i, j :: 0 <= i < j < |Dedup(s)| ==> FirstIndex(s, Dedup(s)[i]) < FirstIndex(s, Dedup(s)[j])
  {
    if s != [] {
      var init, x := s[..|s| - 1], s[|s| - 1];
      var d := Dedup(init);
      assert s == init + [x];
      DedupInOrder(init);
      forall y | y in init ensures FirstIndex(s, y) == FirstIndex(init, y) {
        var a, b := FirstIndex(s, y), FirstIndex(init, y);
        assert s[b] == y;
      }
      if x !in d {
        forall i | 0 <= i < |d| ensures FirstIndex(s, d[i]) < FirstIndex(s, x) {
          assert d[i] in init;
          assert x !in init;
        }
      }
    }
  }

  /** `uniq` leaves a list without repetitions as it is. */
  lemma {:induction false} DedupDistinct<T(!new)>(s: seq<T>)
    requires Distinct(s)
    ensures Dedup(s) == s
  {
    if s != [] {
      DedupDistinct(s[..|s| - 1]);
    }
  }

  /**
   * `a.concat(b).uniq!` on a list `a` without repetitions keeps `a` as it is,
   * in front, followed by the new elements of `b`.
   */
  lemma {:induction false} DedupKeepsPrefix<T(!new)>(a: seq<T>, b: seq<T>)
    requires Distinct(a)
    ensures |a| <= |Dedup(a + b)| && Dedup(a + b)[..|a|] == a
    decreases |b|
  {
    if b == [] {
      assert a + b == a;
      DedupDistinct(a);
    } else {
      var b' := b[..|b| - 1];
      assert (a + b)[..|a + b| - 1] == a + b';
      DedupKeepsPrefix(a, b');
    }
  }

  /** `sub` occurs in `s` starting at position `i`. */
  predicate OccursAt(sub: string, s: string, i: nat) {
    i + |sub| <= |s| && s[i..i + |sub|] == sub
  }

  /** Ruby's `String#include?`. */
  predicate IsInfix(sub: string, s: string) {
    exists i: nat | i <= |s| :: OccursAt(sub, s, i)
  }

  /** A string all of whose characters lie in `alphabet`. */
  predicate Over(s: string, alphabet: set<char>) {
    forall i :: 0 <= i < |s| ==> s[i] in alphabet
  }

  /** A text made of characters other than `sub[0]` does not contain `sub`. */
  lemma NotInfixOver(sub: string, s: string, alphabet: set<char>)
    requires |sub| > 0 && sub[0] !in alphabet && Over(s, alphabet)
    ensures !IsInfix(sub, s)
  {
    forall i: nat | i <= |s| ensures !OccursAt(sub, s, i) {
      if i + |sub| <= |s| {
        assert s[i..i + |sub|][0] == s[i];
      }
    }
  }

  const Digits: set<char> := {'0', '1', '2', '3', '4', '5', '6', '7', '8', '9'}

  function DigitChar(d: nat): (c: char)
    requires d < 10
    ensures c in Digits
  {
    "0123456789"[d]
  }

  /** The decimal digits of a natural number, as Ruby's `Integer#to_s` prints them. */
  function NatToString(n: nat): (s: string)
    ensures |s| > 0 && Over(s, Digits)
    ensures n < 10 <==> |s| == 1
  {
    if n < 10 then [DigitChar(n)] else NatToString(n / 10) + [DigitChar(n % 10)]
  }

  /** `Integer#to_s`: a minus sign for negative numbers, then the digits. */
  function IntToString(n: int): (s: string)
    ensures |s| > 0 && Over(s, Digits + {'-'})
    ensures (s[0] == '-') <==> (n < 0)
  {
    if n < 0 then "-" + NatToString(-n) else NatToString(n)
  }

  /** `to_s` of a value that is not a hash or an array. */
  function ScalarToS(v: Value): (s: string)
    requires !v.Hash? && !v.Arr?
    ensures v.Str? ==> s == v.s
    ensures v.Nil? ==> s == ""
    ensures v.Bool? || v.Int? ==> s != ""
    ensures !v.Str? ==> Over(s, Digits + {'-', 't', 'r', 'u', 'e', 'f', 'a', 'l', 's'})
  {
    match v
    case Nil => ""
    case Bool(b) => if b then "true" else "false"
    case Int(n) => IntToString(n)
    case Str(s) => s
  }
}
