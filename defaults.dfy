/**
 * Per-bag defaults for the knife commands: `knife.rb` may hold, under
 * `knife[:secure_data_bag][:defaults][<bag>]`, option values that fill in
 * whatever the command line left unset.
 */
module Defaults {
  import opened Results
  import opened Values

  /** Ruby's `v || {}`. */
  function OrEmpty(v: Value): (r: Value)
    ensures Truthy(v) ==> r == v
    ensures !Truthy(v) ==> r == Hash([])
  {
    if Truthy(v) then v else Hash([])
  }

  /**
   * `config_defaults_for_data_bags`: the defaults for one bag, read from the
   * `secure_data_bag` section of the knife configuration. A missing (nil or
   * false) section, `defaults` entry or bag entry gives `{}`; indexing
   * something that is not a hash raises. The bag's entry itself is returned
   * whatever it is.
   */
  function DefaultsFor(section: Value, dataBag: string): (r: Result<Value>)
    ensures !Truthy(section) ==> r == Ok(Hash([]))
    ensures Truthy(section) && !section.Hash? ==> r == Err(NotIndexable)
    ensures section.Hash? ==> (
      var d := Lookup(section.entries, "defaults");
      && (!Truthy(d) ==> r == Ok(Hash([])))
      && (Truthy(d) && !d.Hash? ==> r == Err(NotIndexable))
      && (d.Hash? ==> (
        var b := Lookup(d.entries, dataBag);
        && (!Truthy(b) ==> r == Ok(Hash([])))
        && (Truthy(b) ==> r == Ok(b)))))
  {
    var s := OrEmpty(section);
    if !s.Hash? then Err(NotIndexable)
    else
      var d := OrEmpty(Lookup(s.entries, "defaults"));
      if !d.Hash? then Err(NotIndexable)
      else Ok(OrEmpty(Lookup(d.entries, dataBag)))
  }

  /** What `each` hands to the block: a hash's `[key, value]` pairs, an array's elements; nothing else has `each`. */
  function Elements(v: Value): Result<seq<Value>> {
    match v
    case Hash(entries) => Ok(Pairs(entries))
    case Arr(items) => Ok(items)
    case _ => Err(NoMethod("each"))
  }

  /**
   * The block's `|key, value|` for one element, then `key.to_sym`: an array
   * is split into its first two elements, a missing one being nil; anything
   * else is the key, with a nil value. Only a string key has `to_sym`.
   */
  function BlockArgs(x: Value): (r: Result<Entry>)
    ensures x.Str? ==> r == Ok(Entry(x.s, Nil))
    ensures x.Arr? && |x.items| == 1 && x.items[0].Str? ==> r == Ok(Entry(x.items[0].s, Nil))
    ensures x.Arr? && |x.items| >= 2 && x.items[0].Str? ==> r == Ok(Entry(x.items[0].s, x.items[1]))
    ensures r.Ok? <==> x.Str? || (x.Arr? && x.items != [] && x.items[0].Str?)
    ensures r.Err? ==> r.error == NoMethod("to_sym")
  {
    var key := if !x.Arr? then x else if |x.items| > 0 then x.items[0] else Nil;
    var value := if x.Arr? && |x.items| > 1 then x.items[1] else Nil;
    if key.Str? then Ok(Entry(key.s, value)) else Err(NoMethod("to_sym"))
  }

  /** The block's arguments up to the first element that raises, and what that one raises. */
  datatype Steps = Steps(pairs: seq<Entry>, failure: Option<Error>)

  /** The pairs the block sees, in order, while `each` runs over `xs`. */
  function StepsOf(xs: seq<Value>): Steps
    decreases |xs|
  {
    if xs == [] then Steps([], None)
    else
      var s := StepsOf(xs[..|xs| - 1]);
      if s.failure.Some? then s
      else
        match BlockArgs(xs[|xs| - 1])
        case Ok(e) => Steps(s.pairs + [e], None)
        case Err(x) => Steps(s.pairs, Some(x))
  }

  /**
   * `each` runs to the end exactly when every element gives the block a
   * key, and then the block sees one pair per element, in order.
   */
  lemma {:induction false} StepsComplete(xs: seq<Value>)
    ensures StepsOf(xs).failure.None? <==> forall i :: 0 <= i < |xs| ==> BlockArgs(xs[i]).Ok?
    ensures StepsOf(xs).failure.None? ==>
      |StepsOf(xs).pairs| == |xs| && forall i :: 0 <= i < |xs| ==> StepsOf(xs).pairs[i] == BlockArgs(xs[i]).value
    decreases |xs|
  {
    if xs != [] {
      var init := xs[..|xs| - 1];
      StepsComplete(init);
      assert forall i :: 0 <= i < |init| ==> init[i] == xs[i];
    }
  }

  /** Once an element has raised, the later ones are never reached. */
  lemma {:induction false} StepsFailureSticks(xs: seq<Value>, j: nat)
    requires j <= |xs| && StepsOf(xs[..j]).failure.Some?
    ensures StepsOf(xs) == StepsOf(xs[..j])
    decreases |xs| - j
  {
    if j < |xs| {
      assert xs[..j + 1][..j] == xs[..j];
      StepsFailureSticks(xs, j + 1);
    } else {
      assert xs[..j] == xs;
    }
  }

  /** Iterating a hash gives the block each of its entries, in order, and never raises. */
  lemma {:induction false} StepsOfPairs(h: seq<Entry>)
    ensures StepsOf(Pairs(h)) == Steps(h, None)
    decreases |h|
  {
    if h != [] {
      var init := h[..|h| - 1];
      assert Pairs(h)[..|h| - 1] == Pairs(init);
      StepsOfPairs(init);
      assert h == init + [h[|h| - 1]];
    }
  }

  /** What `config_defaults_for_data_bag!` answers: the bag's defaults, unless reading or iterating them raises. */
  function DefaultsAnswer(section: Value, dataBag: string): Result<Value> {
    var d :- DefaultsFor(section, dataBag);
    var xs :- Elements(d);
    var s := StepsOf(xs);
    if s.failure.Some? then Err(s.failure.value) else Ok(d)
  }

  /**
   * The configuration afterwards: `config[key] ||= value` over the pairs the
   * block saw; an error raised partway keeps the writes before it.
   */
  function ConfigAfter(config: map<string, Value>, section: Value, dataBag: string, options: set<string>): map<string, Value> {
    var d := DefaultsFor(section, dataBag);
    if d.Err? then config
    else
      var xs := Elements(d.value);
      if xs.Err? then config else ApplyDefaults(config, StepsOf(xs.value).pairs, options)
  }

  /** The answer and the configuration once the defaults `d` have been read and their elements `items` listed. */
  lemma Outcome(config: map<string, Value>, section: Value, dataBag: string, options: set<string>, d: Value, items: seq<Value>)
    requires DefaultsFor(section, dataBag) == Ok(d) && Elements(d) == Ok(items)
    ensures DefaultsAnswer(section, dataBag) == if StepsOf(items).failure.Some? then Err(StepsOf(items).failure.value) else Ok(d)
    ensures ConfigAfter(config, section, dataBag, options) == ApplyDefaults(config, StepsOf(items).pairs, options)
  {
  }

  /** Hash defaults are applied entry by entry, in order, and answered as they are. */
  lemma HashDefaults(config: map<string, Value>, section: Value, dataBag: string, options: set<string>, h: seq<Entry>)
    requires DefaultsFor(section, dataBag) == Ok(Hash(h))
    ensures DefaultsAnswer(section, dataBag) == Ok(Hash(h))
    ensures ConfigAfter(config, section, dataBag, options) == ApplyDefaults(config, h, options)
  {
    StepsOfPairs(h);
    Outcome(config, section, dataBag, options, Hash(h), Pairs(h));
  }

  /** A bare name in array defaults sets an unset declared option to nil, and the array is answered. */
  lemma BareNameDefault(config: map<string, Value>, options: set<string>)
    requires "secret_file" in options && !IsSet(config, "secret_file")
    ensures var section := Hash([Entry("defaults", Hash([Entry("b", Arr([Str("secret_file")]))]))]);
      && DefaultsAnswer(section, "b") == Ok(Arr([Str("secret_file")]))
      && ConfigAfter(config, section, "b", options) == config["secret_file" := Nil]
  {
    var section := Hash([Entry("defaults", Hash([Entry("b", Arr([Str("secret_file")]))]))]);
    var xs := [Str("secret_file")];
    assert DefaultsFor(section, "b") == Ok(Arr(xs));
    assert xs[..0] == [];
    var e := [Entry("secret_file", Nil)];
    assert e[..0] == [];
    assert StepsOf(xs) == Steps(e, None);
    Outcome(config, section, "b", options, Arr(xs), xs);
  }

  /** An array element with no string name raises, and the writes of the elements before it stay. */
  lemma NamelessElementRaises(config: map<string, Value>, options: set<string>, v: Value)
    requires "secret_path" in options && !IsSet(config, "secret_path")
    ensures var section := Hash([Entry("defaults", Hash([Entry("b", Arr([Arr([Str("secret_path"), v]), Int(5)]))]))]);
      && DefaultsAnswer(section, "b") == Err(NoMethod("to_sym"))
      && ConfigAfter(config, section, "b", options) == config["secret_path" := v]
  {
    var xs := [Arr([Str("secret_path"), v]), Int(5)];
    var section := Hash([Entry("defaults", Hash([Entry("b", Arr(xs))]))]);
    assert DefaultsFor(section, "b") == Ok(Arr(xs));
    var f := [Entry("secret_path", v)];
    NamelessSteps(v);
    assert f[..0] == [];
    assert ApplyDefaults(config, f, options) == config["secret_path" := v];
    Outcome(config, section, "b", options, Arr(xs), xs);
  }

  /** The block sees the named pair, then raises on the element with no name. */
  lemma NamelessSteps(v: Value)
    ensures StepsOf([Arr([Str("secret_path"), v]), Int(5)]) == Steps([Entry("secret_path", v)], Some(NoMethod("to_sym")))
  {
    var xs := [Arr([Str("secret_path"), v]), Int(5)];
    assert xs[..1][..0] == [];
    assert xs[..1] == [Arr([Str("secret_path"), v])];
    assert StepsOf(xs[..1]) == Steps([Entry("secret_path", v)], None);
  }

  /** A config value counts as set unless it is missing, nil or false. */
  predicate IsSet(config: map<string, Value>, k: string) {
    k in config && Truthy(config[k])
  }

  /** One step of the loop: `config[key] ||= value` for a declared option. */
  function ApplyDefault(config: map<string, Value>, e: Entry, options: set<string>): map<string, Value> {
    if e.key in options && !IsSet(config, e.key) then config[e.key := e.val] else config
  }

  /** The configuration after applying `defaults` in order. */
  function ApplyDefaults(config: map<string, Value>, defaults: seq<Entry>, options: set<string>): map<string, Value>
    decreases |defaults|
  {
    if defaults == [] then config
    else ApplyDefault(ApplyDefaults(config, defaults[..|defaults| - 1], options), defaults[|defaults| - 1], options)
  }

  /** One more element that gives the block a key is one more `config[key] ||= value`. */
  lemma StepTaken(xs: seq<Value>, i: nat, config: map<string, Value>, config0: map<string, Value>, options: set<string>)
    requires i < |xs| && StepsOf(xs[..i]).failure.None? && BlockArgs(xs[i]).Ok?
    requires config == ApplyDefaults(config0, StepsOf(xs[..i]).pairs, options)
    ensures StepsOf(xs[..i + 1]).failure.None?
    ensures ApplyDefaults(config0, StepsOf(xs[..i + 1]).pairs, options) == ApplyDefault(config, BlockArgs(xs[i]).value, options)
  {
    assert xs[..i + 1][..i] == xs[..i];
    var done := StepsOf(xs[..i]).pairs;
    assert (done + [BlockArgs(xs[i]).value])[..|done|] == done;
  }

  /**
   * Keys that are not declared options are never written, and set values
   * are never overwritten.
   */
  lemma {:induction false} ApplyDefaultsKeeps(config: map<string, Value>, defaults: seq<Entry>, options: set<string>)
    ensures var r := ApplyDefaults(config, defaults, options);
      forall k :: k !in options || IsSet(config, k) ==> (k in r <==> k in config) && (k in config ==> r[k] == config[k])
    decreases |defaults|
  {
    if defaults != [] {
      ApplyDefaultsKeeps(config, defaults[..|defaults| - 1], options);
    }
  }

  /** Keys that the defaults do not mention are untouched. */
  lemma {:induction false} ApplyDefaultsUntouched(config: map<string, Value>, defaults: seq<Entry>, options: set<string>)
    ensures var r := ApplyDefaults(config, defaults, options);
      forall k :: !HasKey(defaults, k) ==> (k in r <==> k in config) && (k in config ==> r[k] == config[k])
    decreases |defaults|
  {
    if defaults != [] {
      var init := defaults[..|defaults| - 1];
      ApplyDefaultsUntouched(config, init, options);
      assert forall i :: 0 <= i < |init| ==> init[i] == defaults[i];
    }
  }

  /** The keys after applying: those already configured and the declared options that have a default. */
  lemma {:induction false} ApplyDefaultsDomain(config: map<string, Value>, defaults: seq<Entry>, options: set<string>)
    ensures var r := ApplyDefaults(config, defaults, options);
      forall k :: k in r <==> k in config || (k in options && HasKey(defaults, k))
    decreases |defaults|
  {
    if defaults != [] {
      var init := defaults[..|defaults| - 1];
      var last := defaults[|defaults| - 1];
      ApplyDefaultsDomain(config, init, options);
      assert defaults == init + [last];
      forall k ensures HasKey(defaults, k) <==> HasKey(init, k) || last.key == k {
        if HasKey(defaults, k) {
          var i :| 0 <= i < |defaults| && defaults[i].key == k;
          if i < |init| { assert init[i].key == k; }
        }
      }
    }
  }

  /**
   * A declared option that is unset takes its default, when the defaults
   * name each key once.
   */
  lemma {:induction false} ApplyDefaultsFills(config: map<string, Value>, defaults: seq<Entry>, options: set<string>, k: string)
    requires DistinctKeys(defaults) && k in options && !IsSet(config, k) && HasKey(defaults, k)
    ensures var r := ApplyDefaults(config, defaults, options);
      k in r && Get(defaults, k) == Some(r[k])
    decreases |defaults|
  {
    var init := defaults[..|defaults| - 1];
    var last := defaults[|defaults| - 1];
    LastEntry(defaults);
    if last.key == k {
      ApplyDefaultsUntouched(config, init, options);
    } else {
      ApplyDefaultsFills(config, init, options, k);
    }
  }

  /** A knife command that mixes in `DefaultsMixin`: its declared options and its `config`. */
  class KnifeCommand {
    /** The keys of the command's declared options. */
    const options: set<string>
    /** `Chef::Config[:knife][:secure_data_bag]`. */
    const section: Value
    var config: map<string, Value>

    constructor(options: set<string>, section: Value, config: map<string, Value>)
      ensures this.options == options && this.section == section && this.config == config
    {
      this.options := options;
      this.section := section;
      this.config := config;
    }

    /**
     * `config_defaults_for_data_bag!`: fills unset declared options from the
     * bag's defaults, in order, and answers the defaults. When reading them
     * raises nothing is written; when an element raises, the writes before
     * it stay.
     */
    method ConfigDefaultsForDataBag(dataBag: string) returns (r: Result<Value>)
      modifies this
      ensures r == DefaultsAnswer(section, dataBag)
      ensures config == ConfigAfter(old(config), section, dataBag, options)
    {
      var d := DefaultsFor(section, dataBag);
      if d.Err? {
        return Err(d.error);
      }
      var xs := Elements(d.value);
      if xs.Err? {
        return Err(xs.error);
      }
      var items := xs.value;
      Outcome(config, section, dataBag, options, d.value, items);
      for i := 0 to |items|
        invariant StepsOf(items[..i]).failure.None?
        invariant config == ApplyDefaults(old(config), StepsOf(items[..i]).pairs, options)
      {
        var e := BlockArgs(items[i]);
        if e.Err? {
          assert items[..i + 1][..i] == items[..i];
          StepsFailureSticks(items, i + 1);
          return Err(e.error);
        }
        StepTaken(items, i, config, old(config), options);
        var key := e.value.key;
        if key in options && !(key in config && Truthy(config[key])) {
          config := config[key := e.value.val];
        }
      }
      assert items[..|items|] == items;
      return d;
    }
  }
}
