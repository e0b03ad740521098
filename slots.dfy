/// The per-instance cache state both mixins keep: one instance variable per
/// memoized method (named by `Naming.IvarName`), holding nil, a one-element
/// Array (zero-argument methods) or a Hash from argument lists to results.
/// `unmemoize` and `unmemoize_all` are the same code in lib/memoized.rb and
/// lib/memoizer.rb and are modelled once, on `Owner`.
module Slots {
  import opened Values
  import opened Naming

  /** An argument list, as used for a Hash key. */
  type Key = seq<Value>

  /** A Ruby Hash from argument lists to results, in insertion order. */
  type Entries = seq<(Key, Value)>

  /** The value of an instance variable that holds a cache. `Cleared` is nil,
      as `unmemoize` leaves it; an instance variable never set is absent from
      the map. */
  datatype Slot = Cleared | Single(value: Value) | Keyed(entries: Entries)

  type Ivars = map<string, Slot>

  /** One invocation of an original (unmemoized) method. */
  datatype Invocation = Invocation(member: string, args: seq<Value>)

  /** One call of a wrapper: the instance variables afterwards, what the caller
      gets, and whether the original method was invoked. */
  datatype Step = Step(ivars: Ivars, result: Result<Value>, called: bool)

  /** `hash[k]` for a key that may be absent. */
  function Lookup(es: Entries, k: Key): (r: Option<Value>)
    ensures r.Some? <==> exists i :: 0 <= i < |es| && es[i].0 == k
    ensures r.Some? ==> exists i :: 0 <= i < |es| && es[i] == (k, r.value)
  {
    if es == [] then None
    else if es[0].0 == k then Some(es[0].1)
    else
      var r := Lookup(es[1..], k);
      assert forall i :: 0 < i < |es| ==> es[i] == es[1..][i - 1];
      r
  }

  /** `hash[k] = v` for a key not yet present appends it, and leaves every other
      key's value as it was. */
  lemma {:induction false} LookupAppend(es: Entries, k: Key, v: Value, k': Key)
    requires Lookup(es, k).None?
    ensures Lookup(es + [(k, v)], k') == if k' == k then Some(v) else Lookup(es, k')
  {
    if es != [] {
      assert (es + [(k, v)])[1..] == es[1..] + [(k, v)];
      if es[0].0 != k' {
        LookupAppend(es[1..], k, v, k');
      }
    }
  }

  /** `Hash#first`: the first pair, as a two-element Array, or nil when empty. */
  function First(es: Entries): (r: Value)
    ensures es == [] <==> r == Nil
    ensures es != [] ==> r == Arr([Arr(es[0].0), Lookup(es, es[0].0).value])
  {
    if es == [] then Nil else Arr([Arr(es[0].0), es[0].1])
  }

  /** The value `@iv[k]` holds when `@iv` is a Hash with the key `k`; None
      when `@iv` is unset, nil, an Array, or a Hash without that key. */
  function Entry(ivars: Ivars, iv: string, k: Key): Option<Value> {
    if iv in ivars && ivars[iv].Keyed? then Lookup(ivars[iv].entries, k) else None
  }

  /** Every instance variable other than `iv` is as it was. */
  ghost predicate OthersUnchanged(before: Ivars, after: Ivars, iv: string) {
    forall other :: other != iv ==>
      (other in before <==> other in after) && (other in before ==> after[other] == before[other])
  }

  /** A truthy instance variable: Ruby's `||=` leaves it alone. */
  predicate Populated(ivars: Ivars, iv: string) {
    iv in ivars && !ivars[iv].Cleared?
  }

  /** Two states that no wrapper can tell apart: an instance variable never set
      and one set to nil read the same. */
  ghost predicate SameCaches(a: Ivars, b: Ivars) {
    forall iv :: (Populated(a, iv) <==> Populated(b, iv)) && (Populated(a, iv) ==> a[iv] == b[iv])
  }

  /** The instance variables `unmemoize_all` clears, given the names of all of
      the instance's methods (public, private and protected). */
  function Targets(methods: seq<string>): set<string> {
    set i | 0 <= i < |methods| && UnaliasedName(methods[i]).Some? :: IvarName(UnaliasedName(methods[i]).value)
  }

  /** Every method that has an alias has its cache cleared by `unmemoize_all`,
      whether or not it has been called. */
  lemma TargetsCoverAliases(methods: seq<string>, name: string)
    requires NoNewline(name)
    requires AliasName(name) in methods
    ensures IvarName(name) in Targets(methods)
  {
    var i :| 0 <= i < |methods| && methods[i] == AliasName(name);
    UnaliasedNameOfAlias(name);
  }

  /** Clearing: every target becomes nil, every other instance variable stays. */
  function ClearAll(ivars: Ivars, ts: set<string>): (r: Ivars)
    ensures r.Keys == ivars.Keys + ts
    ensures forall iv :: iv in ts ==> r[iv] == Cleared
    ensures forall iv :: iv in ivars && iv !in ts ==> r[iv] == ivars[iv]
  {
    ivars + map t | t in ts :: Cleared
  }

  lemma {:induction false} TargetsSnoc(methods: seq<string>, m: string)
    ensures Targets(methods + [m]) ==
      Targets(methods) + (if UnaliasedName(m).Some? then {IvarName(UnaliasedName(m).value)} else {})
  {
    var ms := methods + [m];
    forall t | t in Targets(ms)
      ensures t in Targets(methods) + (if UnaliasedName(m).Some? then {IvarName(UnaliasedName(m).value)} else {})
    {
      var i :| 0 <= i < |ms| && UnaliasedName(ms[i]).Some? && t == IvarName(UnaliasedName(ms[i]).value);
      if i < |methods| {
        assert ms[i] == methods[i];
      }
    }
    forall t | t in Targets(methods)
      ensures t in Targets(ms)
    {
      var i :| 0 <= i < |methods| && UnaliasedName(methods[i]).Some? && t == IvarName(UnaliasedName(methods[i]).value);
      assert ms[i] == methods[i];
    }
    if UnaliasedName(m).Some? {
      assert ms[|methods|] == m;
    }
  }

  lemma ClearAllSnoc(ivars: Ivars, methods: seq<string>, m: string)
    ensures ClearAll(ivars, Targets(methods + [m])) ==
      if UnaliasedName(m).Some? then ClearAll(ivars, Targets(methods))[IvarName(UnaliasedName(m).value) := Cleared]
      else ClearAll(ivars, Targets(methods))
  {
    TargetsSnoc(methods, m);
    if UnaliasedName(m).Some? {
      ClearAllAdd(ivars, Targets(methods), IvarName(UnaliasedName(m).value));
    }
  }

  lemma ClearAllStep(ivars: Ivars, methods: seq<string>, i: nat)
    requires i < |methods|
    ensures var before := ClearAll(ivars, Targets(methods[..i]));
      var target := UnaliasedName(methods[i]);
      ClearAll(ivars, Targets(methods[..i + 1])) ==
        if target.Some? then before[IvarName(target.value) := Cleared] else before
  {
    assert methods[..i + 1] == methods[..i] + [methods[i]];
    ClearAllSnoc(ivars, methods[..i], methods[i]);
  }

  lemma ClearAllAdd(ivars: Ivars, ts: set<string>, t: string)
    ensures ClearAll(ivars, ts + {t}) == ClearAll(ivars, ts)[t := Cleared]
  {
    var l := ClearAll(ivars, ts + {t});
    var r := ClearAll(ivars, ts)[t := Cleared];
    assert l.Keys == r.Keys;
    forall k | k in l.Keys
      ensures l[k] == r[k]
    {
    }
  }

  /** The object whose methods are memoized: its instance variables, and a
      ghost log of every invocation of an original method made on it. Each
      object has its own, so nothing is shared between instances. */
  class Owner {
    var ivars: Ivars
    ghost var log: seq<Invocation>

    constructor ()
      ensures ivars == map[] && log == []
    {
      ivars := map[];
      log := [];
    }

    /** `unmemoize(method_name)`: sets the method's instance variable to nil,
        dropping its whole cache (every argument list) and nothing else. */
    method Unmemoize(name: string)
      modifies this
      ensures ivars == old(ivars)[IvarName(name) := Cleared]
      ensures log == old(log)
    {
      ivars := ivars[IvarName(name) := Cleared];
    }

    /** `unmemoize_all`: unmemoizes every name recovered from a method name of
        the form `_unmemoized_<name>`. */
    method UnmemoizeAll(methods: seq<string>)
      modifies this
      ensures ivars == ClearAll(old(ivars), Targets(methods))
      ensures log == old(log)
    {
      var i := 0;
      while i < |methods|
        invariant 0 <= i <= |methods|
        invariant ivars == ClearAll(old(ivars), Targets(methods[..i]))
        invariant log == old(log)
      {
        ClearAllStep(old(ivars), methods, i);
        var target := UnaliasedName(methods[i]);
        if target.Some? {
          Unmemoize(target.value);
        }
        i := i + 1;
      }
      assert methods[..i] == methods;
    }
  }
}
