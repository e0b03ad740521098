/// lib/memoizer.rb: `memoize` records each name in a per-class registry, keeps
/// the original under `_unmemoized_<name>`, and defines a `|*args|` wrapper
/// that picks its cache kind by `is_a?(Array)` / `is_a?(Hash)`.
module Memoizer {
  import opened Values
  import opened Naming
  import opened Slots

  // ---------------------------------------------------------------------------
  // Cache keys
  // ---------------------------------------------------------------------------

  /** The list `|*args|` receives under `ruby2_keywords`: the positional
      arguments, then the keyword arguments as one trailing Hash when any were
      passed. */
  function ArgsKey(positional: seq<Value>, keywords: map<string, Value>): Key {
    if keywords == map[] then positional else positional + [Hash(keywords)]
  }

  /** Calls that pass keywords, or pass none, in both calls get the same key
      only when they pass the same positional and keyword arguments. */
  lemma ArgsKeyInjective(p1: seq<Value>, k1: map<string, Value>, p2: seq<Value>, k2: map<string, Value>)
    requires (k1 == map[]) == (k2 == map[])
    requires ArgsKey(p1, k1) == ArgsKey(p2, k2)
    ensures p1 == p2 && k1 == k2
  {
    if k1 != map[] {
      var a := ArgsKey(p1, k1);
      assert a[..|a| - 1] == p1 && a[..|a| - 1] == p2;
      assert a[|a| - 1] == Hash(k1) && a[|a| - 1] == Hash(k2);
    }
  }

  /** Calls that differ only in their keyword arguments get different keys,
      including a call with keywords and one without. */
  lemma KeywordsSeparateKeys(p: seq<Value>, k1: map<string, Value>, k2: map<string, Value>)
    requires k1 != k2
    ensures ArgsKey(p, k1) != ArgsKey(p, k2)
  {
    if k1 != map[] && k2 != map[] {
      assert ArgsKey(p, k1)[|p|] == Hash(k1);
      assert ArgsKey(p, k2)[|p|] == Hash(k2);
    }
  }

  /** A trailing positional Hash and the same keywords passed as keywords give
      the same key, so they share one cache entry. */
  lemma TrailingHashSharesKey(p: seq<Value>, k: map<string, Value>)
    requires k != map[]
    ensures ArgsKey(p + [Hash(k)], map[]) == ArgsKey(p, k)
  {
  }

  // ---------------------------------------------------------------------------
  // The `define_method` body
  // ---------------------------------------------------------------------------

  /** One call of the wrapper whose cache is `iv`; `noArgs` is whether the
      original had arity 0 when it was memoized. The zero-argument wrapper
      calls the original with no arguments, whatever it received; it replaces
      anything that is not an Array. The other wrapper replaces anything that
      is not a Hash by a one-entry Hash, and otherwise adds a missing key. */
  function WrapperCall(ivars: Ivars, iv: string, noArgs: bool, args: seq<Value>, original: seq<Value> -> Result<Value>): Step {
    if noArgs then
      if iv in ivars && ivars[iv].Single? then Step(ivars, Ok(ivars[iv].value), false)
      else
        match original([])
        case Ok(v) => Step(ivars[iv := Single(v)], Ok(v), true)
        case Err(e) => Step(ivars, Err(e), true)
    else if iv in ivars && ivars[iv].Keyed? then
      var es := ivars[iv].entries;
      var found := Lookup(es, args);
      if found.Some? then Step(ivars, Ok(found.value), false)
      else
        match original(args)
        case Ok(v) => Step(ivars[iv := Keyed(es + [(args, v)])], Ok(v), true)
        case Err(e) => Step(ivars, Err(e), true)
    else
      match original(args)
      case Ok(v) => Step(ivars[iv := Keyed([(args, v)])], Ok(v), true)
      case Err(e) => Step(ivars, Err(e), true)
  }

  /** The wrapper of `name`, run on the instance `o`. */
  method Call(o: Owner, name: string, noArgs: bool, args: seq<Value>, original: seq<Value> -> Result<Value>)
    returns (r: Result<Value>)
    modifies o
    ensures var s := WrapperCall(old(o.ivars), IvarName(name), noArgs, args, original);
      o.ivars == s.ivars && r == s.result &&
      o.log == old(o.log) + (if s.called then [Invocation(name, if noArgs then [] else args)] else [])
  {
    var iv := IvarName(name);
    var memoized: Slot := Cleared;
    if iv in o.ivars {
      memoized := o.ivars[iv];
    }
    if noArgs {
      if !memoized.Single? {
        var computed := original([]);
        o.log := o.log + [Invocation(name, [])];
        if computed.Err? {
          return computed;
        }
        memoized := Single(computed.value);
        o.ivars := o.ivars[iv := memoized];
      }
      r := Ok(memoized.value);
    } else {
      if !memoized.Keyed? {
        var computed := original(args);
        o.log := o.log + [Invocation(name, args)];
        if computed.Err? {
          return computed;
        }
        memoized := Keyed([(args, computed.value)]);
        o.ivars := o.ivars[iv := memoized];
      } else if Lookup(memoized.entries, args).None? {
        var computed := original(args);
        o.log := o.log + [Invocation(name, args)];
        if computed.Err? {
          return computed;
        }
        LookupAppend(memoized.entries, args, computed.value, args);
        memoized := Keyed(memoized.entries + [(args, computed.value)]);
        o.ivars := o.ivars[iv := memoized];
      }
      r := Ok(Lookup(memoized.entries, args).value);
    }
  }

  // ---------------------------------------------------------------------------
  // What one call does
  // ---------------------------------------------------------------------------

  /** The zero-argument wrapper: the original runs only while the slot holds
      no Array; a success, nil included, is stored as a one-element Array; a
      failure stores nothing; the arguments received play no part. */
  lemma ZeroArityCallSpec(ivars: Ivars, iv: string, args: seq<Value>, original: seq<Value> -> Result<Value>)
    ensures var s := WrapperCall(ivars, iv, true, args, original);
      && s == WrapperCall(ivars, iv, true, [], original)
      && (s.called <==> !(iv in ivars && ivars[iv].Single?))
      && (!s.called ==> s.result == Ok(ivars[iv].value) && s.ivars == ivars)
      && (s.called ==> s.result == original([]))
      && (s.result.Ok? ==> iv in s.ivars && s.ivars[iv] == Single(s.result.value))
      && (s.result.Err? ==> s.ivars == ivars)
      && OthersUnchanged(ivars, s.ivars, iv)
  {
  }

  /** The other wrapper: a hit returns the stored value without calling the
      original; a miss calls it once with the received list and stores a
      success under that list; a failure stores nothing; a stored key is never
      overwritten, and a slot that held no Hash starts afresh with only the new
      entry. */
  lemma KeyedCallSpec(ivars: Ivars, iv: string, args: seq<Value>, original: seq<Value> -> Result<Value>)
    ensures var s := WrapperCall(ivars, iv, false, args, original);
      && (s.called <==> Entry(ivars, iv, args).None?)
      && (Entry(ivars, iv, args).Some? ==> s.result == Ok(Entry(ivars, iv, args).value) && s.ivars == ivars)
      && (s.called ==> s.result == original(args))
      && Entry(s.ivars, iv, args) == (if s.result.Ok? then Some(s.result.value) else None)
      && (s.result.Ok? ==> iv in s.ivars && s.ivars[iv].Keyed?)
      && (forall k :: k != args && Entry(ivars, iv, k).Some? ==> Entry(s.ivars, iv, k) == Entry(ivars, iv, k))
      && (s.called && s.result.Ok? && !(iv in ivars && ivars[iv].Keyed?) ==>
            forall k :: k != args ==> Entry(s.ivars, iv, k).None?)
      && (s.result.Err? ==> s.ivars == ivars)
      && OthersUnchanged(ivars, s.ivars, iv)
  {
    if iv in ivars && ivars[iv].Keyed? && Lookup(ivars[iv].entries, args).None? && original(args).Ok? {
      var es := ivars[iv].entries;
      var v := original(args).value;
      forall k
        ensures Lookup(es + [(args, v)], k) == if k == args then Some(v) else Lookup(es, k)
      {
        LookupAppend(es, args, v, k);
      }
    }
  }

  /** Asking again with the same arguments after a success is a hit, whatever
      the original would now return. */
  lemma RepeatIsHit(ivars: Ivars, iv: string, noArgs: bool, args: seq<Value>,
                    first: seq<Value> -> Result<Value>, second: seq<Value> -> Result<Value>)
    ensures var s1 := WrapperCall(ivars, iv, noArgs, args, first);
      s1.result.Ok? ==> WrapperCall(s1.ivars, iv, noArgs, args, second) == Step(s1.ivars, s1.result, false)
  {
    if !noArgs {
      KeyedCallSpec(ivars, iv, args, first);
    }
  }

  /** A call whose original raised leaves the slot as it was, so the next call
      with the same arguments runs the original again. */
  lemma FailureIsRetried(ivars: Ivars, iv: string, noArgs: bool, args: seq<Value>,
                         first: seq<Value> -> Result<Value>, second: seq<Value> -> Result<Value>)
    ensures var s1 := WrapperCall(ivars, iv, noArgs, args, first);
      s1.result.Err? ==> s1.called && s1.ivars == ivars && WrapperCall(s1.ivars, iv, noArgs, args, second).called
  {
    if !noArgs {
      KeyedCallSpec(ivars, iv, args, first);
    }
  }

  /** After `unmemoize`, every call runs the original again. */
  lemma UnmemoizeRecomputes(ivars: Ivars, iv: string, noArgs: bool, args: seq<Value>, original: seq<Value> -> Result<Value>)
    ensures var s := WrapperCall(ivars[iv := Cleared], iv, noArgs, args, original);
      s.called && s.result == original(if noArgs then [] else args)
  {
  }

  // ---------------------------------------------------------------------------
  // Runs of calls: the original runs at most once per argument list
  // ---------------------------------------------------------------------------

  /** What happens to one instance, in order. */
  datatype Event =
    | Invoke(name: string, noArgs: bool, args: seq<Value>, original: seq<Value> -> Result<Value>)
    | Unmemoize(name: string)
    | UnmemoizeAll(methods: seq<string>)

  function After(ivars: Ivars, e: Event): Ivars {
    match e
    case Invoke(n, z, a, f) => WrapperCall(ivars, IvarName(n), z, a, f).ivars
    case Unmemoize(n) => ivars[IvarName(n) := Cleared]
    case UnmemoizeAll(ms) => ClearAll(ivars, Targets(ms))
  }

  predicate Clears(e: Event, iv: string) {
    (e.Unmemoize? && IvarName(e.name) == iv) || (e.UnmemoizeAll? && iv in Targets(e.methods))
  }

  /** The list the wrapper caches under: none for the zero-argument wrapper. */
  function CacheArgs(noArgs: bool, args: seq<Value>): seq<Value> {
    if noArgs then [] else args
  }

  /** The event runs an original successfully for `args` through the slot `iv`. */
  predicate Computes(ivars: Ivars, e: Event, iv: string, args: seq<Value>) {
    e.Invoke? && IvarName(e.name) == iv && CacheArgs(e.noArgs, e.args) == args &&
    var s := WrapperCall(ivars, iv, e.noArgs, e.args, e.original);
    s.called && s.result.Ok?
  }

  function Computations(ivars: Ivars, events: seq<Event>, iv: string, args: seq<Value>): nat
    decreases |events|
  {
    if events == [] then 0
    else
      (if Computes(ivars, events[0], iv, args) then 1 else 0) +
      Computations(After(ivars, events[0]), events[1..], iv, args)
  }

  /** A call of the `noArgs` kind through `iv` with `args` cannot reach the original. */
  predicate Settled(ivars: Ivars, iv: string, noArgs: bool, args: seq<Value>) {
    iv in ivars &&
    if noArgs then ivars[iv].Single? else ivars[iv].Keyed? && Lookup(ivars[iv].entries, args).Some?
  }

  /** The slot holds nothing a wrapper of the other kind would have written. */
  predicate Compatible(ivars: Ivars, iv: string, noArgs: bool) {
    !Populated(ivars, iv) || (if noArgs then ivars[iv].Single? else ivars[iv].Keyed?)
  }

  /** Every call through `iv` uses a wrapper of the `noArgs` kind. */
  predicate OneKind(events: seq<Event>, iv: string, noArgs: bool) {
    forall i :: 0 <= i < |events| && events[i].Invoke? && IvarName(events[i].name) == iv ==> events[i].noArgs == noArgs
  }

  lemma StepKeepsCompatible(ivars: Ivars, e: Event, iv: string, noArgs: bool, args: seq<Value>)
    requires Compatible(ivars, iv, noArgs)
    requires e.Invoke? && IvarName(e.name) == iv ==> e.noArgs == noArgs
    ensures Compatible(After(ivars, e), iv, noArgs)
    ensures Settled(ivars, iv, noArgs, args) && !Clears(e, iv) ==>
      Settled(After(ivars, e), iv, noArgs, args) && !Computes(ivars, e, iv, CacheArgs(noArgs, args))
    ensures Computes(ivars, e, iv, CacheArgs(noArgs, args)) ==> Settled(After(ivars, e), iv, noArgs, args)
  {
    if e.Invoke? && IvarName(e.name) == iv && !noArgs {
      var s := WrapperCall(ivars, iv, false, e.args, e.original);
      if s.called && s.result.Ok? && iv in ivars && ivars[iv].Keyed? {
        LookupAppend(ivars[iv].entries, e.args, s.result.value, args);
      }
    }
  }

  /** As long as every call through `iv` uses wrappers of one kind and nothing
      invalidates `iv`, the original runs successfully at most once per
      cached argument list, and never once the result is stored. */
  lemma {:induction false} AtMostOnce(ivars: Ivars, events: seq<Event>, iv: string, noArgs: bool, args: seq<Value>)
    requires Compatible(ivars, iv, noArgs) && OneKind(events, iv, noArgs)
    requires forall i :: 0 <= i < |events| ==> !Clears(events[i], iv)
    ensures Computations(ivars, events, iv, CacheArgs(noArgs, args)) <= if Settled(ivars, iv, noArgs, args) then 0 else 1
    decreases |events|
  {
    if events != [] {
      assert OneKind(events[1..], iv, noArgs) by {
        forall i | 0 <= i < |events| - 1 && events[1..][i].Invoke? && IvarName(events[1..][i].name) == iv
          ensures events[1..][i].noArgs == noArgs
        {
          assert events[1..][i] == events[i + 1];
        }
      }
      StepKeepsCompatible(ivars, events[0], iv, noArgs, args);
      AtMostOnce(After(ivars, events[0]), events[1..], iv, noArgs, args);
    }
  }

  /** Two members whose names share a safe name and whose wrappers are of
      different kinds overwrite each other's cache, so both recompute. */
  lemma MixedKindsRecompute(ivars: Ivars, iv: string, args: seq<Value>, f: seq<Value> -> Result<Value>, g: seq<Value> -> Result<Value>)
    requires f([]).Ok? && g(args).Ok?
    ensures var s1 := WrapperCall(ivars, iv, true, [], f);
      var s2 := WrapperCall(s1.ivars, iv, false, args, g);
      s2.called && WrapperCall(s2.ivars, iv, true, [], f).called
  {
  }

  // ---------------------------------------------------------------------------
  // The class: the registry and the method table
  // ---------------------------------------------------------------------------

  /** A method of the class: an original with its arity, or a `|*args|`
      wrapper (arity -1) caching in `ivar` and calling `target` on a miss. */
  datatype Impl =
    | Original(arity: int, visibility: Visibility)
    | Wrapper(noArgs: bool, ivar: string, target: string, visibility: Visibility)

  function ImplArity(impl: Impl): int {
    match impl
    case Original(a, _) => a
    case Wrapper(_, _, _, _) => -1
  }

  type Table = map<string, Impl>

  /** The class's methods and `@memoizer_memoized_methods`. */
  datatype ClassState = ClassState(table: Table, registry: set<string>)

  datatype Outcome = Outcome(state: ClassState, error: Option<Exception>)

  /** One pass of `memoize`'s loop: a registered name is skipped; otherwise the
      name is registered first, then aliased (NameError when it is missing),
      then wrapped. */
  function MemoizeOne(c: ClassState, name: string): Outcome {
    if name in c.registry then Outcome(c, None)
    else
      var registry := c.registry + {name};
      if name !in c.table then Outcome(ClassState(c.table, registry), Some(NameError(name)))
      else
        var impl := c.table[name];
        var alias := AliasName(name);
        var table := c.table[alias := impl][name := Wrapper(ImplArity(impl) == 0, IvarName(name), alias, impl.visibility)];
        Outcome(ClassState(table, registry), None)
  }

  function MemoizeAll(c: ClassState, names: seq<string>): Outcome
    decreases |names|
  {
    if names == [] then Outcome(c, None)
    else
      var o := MemoizeOne(c, names[0]);
      if o.error.Some? then o else MemoizeAll(o.state, names[1..])
  }

  lemma MemoizeAllStep(c: ClassState, names: seq<string>, i: nat)
    requires i < |names|
    ensures var o := MemoizeOne(c, names[i]);
      MemoizeAll(c, names[i..]) == if o.error.Some? then o else MemoizeAll(o.state, names[i + 1..])
  {
    assert names[i..][1..] == names[i + 1..];
  }

  /** Every wrapper's name is registered, and the wrapper caches in its own
      instance variable and calls its own alias, which exists. */
  ghost predicate ValidClass(c: ClassState) {
    forall n | n in c.table && c.table[n].Wrapper? ::
      n in c.registry && c.table[n].target == AliasName(n) && AliasName(n) in c.table &&
      c.table[n].ivar == IvarName(n)
  }

  /** Wrapping a name keeps the class valid; the wrapper is of the zero-argument
      kind exactly when the original had arity 0, and has the original's
      visibility, which the alias keeps too. A NameError leaves the table as it
      was, and a success changes exactly the name and its alias. */
  lemma MemoizeOneSpec(c: ClassState, name: string)
    requires ValidClass(c)
    ensures var o := MemoizeOne(c, name);
      && ValidClass(o.state)
      && o.state.registry == c.registry + {name}
      && (o.error.Some? <==> name !in c.registry && name !in c.table)
      && (name in c.registry ==> o.state == c)
      && (name !in c.registry && name in c.table ==>
            o.state.table[name].Wrapper? &&
            o.state.table[name].noArgs == (ImplArity(c.table[name]) == 0) &&
            o.state.table[name].visibility == c.table[name].visibility &&
            o.state.table[AliasName(name)] == c.table[name])
    ensures var o := MemoizeOne(c, name);
      name !in c.registry && name !in c.table ==> o.state.table == c.table
    ensures var o := MemoizeOne(c, name);
      name !in c.registry && name in c.table ==>
        && o.state.table.Keys == c.table.Keys + {AliasName(name)}
        && o.state.table[name] ==
             Wrapper(ImplArity(c.table[name]) == 0, IvarName(name), AliasName(name), c.table[name].visibility)
        && (forall n :: n in c.table && n != name && n != AliasName(name) ==> o.state.table[n] == c.table[n])
  {
    MemoizeOneKeepsValid(c, name);
  }

  lemma MemoizeOneKeepsValid(c: ClassState, name: string)
    requires ValidClass(c)
    ensures ValidClass(MemoizeOne(c, name).state)
  {
    var o := MemoizeOne(c, name);
    if name !in c.registry && name in c.table {
      var t' := o.state.table;
      forall n | n in t' && t'[n].Wrapper?
        ensures n in o.state.registry && t'[n].target == AliasName(n) && AliasName(n) in t' && t'[n].ivar == IvarName(n)
      {
        if n != name {
          AliasNameInjective(n, name);
        }
      }
    }
  }

  lemma {:induction false} MemoizeAllValid(c: ClassState, names: seq<string>)
    requires ValidClass(c)
    ensures ValidClass(MemoizeAll(c, names).state)
    decreases |names|
  {
    if names != [] {
      MemoizeOneKeepsValid(c, names[0]);
      if MemoizeOne(c, names[0]).error.None? {
        MemoizeAllValid(MemoizeOne(c, names[0]).state, names[1..]);
      }
    }
  }

  /** `memoize` registers every name it reaches, the one it stops at included:
      after a NameError the name stays registered although nothing was
      wrapped. */
  lemma {:induction false} MemoizeAllRegisters(c: ClassState, names: seq<string>)
    ensures var o := MemoizeAll(c, names);
      && c.registry <= o.state.registry
      && (o.error.None? ==> forall i :: 0 <= i < |names| ==> names[i] in o.state.registry)
      && (o.error.Some? ==> exists i :: 0 <= i < |names| && o.error == Some(NameError(names[i])) &&
                                        names[i] in o.state.registry && names[i] !in o.state.table)
    decreases |names|
  {
    if names != [] {
      var o1 := MemoizeOne(c, names[0]);
      if o1.error.None? {
        MemoizeAllRegisters(o1.state, names[1..]);
        var o := MemoizeAll(c, names);
        forall i | 0 <= i < |names| && o.error.None?
          ensures names[i] in o.state.registry
        {
          if i > 0 {
            assert names[i] == names[1..][i - 1];
          }
        }
        if o.error.Some? {
          var i :| 0 <= i < |names[1..]| && o.error == Some(NameError(names[1..][i])) &&
                   names[1..][i] in o.state.registry && names[1..][i] !in o.state.table;
          assert names[i + 1] == names[1..][i];
        }
      }
    }
  }

  /** `memoize` of registered names does nothing. */
  lemma {:induction false} MemoizeAllRegistered(c: ClassState, names: seq<string>)
    requires forall i :: 0 <= i < |names| ==> names[i] in c.registry
    ensures MemoizeAll(c, names) == Outcome(c, None)
    decreases |names|
  {
    if names != [] {
      MemoizeAllRegistered(c, names[1..]);
    }
  }

  /** `memoize` is idempotent: repeating a `memoize` that succeeded changes
      nothing. */
  lemma MemoizeAllIdempotent(c: ClassState, names: seq<string>)
    requires MemoizeAll(c, names).error.None?
    ensures var o := MemoizeAll(c, names);
      MemoizeAll(o.state, names) == Outcome(o.state, None)
  {
    MemoizeAllRegisters(c, names);
    MemoizeAllRegistered(MemoizeAll(c, names).state, names);
  }

  /** A name registered by a `memoize` that failed on it is never wrapped, even
      once the method is defined. */
  lemma DefinedLaterStaysUnwrapped(c: ClassState, name: string, impl: Impl)
    requires name in c.registry
    ensures var c' := ClassState(c.table[name := impl], c.registry);
      MemoizeAll(c', [name]) == Outcome(c', None)
  {
  }

  /** `unmemoize_all`, given every method name of the instance, clears the
      cache of every memoized method, whether or not it was ever called. */
  lemma UnmemoizeAllClearsEveryWrapper(c: ClassState, methods: seq<string>, name: string)
    requires ValidClass(c)
    requires forall m :: m in c.table ==> m in methods
    requires name in c.table && c.table[name].Wrapper? && NoNewline(name)
    ensures c.table[name].ivar in Targets(methods)
  {
    TargetsCoverAliases(methods, name);
  }

  /** A class that includes `Memoizer`. */
  class Klass {
    var methods: Table
    var registry: set<string>

    ghost predicate Valid()
      reads this
    {
      ValidClass(ClassState(methods, registry))
    }

    /** A class whose methods are all originals and whose registry is empty. */
    constructor (originals: Table)
      requires forall n :: n in originals ==> originals[n].Original?
      ensures methods == originals && registry == {} && Valid()
    {
      methods := originals;
      registry := {};
    }

    /** `memoize(*names)`. */
    method Memoize(names: seq<string>) returns (error: Option<Exception>)
      requires Valid()
      modifies this
      ensures Valid()
      ensures Outcome(ClassState(methods, registry), error) == MemoizeAll(ClassState(old(methods), old(registry)), names)
    {
      var i := 0;
      while i < |names|
        invariant 0 <= i <= |names|
        invariant Valid()
        invariant MemoizeAll(ClassState(old(methods), old(registry)), names) ==
                  MemoizeAll(ClassState(methods, registry), names[i..])
      {
        ghost var o := MemoizeOne(ClassState(methods, registry), names[i]);
        MemoizeAllStep(ClassState(methods, registry), names, i);
        MemoizeOneKeepsValid(ClassState(methods, registry), names[i]);
        var name := names[i];
        if name !in registry {
          registry := registry + {name};
          if name !in methods {
            assert ClassState(methods, registry) == o.state;
            return Some(NameError(name));
          }
          var impl := methods[name];
          var alias := AliasName(name);
          methods := methods[alias := impl];
          methods := methods[name := Wrapper(ImplArity(impl) == 0, IvarName(name), alias, impl.visibility)];
        }
        assert ClassState(methods, registry) == o.state;
        i := i + 1;
      }
      error := None;
    }
  }
}
