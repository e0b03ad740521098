/// lib/memoized.rb: `memoize` chooses a wrapper from the original method's
/// arity, keeps the original under `_unmemoized_<name>`, and installs a wrapper
/// that caches results in the instance variable `Naming.IvarName(name)`.
module Memoized {
  import opened Values
  import opened Naming
  import opened Slots

  // ---------------------------------------------------------------------------
  // Wrapper shapes
  // ---------------------------------------------------------------------------

  /** The parameter list of a generated wrapper: `()`, `(*args)`,
      `(arg1, ..., argn, *optional_args)` or `(arg1, ..., argk)`. */
  datatype Shape = NoParams | Splat | RequiredAndSplat(required: nat) | Required(count: nat)

  predicate WellFormed(s: Shape) {
    match s
    case RequiredAndSplat(n) => n >= 1
    case Required(k) => k >= 1
    case _ => true
  }

  /** `Method#arity` of a method defined with the shape's parameter list. */
  function Arity(s: Shape): int {
    match s
    case NoParams => 0
    case Splat => -1
    case RequiredAndSplat(n) => -(n as int) - 1
    case Required(k) => k
  }

  /** The wrapper `memoize` generates for an original of the given arity; it has
      the original's arity. */
  function ShapeOf(arity: int): (s: Shape)
    ensures WellFormed(s) && Arity(s) == arity
  {
    if arity == 0 then NoParams
    else if arity == -1 then Splat
    else if arity < -1 then RequiredAndSplat(-arity - 1)
    else Required(arity)
  }

  /** Every well-formed shape is the one generated for its own arity. */
  lemma ShapeOfArity(s: Shape)
    requires WellFormed(s)
    ensures ShapeOf(Arity(s)) == s
  {
  }

  /** What an arity promises: a method of arity k >= 0 takes exactly k
      positional arguments, one of arity -n-1 takes at least n. */
  predicate ArityAdmits(arity: int, n: nat) {
    if arity >= 0 then n == arity else n >= -arity - 1
  }

  /** Whether the generated `def` accepts `n` arguments; if not, Ruby raises
      ArgumentError before the wrapper's body runs. */
  predicate ShapeAccepts(s: Shape, n: nat) {
    match s
    case NoParams => n == 0
    case Splat => true
    case RequiredAndSplat(k) => n >= k
    case Required(k) => n == k
  }

  /** The wrapper accepts exactly the argument counts the original's arity admits. */
  lemma AcceptsAsOriginal(arity: int, n: nat)
    ensures ShapeAccepts(ShapeOf(arity), n) <==> ArityAdmits(arity, n)
  {
  }

  // ---------------------------------------------------------------------------
  // The generated wrapper bodies
  // ---------------------------------------------------------------------------

  /** The zero-argument wrapper:
      `@iv ||= [original()]` then `@iv.first`. A slot that holds a Hash (another
      member with the same safe name) is truthy, so `first` returns its first
      pair. */
  function ZeroArityCall(ivars: Ivars, iv: string, original: seq<Value> -> Result<Value>): Step {
    if Populated(ivars, iv) then
      if ivars[iv].Single? then Step(ivars, Ok(ivars[iv].value), false)
      else Step(ivars, Ok(First(ivars[iv].entries)), false)
    else
      match original([])
      case Ok(v) => Step(ivars[iv := Single(v)], Ok(v), true)
      case Err(e) => Step(ivars, Err(e), true)
  }

  /** The wrapper for every other arity, where `args` is the full argument
      list: `@iv ||= {}`; a hit returns `@iv[args]`, a miss evaluates
      `@iv[args] = original(*args)`. A slot that holds an Array (another member
      with the same safe name) has no `has_key?`. */
  function KeyedCall(ivars: Ivars, iv: string, args: seq<Value>, original: seq<Value> -> Result<Value>): Step {
    var ivars1 := if Populated(ivars, iv) then ivars else ivars[iv := Keyed([])];
    var slot := ivars1[iv];
    if slot.Single? then Step(ivars1, Err(NoMethodError), false)
    else
      var found := Lookup(slot.entries, args);
      if found.Some? then Step(ivars1, Ok(found.value), false)
      else
        match original(args)
        case Ok(v) => Step(ivars1[iv := Keyed(slot.entries + [(args, v)])], Ok(v), true)
        case Err(e) => Step(ivars1, Err(e), true)
  }

  /** A call of the wrapper of shape `shape` whose cache is the instance
      variable `iv`. */
  function WrapperCall(ivars: Ivars, iv: string, shape: Shape, args: seq<Value>, original: seq<Value> -> Result<Value>): Step {
    if !ShapeAccepts(shape, |args|) then Step(ivars, Err(ArgumentError), false)
    else if shape.NoParams? then ZeroArityCall(ivars, iv, original)
    else KeyedCall(ivars, iv, args, original)
  }

  /** The generated wrapper of `name`, run on the instance `o`. */
  method Call(o: Owner, name: string, shape: Shape, args: seq<Value>, original: seq<Value> -> Result<Value>)
    returns (r: Result<Value>)
    modifies o
    ensures var s := WrapperCall(old(o.ivars), IvarName(name), shape, args, original);
      o.ivars == s.ivars && r == s.result &&
      o.log == old(o.log) + (if s.called then [Invocation(name, args)] else [])
  {
    if !ShapeAccepts(shape, |args|) {
      return Err(ArgumentError);
    }
    var iv := IvarName(name);
    if shape.NoParams? {
      if iv !in o.ivars || o.ivars[iv].Cleared? {
        var computed := original([]);
        o.log := o.log + [Invocation(name, args)];
        if computed.Err? {
          return computed;
        }
        o.ivars := o.ivars[iv := Single(computed.value)];
      }
      var slot := o.ivars[iv];
      r := if slot.Single? then Ok(slot.value) else Ok(First(slot.entries));
    } else {
      if iv !in o.ivars || o.ivars[iv].Cleared? {
        o.ivars := o.ivars[iv := Keyed([])];
      }
      var slot := o.ivars[iv];
      if slot.Single? {
        return Err(NoMethodError);
      }
      var found := Lookup(slot.entries, args);
      if found.Some? {
        return Ok(found.value);
      }
      r := original(args);
      o.log := o.log + [Invocation(name, args)];
      if r.Ok? {
        o.ivars := o.ivars[iv := Keyed(slot.entries + [(args, r.value)])];
      }
    }
  }

  // ---------------------------------------------------------------------------
  // What one call does
  // ---------------------------------------------------------------------------

  /** The slot is unset or nil, or holds what this kind of wrapper writes: an
      Array for the zero-argument wrapper, a Hash for the others. It differs
      only when two members share a safe name. */
  predicate Compatible(ivars: Ivars, iv: string, shape: Shape) {
    !Populated(ivars, iv) || (if shape.NoParams? then ivars[iv].Single? else ivars[iv].Keyed?)
  }

  /** The keyed wrapper: a hit returns the stored value without calling the
      original; a miss calls the original once with the full argument list,
      stores a success under that list and returns it; a failure stores
      nothing; other argument lists and other instance variables are left
      alone. */
  lemma KeyedCallSpec(ivars: Ivars, iv: string, shape: Shape, args: seq<Value>, original: seq<Value> -> Result<Value>)
    requires ShapeAccepts(shape, |args|) && !shape.NoParams?
    requires Compatible(ivars, iv, shape)
    ensures var s := WrapperCall(ivars, iv, shape, args, original);
      && (s.called <==> Entry(ivars, iv, args).None?)
      && (Entry(ivars, iv, args).Some? ==> s.result == Ok(Entry(ivars, iv, args).value) && s.ivars == ivars)
      && (s.called ==> s.result == original(args))
      && Entry(s.ivars, iv, args) == (if s.result.Ok? then Some(s.result.value) else None)
      && (forall k :: k != args ==> Entry(s.ivars, iv, k) == Entry(ivars, iv, k))
      && OthersUnchanged(ivars, s.ivars, iv)
      && Compatible(s.ivars, iv, shape)
  {
    var es := if Populated(ivars, iv) then ivars[iv].entries else [];
    if Lookup(es, args).None? && original(args).Ok? {
      var v := original(args).value;
      forall k
        ensures Lookup(es + [(args, v)], k) == if k == args then Some(v) else Lookup(es, k)
      {
        LookupAppend(es, args, v, k);
      }
    }
  }

  /** The zero-argument wrapper: the original runs only while the slot is
      unset or nil; a success, nil included, is stored as a one-element Array
      and returned; a failure stores nothing. */
  lemma ZeroArityCallSpec(ivars: Ivars, iv: string, original: seq<Value> -> Result<Value>)
    requires Compatible(ivars, iv, NoParams)
    ensures var s := WrapperCall(ivars, iv, NoParams, [], original);
      && (s.called <==> !Populated(ivars, iv))
      && (!s.called ==> s.result == Ok(ivars[iv].value) && s.ivars == ivars)
      && (s.called ==> s.result == original([]))
      && (s.result.Ok? ==> iv in s.ivars && s.ivars[iv] == Single(s.result.value))
      && (s.result.Err? ==> s.ivars == ivars)
      && OthersUnchanged(ivars, s.ivars, iv)
  {
  }

  /** Asking again with the same arguments after a success is a hit, whatever
      the original would now return (so nil and false results are cached too). */
  lemma RepeatIsHit(ivars: Ivars, iv: string, shape: Shape, args: seq<Value>,
                    first: seq<Value> -> Result<Value>, second: seq<Value> -> Result<Value>)
    requires ShapeAccepts(shape, |args|) && Compatible(ivars, iv, shape)
    ensures var s1 := WrapperCall(ivars, iv, shape, args, first);
      s1.result.Ok? ==> WrapperCall(s1.ivars, iv, shape, args, second) == Step(s1.ivars, s1.result, false)
  {
    if !shape.NoParams? {
      KeyedCallSpec(ivars, iv, shape, args, first);
    }
  }

  /** A call whose original raised leaves no entry, so the next call with the
      same arguments runs the original again. */
  lemma FailureIsRetried(ivars: Ivars, iv: string, shape: Shape, args: seq<Value>,
                         first: seq<Value> -> Result<Value>, second: seq<Value> -> Result<Value>)
    requires ShapeAccepts(shape, |args|) && Compatible(ivars, iv, shape)
    ensures var s1 := WrapperCall(ivars, iv, shape, args, first);
      s1.result.Err? ==> s1.called && WrapperCall(s1.ivars, iv, shape, args, second).called
  {
    if !shape.NoParams? {
      KeyedCallSpec(ivars, iv, shape, args, first);
      KeyedCallSpec(WrapperCall(ivars, iv, shape, args, first).ivars, iv, shape, args, second);
    }
  }

  /** After `unmemoize`, every accepted call runs the original again, for every
      argument list. */
  lemma UnmemoizeRecomputes(ivars: Ivars, iv: string, shape: Shape, args: seq<Value>, original: seq<Value> -> Result<Value>)
    requires ShapeAccepts(shape, |args|)
    ensures var s := WrapperCall(ivars[iv := Cleared], iv, shape, args, original);
      s.called && s.result == original(args)
  {
  }

  /** An instance variable never set and one set to nil behave the same, so
      `unmemoize` of a slot that was never populated changes nothing a caller
      can observe. */
  lemma SameCachesSameCalls(a: Ivars, b: Ivars, iv: string, shape: Shape, args: seq<Value>, original: seq<Value> -> Result<Value>)
    requires SameCaches(a, b)
    ensures var sa := WrapperCall(a, iv, shape, args, original);
      var sb := WrapperCall(b, iv, shape, args, original);
      sa.result == sb.result && sa.called == sb.called && SameCaches(sa.ivars, sb.ivars)
  {
    var sa := WrapperCall(a, iv, shape, args, original);
    var sb := WrapperCall(b, iv, shape, args, original);
    assert Populated(a, iv) <==> Populated(b, iv);
    forall other
      ensures (Populated(sa.ivars, other) <==> Populated(sb.ivars, other))
        && (Populated(sa.ivars, other) ==> sa.ivars[other] == sb.ivars[other])
    {
      assert Populated(a, other) <==> Populated(b, other);
    }
  }

  lemma UnmemoizeUnpopulatedIsNoop(ivars: Ivars, iv: string)
    requires !Populated(ivars, iv)
    ensures SameCaches(ivars, ivars[iv := Cleared])
  {
  }

  // ---------------------------------------------------------------------------
  // Runs of calls: the original runs at most once per argument list
  // ---------------------------------------------------------------------------

  /** What happens to one instance, in order. */
  datatype Event =
    | Invoke(name: string, shape: Shape, args: seq<Value>, original: seq<Value> -> Result<Value>)
    | Unmemoize(name: string)
    | UnmemoizeAll(methods: seq<string>)

  function After(ivars: Ivars, e: Event): Ivars {
    match e
    case Invoke(n, sh, a, f) => WrapperCall(ivars, IvarName(n), sh, a, f).ivars
    case Unmemoize(n) => ivars[IvarName(n) := Cleared]
    case UnmemoizeAll(ms) => ClearAll(ivars, Targets(ms))
  }

  /** The event invalidates the instance variable `iv`. */
  predicate Clears(e: Event, iv: string) {
    (e.Unmemoize? && IvarName(e.name) == iv) || (e.UnmemoizeAll? && iv in Targets(e.methods))
  }

  /** The event runs an original successfully for `args` through the slot `iv`. */
  predicate Computes(ivars: Ivars, e: Event, iv: string, args: seq<Value>) {
    e.Invoke? && IvarName(e.name) == iv && e.args == args &&
    var s := WrapperCall(ivars, iv, e.shape, args, e.original);
    s.called && s.result.Ok?
  }

  /** How many events of the run compute `args` through `iv`. */
  function Computations(ivars: Ivars, events: seq<Event>, iv: string, args: seq<Value>): nat
    decreases |events|
  {
    if events == [] then 0
    else
      (if Computes(ivars, events[0], iv, args) then 1 else 0) +
      Computations(After(ivars, events[0]), events[1..], iv, args)
  }

  /** A call through `iv` with `args` cannot reach the original. */
  predicate Settled(ivars: Ivars, iv: string, args: seq<Value>) {
    Populated(ivars, iv) && (ivars[iv].Single? || Lookup(ivars[iv].entries, args).Some?)
  }

  lemma SettledStaysSettled(ivars: Ivars, e: Event, iv: string, args: seq<Value>)
    requires Settled(ivars, iv, args) && !Clears(e, iv)
    ensures Settled(After(ivars, e), iv, args) && !Computes(ivars, e, iv, args)
  {
    match e
    case Invoke(n, sh, a, f) =>
      if IvarName(n) == iv {
        SettledCall(ivars, iv, sh, a, f, args);
      } else {
        CallKeepsOthers(ivars, IvarName(n), sh, a, f);
      }
    case Unmemoize(n) =>
    case UnmemoizeAll(ms) =>
  }

  /** A call through a settled slot leaves it settled, and cannot compute
      the settled arguments again. */
  lemma SettledCall(ivars: Ivars, iv: string, shape: Shape, a: seq<Value>, original: seq<Value> -> Result<Value>,
                    args: seq<Value>)
    requires Settled(ivars, iv, args)
    ensures var s := WrapperCall(ivars, iv, shape, a, original);
      Settled(s.ivars, iv, args) && !(a == args && s.called && s.result.Ok?)
  {
    var s := WrapperCall(ivars, iv, shape, a, original);
    if s.called && s.result.Ok? && ivars[iv].Keyed? {
      LookupAppend(ivars[iv].entries, a, s.result.value, args);
    }
  }

  /** A wrapper call changes no instance variable but its own. */
  lemma CallKeepsOthers(ivars: Ivars, iv: string, shape: Shape, args: seq<Value>, original: seq<Value> -> Result<Value>)
    ensures OthersUnchanged(ivars, WrapperCall(ivars, iv, shape, args, original).ivars, iv)
  {
  }

  lemma ComputingSettles(ivars: Ivars, e: Event, iv: string, args: seq<Value>)
    requires Computes(ivars, e, iv, args)
    ensures Settled(After(ivars, e), iv, args)
  {
    var s := WrapperCall(ivars, iv, e.shape, args, e.original);
    if !e.shape.NoParams? {
      var es := if Populated(ivars, iv) then ivars[iv].entries else [];
      LookupAppend(es, args, s.result.value, args);
    }
  }

  /** Until something invalidates `iv`, the original runs successfully at
      most once per argument list, and never once the result is stored. */
  lemma {:induction false} AtMostOnce(ivars: Ivars, events: seq<Event>, iv: string, args: seq<Value>)
    requires forall i :: 0 <= i < |events| ==> !Clears(events[i], iv)
    ensures Computations(ivars, events, iv, args) <= if Settled(ivars, iv, args) then 0 else 1
    decreases |events|
  {
    if events != [] {
      var next := After(ivars, events[0]);
      AtMostOnce(next, events[1..], iv, args);
      if Settled(ivars, iv, args) {
        SettledStaysSettled(ivars, events[0], iv, args);
      } else if Computes(ivars, events[0], iv, args) {
        ComputingSettles(ivars, events[0], iv, args);
      }
    }
  }

  // ---------------------------------------------------------------------------
  // The class: `memoize` over a method table
  // ---------------------------------------------------------------------------

  /** A method of the class: an original with its arity, or a generated
      wrapper caching in `ivar` and calling `target` on a miss. */
  datatype Impl =
    | Original(arity: int, visibility: Visibility)
    | Wrapper(shape: Shape, ivar: string, target: string, visibility: Visibility)

  function ImplArity(impl: Impl): int {
    match impl
    case Original(a, _) => a
    case Wrapper(sh, _, _, _) => Arity(sh)
  }

  type Table = map<string, Impl>

  /** One pass of `memoize`'s loop as lib/memoized.rb writes it:
      `alias_method` (NameError when the method is missing), then a wrapper of
      the alias's arity and visibility. */
  function MemoizeOneAsWritten(t: Table, name: string): Result<Table> {
    if name !in t then Err(NameError(name))
    else
      var impl := t[name];
      var alias := AliasName(name);
      Ok(t[alias := impl][name := Wrapper(ShapeOf(ImplArity(impl)), IvarName(name), alias, impl.visibility)])
  }

  /** Memoizing one name twice re-points the alias at the first wrapper, which
      calls the alias on a miss: that is, itself, without end. */
  lemma MemoizeTwiceLoops(t: Table, name: string)
    requires name in t
    ensures var once := MemoizeOneAsWritten(t, name);
      once.Ok? &&
      var twice := MemoizeOneAsWritten(once.value, name);
      twice.Ok? && AliasName(name) in twice.value &&
      twice.value[AliasName(name)].Wrapper? && twice.value[AliasName(name)].target == AliasName(name)
  {
    assert AliasName(name) != name;
  }

  /** `memoize` of one name, leaving an already memoized name alone. */
  function MemoizeOne(t: Table, name: string): Result<Table> {
    if name in t && t[name].Wrapper? then Ok(t) else MemoizeOneAsWritten(t, name)
  }

  /** Every wrapper caches in its own instance variable, calls its own alias,
      and has the alias's arity and visibility; in particular no wrapper calls
      itself. */
  ghost predicate ValidTable(t: Table) {
    forall n | n in t && t[n].Wrapper? ::
      && t[n].target == AliasName(n) && t[n].ivar == IvarName(n)
      && WellFormed(t[n].shape) && AliasName(n) in t
      && Arity(t[n].shape) == ImplArity(t[AliasName(n)])
      && t[n].visibility == t[AliasName(n)].visibility
  }

  lemma MemoizeOneValid(t: Table, name: string)
    requires ValidTable(t)
    ensures MemoizeOne(t, name).Ok? ==> ValidTable(MemoizeOne(t, name).value)
    ensures MemoizeOne(t, name).Ok? <==> name in t
  {
    if name in t && !t[name].Wrapper? {
      var t' := MemoizeOne(t, name).value;
      forall n | n in t' && t'[n].Wrapper?
        ensures t'[n].target == AliasName(n) && t'[n].ivar == IvarName(n)
          && WellFormed(t'[n].shape) && AliasName(n) in t'
          && Arity(t'[n].shape) == ImplArity(t'[AliasName(n)])
          && t'[n].visibility == t'[AliasName(n)].visibility
      {
        if n != name {
          AliasNameInjective(n, name);
        }
      }
    }
  }

  /** What `memoize(*names)` leaves: the new table, and the error that stopped
      it, if any. */
  datatype Outcome = Outcome(table: Table, error: Option<Exception>)

  function MemoizeAll(t: Table, names: seq<string>): Outcome
    decreases |names|
  {
    if names == [] then Outcome(t, None)
    else
      match MemoizeOne(t, names[0])
      case Err(e) => Outcome(t, Some(e))
      case Ok(t') => MemoizeAll(t', names[1..])
  }

  lemma MemoizeAllStep(t: Table, names: seq<string>, i: nat)
    requires i < |names|
    ensures var r := MemoizeOne(t, names[i]);
      MemoizeAll(t, names[i..]) ==
        if r.Err? then Outcome(t, Some(r.error)) else MemoizeAll(r.value, names[i + 1..])
  {
    assert names[i..][1..] == names[i + 1..];
  }

  lemma {:induction false} MemoizeAllValid(t: Table, names: seq<string>)
    requires ValidTable(t)
    ensures ValidTable(MemoizeAll(t, names).table)
    decreases |names|
  {
    if names != [] {
      MemoizeOneValid(t, names[0]);
      if MemoizeOne(t, names[0]).Ok? {
        MemoizeAllValid(MemoizeOne(t, names[0]).value, names[1..]);
      }
    }
  }

  /** No name in the list is the alias of a name in the list. */
  predicate NoAliasAmong(names: seq<string>) {
    forall i, j :: 0 <= i < |names| && 0 <= j < |names| ==> names[i] != AliasName(names[j])
  }

  lemma NoAliasAmongTail(names: seq<string>)
    requires names != [] && NoAliasAmong(names)
    ensures NoAliasAmong(names[1..])
  {
    forall i, j | 0 <= i < |names| - 1 && 0 <= j < |names| - 1
      ensures names[1..][i] != AliasName(names[1..][j])
    {
      assert names[1..][i] == names[i + 1] && names[1..][j] == names[j + 1];
    }
  }

  /** Memoizing one existing name changes exactly that name and its alias: an
      existing wrapper is left alone; otherwise the alias holds the original
      method and the name holds a wrapper with the original's arity and
      visibility that calls the alias. Every other method is unchanged. */
  lemma MemoizeOneWraps(t: Table, name: string)
    requires name in t
    ensures MemoizeOne(t, name).Ok?
    ensures var t' := MemoizeOne(t, name).value;
      && t.Keys <= t'.Keys
      && t'[name].Wrapper?
      && (forall n :: n in t && n != AliasName(name) ==>
            ImplArity(t'[n]) == ImplArity(t[n]) && t'[n].visibility == t[n].visibility &&
            (t[n].Wrapper? ==> t'[n] == t[n]))
    ensures var t' := MemoizeOne(t, name).value;
      t[name].Wrapper? ==> t' == t
    ensures var t' := MemoizeOne(t, name).value;
      !t[name].Wrapper? ==>
        && t'.Keys == t.Keys + {AliasName(name)}
        && t'[AliasName(name)] == t[name]
        && t'[name] == Wrapper(ShapeOf(ImplArity(t[name])), IvarName(name), AliasName(name), t[name].visibility)
        && (forall n :: n in t && n != name && n != AliasName(name) ==> t'[n] == t[n])
  {
    assert AliasName(name) != name;
  }

  /** Memoizing methods that all exist succeeds and changes exactly those
      names and the aliases of the ones not yet wrapped: each such alias holds
      its original, each such name holds the wrapper that calls it, and every
      other method is unchanged. */
  lemma {:induction false} MemoizeAllWraps(t: Table, names: seq<string>)
    requires forall i :: 0 <= i < |names| ==> names[i] in t
    requires NoAliasAmong(names)
    ensures var r := MemoizeAll(t, names);
      && r.error == None
      && t.Keys <= r.table.Keys
      && (forall i :: 0 <= i < |names| ==> r.table[names[i]].Wrapper?)
      && (forall n :: n in t && (forall j :: 0 <= j < |names| ==> n != AliasName(names[j])) ==>
            ImplArity(r.table[n]) == ImplArity(t[n]) && r.table[n].visibility == t[n].visibility &&
            (t[n].Wrapper? ==> r.table[n] == t[n]))
    ensures var r := MemoizeAll(t, names);
      forall i :: 0 <= i < |names| && !t[names[i]].Wrapper? ==>
        && AliasName(names[i]) in r.table
        && r.table[AliasName(names[i])] == t[names[i]]
        && r.table[names[i]] ==
             Wrapper(ShapeOf(ImplArity(t[names[i]])), IvarName(names[i]), AliasName(names[i]), t[names[i]].visibility)
    ensures var r := MemoizeAll(t, names);
      forall n :: n in r.table ==> n in t || exists j :: 0 <= j < |names| && n == AliasName(names[j])
    ensures var r := MemoizeAll(t, names);
      forall n :: n in t && Untouched(t, names, n) ==> r.table[n] == t[n]
  {
    MemoizeAllWrapsNames(t, names);
    MemoizeAllUntouched(t, names);
    MemoizeAllKeys(t, names);
    MemoizeAllAliases(t, names);
  }

  /** Memoizing methods that all exist succeeds, wraps every one of them, and
      keeps every other method's arity and visibility, and every wrapper. */
  lemma {:induction false} MemoizeAllWrapsNames(t: Table, names: seq<string>)
    requires forall i :: 0 <= i < |names| ==> names[i] in t
    requires NoAliasAmong(names)
    ensures var r := MemoizeAll(t, names);
      && r.error == None
      && t.Keys <= r.table.Keys
      && (forall i :: 0 <= i < |names| ==> r.table[names[i]].Wrapper?)
      && (forall n :: n in t && (forall j :: 0 <= j < |names| ==> n != AliasName(names[j])) ==>
            ImplArity(r.table[n]) == ImplArity(t[n]) && r.table[n].visibility == t[n].visibility &&
            (t[n].Wrapper? ==> r.table[n] == t[n]))
    decreases |names|
  {
    if names != [] {
      var t' := MemoizeOne(t, names[0]).value;
      MemoizeOneWraps(t, names[0]);
      NoAliasAmongTail(names);
      assert forall i :: 0 <= i < |names[1..]| ==> names[1..][i] in t';
      MemoizeAllWrapsNames(t', names[1..]);
      var r := MemoizeAll(t', names[1..]);
      forall i | 0 <= i < |names|
        ensures r.table[names[i]].Wrapper?
      {
        if i > 0 {
          assert names[i] == names[1..][i - 1];
        } else {
          assert forall j :: 0 <= j < |names[1..]| ==> names[0] != AliasName(names[1..][j]);
        }
      }
      forall n | n in t && (forall j :: 0 <= j < |names| ==> n != AliasName(names[j]))
        ensures ImplArity(r.table[n]) == ImplArity(t[n]) && r.table[n].visibility == t[n].visibility
        ensures t[n].Wrapper? ==> r.table[n] == t[n]
      {
        assert forall j :: 0 <= j < |names[1..]| ==> n != AliasName(names[1..][j]);
      }
    }
  }

  /** No step of the list writes `n`: every name is already a wrapper, which
      is skipped, or is neither `n` nor the alias of `n`. */
  ghost predicate Untouched(t: Table, names: seq<string>, n: string)
    requires forall i :: 0 <= i < |names| ==> names[i] in t
  {
    forall j :: 0 <= j < |names| ==>
      t[names[j]].Wrapper? || (n != names[j] && n != AliasName(names[j]))
  }

  /** A method untouched by the whole list is untouched by its tail, in the
      table the first step leaves. */
  lemma UntouchedTail(t: Table, names: seq<string>, n: string)
    requires forall i :: 0 <= i < |names| ==> names[i] in t
    requires names != [] && NoAliasAmong(names)
    requires n in t && Untouched(t, names, n)
    ensures var t' := MemoizeOne(t, names[0]).value;
      && (forall i :: 0 <= i < |names[1..]| ==> names[1..][i] in t')
      && n in t' && t'[n] == t[n] && Untouched(t', names[1..], n)
  {
    var t' := MemoizeOne(t, names[0]).value;
    MemoizeOneWraps(t, names[0]);
    forall j | 0 <= j < |names[1..]|
      ensures t'[names[1..][j]].Wrapper? || (n != names[1..][j] && n != AliasName(names[1..][j]))
    {
      var m := names[1..][j];
      assert m == names[j + 1];
      if t[m].Wrapper? {
        assert m != AliasName(names[0]);
        if m != names[0] {
          assert t'[m] == t[m];
        }
      }
    }
  }

  /** The name and the alias the first step writes are untouched by the rest
      of the list. */
  lemma FirstUntouched(t: Table, names: seq<string>)
    requires forall i :: 0 <= i < |names| ==> names[i] in t
    requires names != [] && NoAliasAmong(names) && !t[names[0]].Wrapper?
    ensures var t' := MemoizeOne(t, names[0]).value;
      && (forall i :: 0 <= i < |names[1..]| ==> names[1..][i] in t')
      && names[0] in t' && Untouched(t', names[1..], names[0])
      && AliasName(names[0]) in t' && Untouched(t', names[1..], AliasName(names[0]))
  {
    var t' := MemoizeOne(t, names[0]).value;
    MemoizeOneWraps(t, names[0]);
    forall j | 0 <= j < |names[1..]|
      ensures t'[names[1..][j]].Wrapper? || (names[0] != names[1..][j] && names[0] != AliasName(names[1..][j]))
      ensures t'[names[1..][j]].Wrapper? ||
        (AliasName(names[0]) != names[1..][j] && AliasName(names[0]) != AliasName(names[1..][j]))
    {
      var m := names[1..][j];
      assert m == names[j + 1];
      if m != names[0] {
        AliasNameInjective(m, names[0]);
      }
    }
  }

  /** `memoize(*names)` over existing names leaves every untouched method as
      it was. */
  lemma {:induction false} MemoizeAllUntouched(t: Table, names: seq<string>)
    requires forall i :: 0 <= i < |names| ==> names[i] in t
    requires NoAliasAmong(names)
    ensures var r := MemoizeAll(t, names);
      forall n :: n in t && Untouched(t, names, n) ==> n in r.table && r.table[n] == t[n]
    decreases |names|
  {
    if names != [] {
      var t' := MemoizeOne(t, names[0]).value;
      MemoizeOneWraps(t, names[0]);
      NoAliasAmongTail(names);
      assert forall i :: 0 <= i < |names[1..]| ==> names[1..][i] in t';
      MemoizeAllUntouched(t', names[1..]);
      forall n | n in t && Untouched(t, names, n)
        ensures n in MemoizeAll(t, names).table && MemoizeAll(t, names).table[n] == t[n]
      {
        UntouchedTail(t, names, n);
      }
    }
  }

  /** `memoize(*names)` over existing names adds no method but aliases. */
  lemma {:induction false} MemoizeAllKeys(t: Table, names: seq<string>)
    requires forall i :: 0 <= i < |names| ==> names[i] in t
    ensures var r := MemoizeAll(t, names);
      forall n :: n in r.table ==> n in t || exists j :: 0 <= j < |names| && n == AliasName(names[j])
    decreases |names|
  {
    if names != [] {
      var t' := MemoizeOne(t, names[0]).value;
      MemoizeOneWraps(t, names[0]);
      assert forall i :: 0 <= i < |names[1..]| ==> names[1..][i] in t';
      MemoizeAllKeys(t', names[1..]);
      forall n | n in MemoizeAll(t, names).table
        ensures n in t || exists j :: 0 <= j < |names| && n == AliasName(names[j])
      {
        if n !in t' {
          var j :| 0 <= j < |names[1..]| && n == AliasName(names[1..][j]);
          assert names[1..][j] == names[j + 1];
        } else if n !in t {
          assert n == AliasName(names[0]);
        }
      }
    }
  }

  /** After `memoize(*names)` over existing names, every name that was not yet
      wrapped holds the wrapper that calls its alias, and the alias holds the
      original method. */
  lemma {:induction false} MemoizeAllAliases(t: Table, names: seq<string>)
    requires forall i :: 0 <= i < |names| ==> names[i] in t
    requires NoAliasAmong(names)
    ensures var r := MemoizeAll(t, names);
      forall i :: 0 <= i < |names| && !t[names[i]].Wrapper? ==>
        && names[i] in r.table && AliasName(names[i]) in r.table
        && r.table[AliasName(names[i])] == t[names[i]]
        && r.table[names[i]] ==
             Wrapper(ShapeOf(ImplArity(t[names[i]])), IvarName(names[i]), AliasName(names[i]), t[names[i]].visibility)
    decreases |names|
  {
    if names != [] {
      var t' := MemoizeOne(t, names[0]).value;
      MemoizeOneWraps(t, names[0]);
      NoAliasAmongTail(names);
      assert forall i :: 0 <= i < |names[1..]| ==> names[1..][i] in t';
      MemoizeAllAliases(t', names[1..]);
      if !t[names[0]].Wrapper? {
        FirstUntouched(t, names);
        MemoizeAllUntouched(t', names[1..]);
      }
      forall i | 0 <= i < |names| && !t[names[i]].Wrapper?
        ensures names[i] in MemoizeAll(t, names).table && AliasName(names[i]) in MemoizeAll(t, names).table
        ensures MemoizeAll(t, names).table[AliasName(names[i])] == t[names[i]]
        ensures MemoizeAll(t, names).table[names[i]] ==
          Wrapper(ShapeOf(ImplArity(t[names[i]])), IvarName(names[i]), AliasName(names[i]), t[names[i]].visibility)
      {
        if names[i] != names[0] {
          assert names[i] == names[1..][i - 1];
          assert names[i] != AliasName(names[0]);
        }
      }
    }
  }

  /** A `memoize` that stops, stops at a name the class does not define. */
  lemma {:induction false} MemoizeAllStops(t: Table, names: seq<string>)
    ensures var r := MemoizeAll(t, names);
      r.error.Some? ==> exists i :: 0 <= i < |names| && r.error == Some(NameError(names[i])) && names[i] !in r.table
    decreases |names|
  {
    if names != [] && MemoizeOne(t, names[0]).Ok? {
      MemoizeAllStops(MemoizeOne(t, names[0]).value, names[1..]);
      var r := MemoizeAll(t, names);
      if r.error.Some? {
        var i :| 0 <= i < |names[1..]| && r.error == Some(NameError(names[1..][i])) && names[1..][i] !in r.table;
        assert names[i + 1] == names[1..][i];
      }
    }
  }

  lemma {:induction false} MemoizeAllSkipsWrappers(t: Table, names: seq<string>)
    requires forall i :: 0 <= i < |names| ==> names[i] in t && t[names[i]].Wrapper?
    ensures MemoizeAll(t, names) == Outcome(t, None)
    decreases |names|
  {
    if names != [] {
      MemoizeAllSkipsWrappers(t, names[1..]);
    }
  }

  /** `memoize` is idempotent: a second `memoize` of the same names changes
      nothing. */
  lemma MemoizeAllIdempotent(t: Table, names: seq<string>)
    requires forall i :: 0 <= i < |names| ==> names[i] in t
    requires NoAliasAmong(names)
    ensures var r := MemoizeAll(t, names);
      MemoizeAll(r.table, names) == Outcome(r.table, None)
  {
    MemoizeAllWraps(t, names);
    var r := MemoizeAll(t, names);
    assert forall i :: 0 <= i < |names| ==> names[i] in r.table;
    MemoizeAllSkipsWrappers(r.table, names);
  }

  /** A wrapper accepts exactly the argument counts its original admits. */
  lemma WrapperAcceptsAsOriginal(t: Table, name: string, n: nat)
    requires ValidTable(t) && name in t && t[name].Wrapper?
    ensures t[name].target in t
    ensures ShapeAccepts(t[name].shape, n) <==> ArityAdmits(ImplArity(t[t[name].target]), n)
  {
    ShapeOfArity(t[name].shape);
    AcceptsAsOriginal(ImplArity(t[t[name].target]), n);
  }

  /** `unmemoize_all`, given every method name of the instance, clears the
      cache of every memoized method, whether or not it was ever called. */
  lemma UnmemoizeAllClearsEveryWrapper(t: Table, methods: seq<string>, name: string)
    requires ValidTable(t)
    requires forall m :: m in t ==> m in methods
    requires name in t && t[name].Wrapper? && NoNewline(name)
    ensures t[name].ivar in Targets(methods)
  {
    TargetsCoverAliases(methods, name);
  }

  /** A class that includes `Memoized`: its method table. */
  class Klass {
    var methods: Table

    ghost predicate Valid()
      reads this
    {
      ValidTable(methods)
    }

    /** A class whose methods are all originals. */
    constructor (originals: map<string, Impl>)
      requires forall n :: n in originals ==> originals[n].Original?
      ensures methods == originals && Valid()
    {
      methods := originals;
    }

    /** `memoize(*names)`: wraps each name in turn, stopping at the first that
        is not defined. */
    method Memoize(names: seq<string>) returns (error: Option<Exception>)
      requires Valid()
      modifies this
      ensures Valid()
      ensures Outcome(methods, error) == MemoizeAll(old(methods), names)
    {
      var i := 0;
      while i < |names|
        invariant 0 <= i <= |names|
        invariant Valid()
        invariant MemoizeAll(old(methods), names) == MemoizeAll(methods, names[i..])
      {
        ghost var next := MemoizeOne(methods, names[i]);
        MemoizeAllStep(methods, names, i);
        MemoizeOneValid(methods, names[i]);
        var name := names[i];
        if name in methods && methods[name].Wrapper? {
          // already memoized: left alone
        } else if name !in methods {
          return Some(NameError(name));
        } else {
          var impl := methods[name];
          var alias := AliasName(name);
          methods := methods[alias := impl];
          methods := methods[name := Wrapper(ShapeOf(ImplArity(impl)), IvarName(name), alias, impl.visibility)];
        }
        assert next == Ok(methods);
        i := i + 1;
      }
      error := None;
    }
  }
}
