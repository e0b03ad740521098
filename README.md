# Memoizer and Memoized, modelled in Dafny

This project models the core of the Ruby memoization library `memoizer`. It
covers two memo stores and the parameter classifier that one of them ships.

- `Memoized` (`lib/memoized.rb`). `memoize` reads the original method's
  arity and generates a wrapper with the same parameter list shape. The
  original is kept under the alias `_unmemoized_<name>`. Each result is
  cached in the instance variable `@_memoized_<safe name>`. A zero-arity
  method caches a one-element Array. Any other method caches a Hash keyed by
  the full argument list.
- `Memoizer` (`lib/memoizer.rb`) is the older store. `memoize` records every
  name in a per-class registry, so a repeated `memoize` does nothing. Its
  `|*args|` wrapper chooses its cache kind with `is_a?(Array)` and
  `is_a?(Hash)`.
- `Memoized::Parameters` (`lib/memoized/parameters.rb`) does three things:
  - It sorts a method's `(kind, name)` parameter list into six kinds and
    rejects blocks, unknown kinds and a second rest parameter.
  - It renders a signature whose optional slots default to the sentinel
    `UNIQUE`.
  - It renders the code that builds the cache key `[all_args, all_kwargs]`.

Layout, one module per file:

- `values.dfy` (`Values`): Ruby values, exceptions, visibility, `Result`
  and `Option`, and a few string predicates.
- `naming.dfy` (`Naming`): `safe_name`, `ivar_name`, the alias name, and
  the `/^_unmemoized_(.*)/` match. Both libraries share these.
- `slots.dfy` (`Slots`): the cache slots and the class `Owner`. `Owner`
  holds an instance's instance variables and a ghost log of calls to the
  originals. It also provides `unmemoize` and `unmemoize_all`, which are
  the same in both libraries.
- `memoized.dfy` (`Memoized`): wrapper shapes, the generated wrapper bodies,
  the trace theorem, and the class `Klass` with `memoize`.
- `memoizer.dfy` (`Memoizer`): the `define_method` body, the trace theorem,
  and the class `Klass` with the registry and `memoize`.
- `parameters.dfy` (`Parameters`): classification with the constructor
  loop, `params`, `signature`, the cache-key code and what it computes, and
  the sentinel.

The model takes the following as inputs:

- the original method, as a function from an argument list to a `Result`;
- its arity, on the `Impl` of a method table;
- the list of the instance's method names given to `unmemoize_all`;
- for `cache_key`, the values bound to the parameters.

## Model

| member | source | states |
|---|---|---|
| Naming.SubAtEnd | lib/memoized.rb:8 | `sub(/c\Z/, r)` leaves a string without a final `c` unchanged and replaces a final `c` by `r` |
| Naming.SafeNameShape | lib/memoized.rb:7-9 | a safe name never ends in `?` or `!`; a trailing `?` becomes `_query` and a trailing `!` becomes `_bang`; any other name is unchanged |
| Naming.SafeNameCollision | lib/memoized.rb:7-9 | `safe_name` is not injective: `foo?` and `foo_query` share one slot, and so do `foo!` and `foo_bang` |
| Naming.SafeNameIdempotent | lib/memoizer.rb:7-9 | applying `safe_name` twice gives the same result as applying it once |
| Naming.IvarName | lib/memoized.rb:11-13 | the slot name is `@_memoized_` followed by the safe name; this contract is definitional, and the property callers rely on is `IvarNameShared` |
| Naming.IvarNameShared | lib/memoizer.rb:11-13 | two methods share a slot if and only if their safe names are equal |
| Naming.AliasName | lib/memoized.rb:19 | the alias is `_unmemoized_` followed by the method name |
| Naming.AliasNameInjective | lib/memoizer.rb:28 | distinct names get distinct aliases |
| Naming.LineEnd | lib/memoized.rb:96 | the captured `(.*)` stops at the first newline |
| Naming.UnaliasedName | lib/memoized.rb:96-97 | for a name without newlines, the match succeeds if and only if the name starts with `_unmemoized_`, and the capture is the rest of the name |
| Naming.UnaliasedNameOfAlias | lib/memoizer.rb:77-78 | the name recovered from an alias is the name that was aliased |
| Slots.Lookup | lib/memoized.rb:37-38 | `has_key?` and `hash[k]`: a value is found if and only if some entry has key `k`, and the value found is stored under `k` |
| Slots.LookupAppend | lib/memoized.rb:40 | storing a new key answers that key with the new value and leaves every other key's answer unchanged |
| Slots.First | lib/memoized.rb:29 | `Hash#first` is nil for an empty hash, and otherwise the first key paired with its value |
| Slots.TargetsCoverAliases | lib/memoized.rb:94-100 | every method whose alias is among the instance's methods has its slot among those `unmemoize_all` clears |
| Slots.ClearAll | lib/memoized.rb:94-100 | after clearing, every target is nil and every other instance variable is unchanged |
| Slots.ClearAllStep | lib/memoized.rb:94-100 | handling one more method name clears that name's slot when it is an alias, and changes nothing otherwise |
| Slots.Owner.Unmemoize | lib/memoized.rb:90-92 | sets exactly one slot to nil, which clears every argument key at once; calls nothing |
| Slots.Owner.UnmemoizeAll | lib/memoizer.rb:75-81 | the loop's final state is `ClearAll` of the names recovered from the method list; calls nothing |
| Memoized.ShapeOf | lib/memoized.rb:23-78 | the generated parameter list has exactly the original's arity, for arity 0, -1, -n-1 and k > 0 |
| Memoized.ShapeOfArity | lib/memoized.rb:25-63 | each well-formed shape is the one generated for its own arity |
| Memoized.AcceptsAsOriginal | lib/memoized.rb:27-68 | the wrapper accepts an argument count if and only if the original's arity admits it |
| Memoized.Call | lib/memoized.rb:26-77 | the generated wrapper run on an instance: its new instance variables and result are those of `WrapperCall`, and the log gains one invocation exactly when the original ran |
| Memoized.KeyedCallSpec | lib/memoized.rb:36-41 | a hit returns the stored value without calling the original; a miss calls it once with the full argument list and stores a success under that list; a failure stores nothing; other keys and other slots are unchanged |
| Memoized.ZeroArityCallSpec | lib/memoized.rb:28-29 | the original runs only while the slot is unset or nil; a success, including nil, is stored as `[v]`; a failure stores nothing |
| Memoized.RepeatIsHit | lib/memoized.rb:28-40 | after a success, the same call is a hit whatever the original would now return |
| Memoized.FailureIsRetried | lib/memoized.rb:40 | after a raise, the next call with the same arguments runs the original again |
| Memoized.UnmemoizeRecomputes | lib/memoized.rb:90-92 | after `unmemoize`, every accepted call runs the original |
| Memoized.SameCachesSameCalls | lib/memoized.rb:28 | an unset slot and a nil slot behave the same for every call |
| Memoized.UnmemoizeUnpopulatedIsNoop | lib/memoized.rb:90-92 | `unmemoize` of a slot that was never populated changes nothing a caller can observe |
| Memoized.SettledStaysSettled | lib/memoized.rb:37-38 | a stored result stays stored, and is not recomputed, until something clears its slot |
| Memoized.ComputingSettles | lib/memoized.rb:40 | a successful computation stores its result |
| Memoized.SettledCall | lib/memoized.rb:37-40 | a call through a slot that already answers `args` keeps answering it, and does not compute `args` again |
| Memoized.CallKeepsOthers | lib/memoized.rb:26-77 | a wrapper call changes no instance variable but its own slot |
| Memoized.AtMostOnce | lib/memoized.rb:25-78 | in any sequence of calls and invalidations that does not clear the slot, the original succeeds at most once per argument list, and never once a result is stored |
| Memoized.MemoizeTwiceLoops | lib/memoized.rb:19-21 | as written, a second `memoize` of the same name points the alias at the first wrapper, and that wrapper calls itself |
| Memoized.MemoizeOneValid | lib/memoized.rb:17-85 | (corrected memoize, see Findings) one `memoize` step succeeds if and only if the method exists, and it keeps every wrapper calling its own alias, with the alias's arity and visibility |
| Memoized.MemoizeAllValid | lib/memoized.rb:16-86 | (corrected memoize, see Findings) `memoize(*names)` keeps the method table valid |
| Memoized.MemoizeOneWraps | lib/memoized.rb:17-85 | (corrected memoize, see Findings) memoizing one existing name changes exactly that name and its alias: a wrapper is left alone; otherwise the alias holds the original method, the name holds a wrapper with the original's shape and visibility that calls the alias and caches in its own slot, and every other method is unchanged |
| Memoized.MemoizeAllWraps | lib/memoized.rb:16-86 | (corrected memoize, see Findings) memoizing existing methods succeeds and wraps each one; each name not yet wrapped holds the wrapper that calls its alias, and the alias holds the original; no method is added but aliases, and every method that no step writes is unchanged |
| Memoized.MemoizeAllUntouched | lib/memoized.rb:16-86 | (corrected memoize, see Findings) a method that is neither one of the names nor the alias of one not yet wrapped keeps its entry |
| Memoized.MemoizeAllKeys | lib/memoized.rb:19-21 | (corrected memoize, see Findings) every method after `memoize` existed before or is the alias of one of the names |
| Memoized.MemoizeAllAliases | lib/memoized.rb:19-78 | (corrected memoize, see Findings) every name not yet wrapped ends as the wrapper that calls its alias, and the alias holds the original method |
| Memoized.MemoizeAllStops | lib/memoized.rb:21 | a `memoize` that fails stops at a name the class does not define (NameError) |
| Memoized.MemoizeAllSkipsWrappers | lib/memoized.rb:17-21 | (corrected memoize, see Findings) the corrected `memoize` of names that are already wrapped changes nothing; the code as written re-aliases them instead |
| Memoized.MemoizeAllIdempotent | lib/memoized.rb:16-86 | (corrected memoize, see Findings) repeating the corrected `memoize` changes nothing; as written, a repeat makes the wrapper call itself |
| Memoized.WrapperAcceptsAsOriginal | lib/memoized.rb:23-78 | (corrected memoize, see Findings) every wrapper in a valid table accepts exactly the argument counts its original admits |
| Memoized.UnmemoizeAllClearsEveryWrapper | lib/memoized.rb:94-100 | (corrected memoize, see Findings) `unmemoize_all` clears the slot of every memoized method, whether or not it was called |
| Memoized.Klass.Memoize | lib/memoized.rb:16-86 | (corrected memoize, see Findings) the loop's final table and error are those of `MemoizeAll`, and the table stays valid |
| Memoizer.ArgsKeyInjective | lib/memoizer.rb:34 | with `ruby2_keywords`, two calls that both pass keywords, or both pass none, get the same key only if their arguments are equal |
| Memoizer.KeywordsSeparateKeys | lib/memoizer.rb:59 | calls that differ only in their keyword arguments get different keys |
| Memoizer.TrailingHashSharesKey | lib/memoizer.rb:59 | a trailing positional Hash and the same entries passed as keywords share one key |
| Memoizer.Call | lib/memoizer.rb:34-58 | the `define_method` body run on an instance: its new instance variables and result are those of `WrapperCall`, and the log gains one invocation exactly when the original ran |
| Memoizer.ZeroArityCallSpec | lib/memoizer.rb:41-46 | the received arguments play no part; the original runs only while the slot holds no Array; a success, including nil, is stored as `[v]`; a failure stores nothing |
| Memoizer.KeyedCallSpec | lib/memoizer.rb:49-56 | a hit returns the stored value without calling the original; a miss calls it once and stores a success under the received list; a stored key is never overwritten (for an original that does not re-enter the instance, see Left out); a slot that held no Hash is replaced by a one-entry Hash; a failure stores nothing |
| Memoizer.RepeatIsHit | lib/memoizer.rb:41-56 | after a success, the same call is a hit whatever the original would now return |
| Memoizer.FailureIsRetried | lib/memoizer.rb:43-54 | a raise leaves the slot unchanged, and the next call runs the original again |
| Memoizer.UnmemoizeRecomputes | lib/memoizer.rb:71-73 | after `unmemoize`, the next call runs the original |
| Memoizer.StepKeepsCompatible | lib/memoizer.rb:41-56 | a call through one kind of wrapper keeps a stored result stored, and a successful computation stores one |
| Memoizer.AtMostOnce | lib/memoizer.rb:34-58 | while all calls through a slot use one kind of wrapper and nothing clears the slot, the original succeeds at most once per argument list (for originals that do not re-enter the instance, see Left out) |
| Memoizer.MixedKindsRecompute | lib/memoizer.rb:42-50 | two members whose safe names collide and whose wrappers are of different kinds overwrite each other's cache, so both recompute |
| Memoizer.MemoizeOneSpec | lib/memoizer.rb:17-65 | a registered name is skipped and nothing changes; any other name is registered first; a NameError from `alias_method` leaves the table as it was; otherwise the step changes exactly the name and its alias: the alias holds the original, and the name holds a wrapper that calls the alias, caches in its own slot, is of the zero-argument kind exactly when the original's arity is 0, and keeps its visibility |
| Memoizer.MemoizeOneKeepsValid | lib/memoizer.rb:17-65 | one `memoize` step keeps every wrapper registered, calling its own alias and caching in its own slot |
| Memoizer.MemoizeAllValid | lib/memoizer.rb:16-67 | `memoize` keeps every wrapper registered, calling its own alias, and caching in its own slot |
| Memoizer.MemoizeAllRegisters | lib/memoizer.rb:21-30 | every name `memoize` reaches is registered, including a name whose `alias_method` raises NameError |
| Memoizer.MemoizeAllRegistered | lib/memoizer.rb:21-22 | `memoize` of registered names does nothing |
| Memoizer.MemoizeAllIdempotent | lib/memoizer.rb:17-25 | repeating a successful `memoize` changes nothing |
| Memoizer.DefinedLaterStaysUnwrapped | lib/memoizer.rb:21-30 | a name registered by a failed `memoize` is never wrapped, even after the method is defined |
| Memoizer.UnmemoizeAllClearsEveryWrapper | lib/memoizer.rb:75-81 | `unmemoize_all` clears the slot of every memoized method, including one that was never called |
| Memoizer.Klass.Memoize | lib/memoizer.rb:16-67 | the loop's final table, registry and error are those of `MemoizeAll`, and the class stays valid |
| Parameters.ParseKindSpec | lib/memoized/parameters.rb:18-35 | the six kind symbols are accepted as their kinds; `:block` is rejected with its message, and any other kind with "Unknown parameter type!" |
| Parameters.ParseKindSymbol | lib/memoized/parameters.rb:19-30 | every kind's symbol is accepted as that kind |
| Parameters.New | lib/memoized/parameters.rb:7-41 | the constructor loop's result is `Classify` of its input |
| Parameters.ClassifyStep | lib/memoized/parameters.rb:17-35 | one more entry is appended to the list of its kind and to no other list, or is the first rejection |
| Parameters.FirstRejectedNone | lib/memoized/parameters.rb:31-35 | the loop rejects nothing if and only if every kind is accepted |
| Parameters.ClassifySpec | lib/memoized/parameters.rb:17-40 | construction succeeds if and only if every kind is accepted and there is at most one rest and at most one keyword rest parameter; otherwise, when every kind is accepted, it fails with the "Multiple rest" error |
| Parameters.ClassifyRejectsEarliest | lib/memoized/parameters.rb:17-35 | the earliest entry of a rejected kind decides the error |
| Parameters.BlockRejected | lib/memoized/parameters.rb:31-32 | a block parameter anywhere makes construction fail |
| Parameters.SelectMembers | lib/memoized/parameters.rb:17-30 | a name is in a kind's list if and only if some input entry has that kind and name |
| Parameters.ParamsCanonical | lib/memoized/parameters.rb:43-45 | `params` lists the kinds in canonical order, whatever the input order |
| Parameters.ParamsPerKind | lib/memoized/parameters.rb:43-45 | filtering `params` by a kind gives that kind's list |
| Parameters.ClassifyKeepsOrder | lib/memoized/parameters.rb:17-30 | within each kind, `params` keeps the input order |
| Parameters.ReclassifyParams | lib/memoized/parameters.rb:8-9 | classifying `params` again gives the same parameters |
| Parameters.ReclassifyOf | lib/memoized/parameters.rb:7-45 | any parameters with at most one rest and one keyword rest parameter, written out as `params`, classify back to themselves |
| Parameters.ParamsPermutation | lib/memoized/parameters.rb:43-45 | `params` is a permutation of the accepted input |
| Parameters.FragmentRoundTrip | lib/memoized/parameters.rb:51-67 | each fragment determines its parameter's kind and name; `opt` and `key` fragments carry ` = ` and `: ` followed by `Memoized::Parameters::UNIQUE` |
| Parameters.SignatureRoundTrip | lib/memoized/parameters.rb:47-49 | the signature is the `", "`-join of the fragments, and reading it back gives `params` in order |
| Parameters.StmtRoundTrip | lib/memoized/parameters.rb:80-96 | each line of key code determines the kind and name it was rendered from |
| Parameters.CacheKeyCodeRoundTrip | lib/memoized/parameters.rb:69-78 | the key code is the fixed heredoc around one line per parameter in `params` order, and reading it back gives the statements |
| Parameters.BuildCacheKey | lib/memoized/parameters.rb:71-76 | running the key code starts `all_args` and `all_kwargs` empty, updates them one line at a time, and returns the pair `Run` computes |
| Parameters.RunRequired | lib/memoized/parameters.rb:82-83 | required parameters push their values in order |
| Parameters.RunOptional | lib/memoized/parameters.rb:84-85 | optional parameters push the values that are not identical to the sentinel |
| Parameters.RunKeywords | lib/memoized/parameters.rb:88-91 | keyword parameters store their values under their names, and optional keywords skip the sentinel |
| Parameters.ExecKeyword | lib/memoized/parameters.rb:88-91 | one keyword line stores the value under the name, and an optional keyword skips the sentinel |
| Parameters.RunRest | lib/memoized/parameters.rb:86-87 | the rest parameter, if any, splices its array into `all_args` |
| Parameters.RunKeyRest | lib/memoized/parameters.rb:92-93 | the keyword rest parameter, if any, merges its hash into `all_kwargs` |
| Parameters.KeyParts | lib/memoized/parameters.rb:80-96 | the key's positional part is the required values, then the optional values other than the sentinel, then the rest values; its keyword part has an entry for every required keyword, for every optional keyword other than the sentinel, and for every keyword rest entry |
| Parameters.PositionalKey | lib/memoized/parameters.rb:82-87 | for a bound call with no sentinel argument, `all_args` is exactly the positional arguments |
| Parameters.KeywordKey | lib/memoized/parameters.rb:88-93 | for a bound call with no sentinel argument, `all_kwargs` is exactly the keyword arguments |
| Parameters.CacheKeyIsCall | lib/memoized/parameters.rb:69-96 | for a call that Ruby binds to the signature, and in which no argument is the sentinel, the key is exactly the call's positional and keyword arguments |
| Parameters.ClassifiedKeyIsCall | lib/memoized/parameters.rb:7-96 | the same holds for the parameters of every method the constructor accepts |
| Parameters.SentinelCollision | lib/memoized/parameters.rb:3 | as written, with sentinel 42, `f(1, 42)` and `f(1)` for `f(a, b = ...)` get the same key `[[1], {}]` |
| Parameters.DistinctCallsDistinctKeys | lib/memoized/parameters.rb:3 | with a sentinel no caller holds, two bound calls get the same key if and only if they are the same call |
| Parameters.OmittedDiffersFromExplicit | lib/memoized/parameters.rb:84-85 | leaving an optional argument out and passing a value for it give different keys, `[[5], {}]` and `[[5, 10], {}]` |

## Left out

- Ruby's metaprogramming is not modelled, only its effect:
  - `module_eval` of generated text, `define_method`, `alias_method` and
    `ruby2_keywords` are not modelled as such;
  - a method table maps names to an `Impl` (an original with its arity, or
    a wrapper with its shape, slot and target);
  - the instance's instance variables are a map to `Slot`.
- Reflection is an input. The model does not compute
  `instance_method(...).arity`, `private_method_defined?`, or
  `methods + private_methods + protected_methods`. Arity and visibility are
  fields of `Impl`, and `unmemoize_all` receives the list of method names.
- Visibility (lib/memoized.rb:80-84, lib/memoizer.rb:61-65) is a copy of
  the original's `Visibility` onto the wrapper; nothing about it is proved
  beyond that copy.
- Ruby's own argument binding is not modelled for the two wrappers:
  - `Memoized` receives the full argument list;
  - `Memoizer` receives the `*args` list, with keywords folded in as a
    trailing Hash by `ruby2_keywords`;
  - the Ruby 2 versus Ruby 3 conversion between keywords and a trailing
    Hash is not modelled.
- Parameters.Binds covers only calls whose keyword arguments reach keyword
  parameters. Passing keywords to a method with no keyword parameters, which
  Ruby 3 turns into a trailing positional Hash, is not covered.
- Keyword names, and the keys of `all_kwargs` and of keyword-rest hashes,
  are plain strings: the model does not distinguish Symbol keys from String
  keys. Ruby Hash equality ignores order, so `all_kwargs` is a map.
- `memoize` names are strings. In lib/memoizer.rb the registry is keyed by
  the argument as given, so `memoize(:f)` followed by `memoize("f")` wraps
  twice; the model does not separate the two spellings.
- Parameters.ParseKind: line 39 of lib/memoized/parameters.rb has no comma
  after `Memoized::CannotMemoize`, and `CannotMemoize` is not defined in any
  of the core files. The model records all three rejections as
  `CannotMemoize` with the intended message. It does not model which Ruby
  exception really escapes.
- Memoized.Klass.Memoize, Memoized.MemoizeOne, Memoized.MemoizeAllSkipsWrappers,
  Memoized.MemoizeAllIdempotent, Memoized.MemoizeOneValid,
  Memoized.MemoizeAllValid, Memoized.MemoizeOneWraps and
  Memoized.MemoizeAllWraps describe the corrected `memoize`, which skips a
  name that is already a wrapper. lib/memoized.rb:19-21 re-aliases it, so
  after a second `memoize` a cache miss recurses without end; that
  behaviour is modelled only by Memoized.MemoizeTwiceLoops. See Findings.
- Memoizer.AtMostOnce, Memoizer.KeyedCallSpec and Memoized.AtMostOnce:
  an original method is a function from the argument list to a value or a
  raise, so it never re-enters the instance (no recursive memoized call, no
  `unmemoize` from inside the original). For a re-entrant original,
  lib/memoizer.rb:51 replaces the whole slot with a one-entry Hash and so
  drops the entries that inner calls stored (a memoized `fib(3)` computes
  `fib(1)` twice), and line 54 may store into a Hash that is no longer in
  the slot. The at-most-once and never-overwritten promises hold only for
  originals that do not re-enter.
- Parameter names in generated `def`s (`arg1..argn`, `optional_args`) are
  not modelled, because they do not affect arity or caching.
- lib/memoized.rb never calls `Memoized::Parameters`. The parameter model
  stands on its own, as its source does.
- Concurrency (there is no locking), mutation of Hash keys after they are
  stored, inheritance of memoized methods, and instance variable name
  validity are not modelled.
- Identifier characters are ASCII letters, digits and `_`. The signature
  and key-code round trips require parameter names made of those characters.

An omitted optional argument and an explicitly passed default are
sometimes described as giving the same key. The code does not do that. An omitted argument contributes nothing, and an explicit
argument is pushed. The model follows the code; see
Parameters.OmittedDiffersFromExplicit.

## Findings

| source | as written | input that shows it | evidently intended | confidence | as-written member | corrected member |
|---|---|---|---|---|---|---|
| lib/memoized/parameters.rb:3 | `UNIQUE = 42.freeze`, compared with `equal?`; every Integer 42 is the same object | `f(1, 42)` and `f(1)` for `def f(a, b = UNIQUE)` both get the key `[[1], {}]` | a sentinel object that no caller can pass, so distinct calls get distinct keys | high, not executed | Parameters.SentinelCollision | Parameters.DistinctCallsDistinctKeys |
| lib/memoized.rb:19-21 | `memoize` of a name that is already memoized runs `alias_method` again, so the alias now points at the first wrapper | `memoize :f` twice, then any cache miss of `f` | a repeated `memoize` does nothing, as the registry in lib/memoizer.rb:20-25 ensures | high, not executed | Memoized.MemoizeTwiceLoops | Memoized.MemoizeOneValid |
