/// The names the library derives from a memoized method's name: the alias that
/// keeps the original method, the instance variable that holds its cache, and
/// the reverse mapping `unmemoize_all` applies to method names.
/// lib/memoized.rb and lib/memoizer.rb define `safe_name` and `ivar_name`
/// identically; both use the same alias prefix and the same regular expression
/// in `unmemoize_all`.
module Naming {
  import opened Values

  const ALIAS_PREFIX := "_unmemoized_"
  const IVAR_PREFIX := "@_memoized_"

  /** True when `s.sub(/c\Z/, ...)` finds a match: `\Z` matches at the very end
      and also just before a final newline. */
  predicate EndsWith(s: string, c: char) {
    (|s| >= 1 && s[|s| - 1] == c) || (|s| >= 2 && s[|s| - 2] == c && s[|s| - 1] == '\n')
  }

  /** `s.sub(/c\Z/, repl)`: replaces a final `c` (or a `c` just before a final
      newline) by `repl`. */
  function SubAtEnd(s: string, c: char, repl: string): (r: string)
    ensures !EndsWith(s, c) ==> r == s
    ensures |s| >= 1 && s[|s| - 1] == c ==> r == s[..|s| - 1] + repl
  {
    if |s| >= 1 && s[|s| - 1] == c then s[..|s| - 1] + repl
    else if |s| >= 2 && s[|s| - 2] == c && s[|s| - 1] == '\n' then s[..|s| - 2] + repl + "\n"
    else s
  }

  /** `safe_name`: a trailing `?` becomes `_query`, a trailing `!` becomes
      `_bang`, any other name is left alone. The result never ends in either
      mark, so it can be part of an instance variable name. */
  function SafeName(name: string): string {
    SubAtEnd(SubAtEnd(name, '?', "_query"), '!', "_bang")
  }

  lemma SafeNameShape(name: string)
    ensures !EndsWith(SafeName(name), '?') && !EndsWith(SafeName(name), '!')
    ensures !EndsWith(name, '?') && !EndsWith(name, '!') ==> SafeName(name) == name
    ensures HasSuffix(name, "?") ==> SafeName(name) == name[..|name| - 1] + "_query"
    ensures HasSuffix(name, "!") ==> SafeName(name) == name[..|name| - 1] + "_bang"
  {
  }

  /** `safe_name` is not injective: `foo?` and `foo_query` share one slot. */
  lemma SafeNameCollision()
    ensures SafeName("foo?") == SafeName("foo_query")
    ensures SafeName("foo!") == SafeName("foo_bang")
  {
  }

  /** Applying `safe_name` to a safe name changes nothing. */
  lemma SafeNameIdempotent(name: string)
    ensures SafeName(SafeName(name)) == SafeName(name)
  {
    SafeNameShape(name);
    SafeNameShape(SafeName(name));
  }

  /** `ivar_name`: the instance variable that holds a method's cache. */
  function IvarName(name: string): (r: string)
    ensures HasPrefix(r, IVAR_PREFIX) && r[|IVAR_PREFIX|..] == SafeName(name)
  {
    IVAR_PREFIX + SafeName(name)
  }

  /** Two methods share a cache slot exactly when their safe names agree. */
  lemma {:induction false} IvarNameShared(a: string, b: string)
    ensures IvarName(a) == IvarName(b) <==> SafeName(a) == SafeName(b)
  {
    if IvarName(a) == IvarName(b) {
      assert SafeName(a) == IvarName(a)[|IVAR_PREFIX|..];
      assert SafeName(b) == IvarName(b)[|IVAR_PREFIX|..];
    }
  }

  /** `"_unmemoized_#{method_name}"`: the name the original method is kept under. */
  function AliasName(name: string): (r: string)
    ensures HasPrefix(r, ALIAS_PREFIX) && |r| == |ALIAS_PREFIX| + |name|
  {
    ALIAS_PREFIX + name
  }

  lemma AliasNameInjective(a: string, b: string)
    ensures AliasName(a) == AliasName(b) ==> a == b
  {
    if AliasName(a) == AliasName(b) {
      assert a == AliasName(a)[|ALIAS_PREFIX|..];
    }
  }

  /** Index of the first newline in `s`, or `|s|` when there is none. */
  function LineEnd(s: string): (i: nat)
    ensures i <= |s| && NoNewline(s[..i])
    ensures i < |s| ==> s[i] == '\n'
  {
    if s == [] then 0
    else if s[0] == '\n' then 0
    else
      var j := LineEnd(s[1..]);
      assert s[..j + 1] == [s[0]] + s[1..][..j];
      j + 1
  }

  /** `method.to_s =~ /^_unmemoized_(.*)/` followed by `$1`: `^` matches at the
      start of the string and after every newline, and `.*` stops at the next
      newline. None when the name does not match. */
  function UnaliasedName(s: string): (r: Option<string>)
    ensures r.Some? ==> NoNewline(r.value)
    ensures NoNewline(s) ==> (r.Some? <==> HasPrefix(s, ALIAS_PREFIX))
    ensures NoNewline(s) && r.Some? ==> s == AliasName(r.value)
    decreases |s|
  {
    if HasPrefix(s, ALIAS_PREFIX) then
      var rest := s[|ALIAS_PREFIX|..];
      assert NoNewline(s) ==> NoNewline(rest);
      Some(rest[..LineEnd(rest)])
    else
      var i := LineEnd(s);
      if i < |s| then UnaliasedName(s[i + 1..]) else None
  }

  /** `unmemoize_all` recovers the memoized name from its alias. */
  lemma UnaliasedNameOfAlias(name: string)
    requires NoNewline(name)
    ensures UnaliasedName(AliasName(name)) == Some(name)
  {
    var s := AliasName(name);
    assert HasPrefix(s, ALIAS_PREFIX);
    assert s[|ALIAS_PREFIX|..] == name;
  }
}
