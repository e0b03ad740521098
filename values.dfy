/// Ruby values as the memoizer sees them: arguments, results and cache keys,
/// together with the exceptions the library raises or lets through.
module Values {

  /** A Ruby value. Hashes that the model builds itself (keyword arguments,
      keyword-rest hashes) have Symbol keys, written here by the symbol's name.
      `Unique` is a private marker object that no caller holds. */
  datatype Value =
    | Nil
    | Bool(b: bool)
    | Int(i: int)
    | Str(s: string)
    | Sym(name: string)
    | Arr(elems: seq<Value>)
    | Hash(entries: map<string, Value>)
    | Unique

  /** The exceptions that cross the library's boundary. `Raised` is whatever the
      wrapped method raises; the library never rescues it. */
  datatype Exception =
    | ArgumentError
    | NoMethodError
    | NameError(name: string)
    | CannotMemoize(message: string)
    | Raised(message: string)

  /** The visibility of a method, which `memoize` copies from the original to
      its wrapper. */
  datatype Visibility = Public | Protected | Private

  datatype Result<+T> = Ok(value: T) | Err(error: Exception)

  datatype Option<+T> = None | Some(value: T)

  predicate HasPrefix(s: string, p: string) {
    |p| <= |s| && s[..|p|] == p
  }

  predicate HasSuffix(s: string, x: string) {
    |x| <= |s| && s[|s| - |x|..] == x
  }

  predicate NoNewline(s: string) {
    forall i :: 0 <= i < |s| ==> s[i] != '\n'
  }
}
