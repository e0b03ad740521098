/// lib/memoized/parameters.rb: `Memoized::Parameters` sorts a method's
/// parameter list (as `Method#parameters` reports it) into six kinds, and
/// renders from it a method signature and the code that builds a cache key.
module Parameters {
  import opened Values

  // ---------------------------------------------------------------------------
  // Kinds and classification
  // ---------------------------------------------------------------------------

  /** The parameter kinds the constructor accepts, in canonical order. */
  datatype Kind = Req | Opt | Rest | KeyReq | Key | KeyRest

  /** A classified parameter: its kind and its name. */
  type Param = (Kind, string)

  /** An entry of the input list: the kind's symbol name and the parameter name. */
  type RawParam = (string, string)

  /** The symbol Ruby uses for each kind. */
  function Symbol(k: Kind): string {
    match k
    case Req => "req"
    case Opt => "opt"
    case Rest => "rest"
    case KeyReq => "keyreq"
    case Key => "key"
    case KeyRest => "keyrest"
  }

  /** Position of a kind in the canonical order. */
  function Rank(k: Kind): nat {
    match k
    case Req => 0
    case Opt => 1
    case Rest => 2
    case KeyReq => 3
    case Key => 4
    case KeyRest => 5
  }

  const BLOCK_MESSAGE := "Cannot memoize a method that takes a block!"
  const UNKNOWN_MESSAGE := "Unknown parameter type!"
  const MULTIPLE_MESSAGE := "Multiple rest or keyrest parameters, invalid signature!"

  /** The `case param_type` of the constructor's loop: one of the six kinds,
      or a rejection naming a block parameter or an unknown kind. */
  function ParseKind(sym: string): Result<Kind> {
    if sym == "req" then Ok(Req)
    else if sym == "opt" then Ok(Opt)
    else if sym == "rest" then Ok(Rest)
    else if sym == "keyreq" then Ok(KeyReq)
    else if sym == "key" then Ok(Key)
    else if sym == "keyrest" then Ok(KeyRest)
    else if sym == "block" then Err(CannotMemoize(BLOCK_MESSAGE))
    else Err(CannotMemoize(UNKNOWN_MESSAGE))
  }

  /** An accepted symbol is the symbol of its kind; a rejection names a block
      parameter or an unknown kind. */
  lemma ParseKindSpec(sym: string)
    ensures var r := ParseKind(sym);
      (r.Ok? ==> Symbol(r.value) == sym) &&
      (r.Err? ==> r.error == CannotMemoize(if sym == "block" then BLOCK_MESSAGE else UNKNOWN_MESSAGE))
  {
  }

  /** Every kind's symbol is accepted as that kind. */
  lemma ParseKindSymbol(k: Kind)
    ensures ParseKind(Symbol(k)) == Ok(k)
  {
  }

  /** The classified parameters, one list of names per kind, each in input
      order. */
  datatype Parameters = Parameters(
    req: seq<string>, opt: seq<string>, rest: seq<string>,
    keyreq: seq<string>, key: seq<string>, keyrest: seq<string>)

  function Bucket(p: Parameters, k: Kind): seq<string> {
    match k
    case Req => p.req
    case Opt => p.opt
    case Rest => p.rest
    case KeyReq => p.keyreq
    case Key => p.key
    case KeyRest => p.keyrest
  }

  /** The names of the entries whose kind symbol is `Symbol(k)`, in input order. */
  function Select(raw: seq<RawParam>, k: Kind): seq<string> {
    if raw == [] then []
    else
      var last := raw[|raw| - 1];
      Select(raw[..|raw| - 1], k) + (if last.0 == Symbol(k) then [last.1] else [])
  }

  /** The rejection of the first entry the `case` does not accept, if any. */
  function FirstRejected(raw: seq<RawParam>): Option<Exception> {
    if raw == [] then None
    else
      match FirstRejected(raw[..|raw| - 1])
      case Some(e) => Some(e)
      case None =>
        var kind := ParseKind(raw[|raw| - 1].0);
        if kind.Err? then Some(kind.error) else None
  }

  /** `Parameters.new(parameters)`: the first rejected entry stops the loop;
      otherwise more than one `rest` or `keyrest` is rejected after it. */
  function Classify(raw: seq<RawParam>): Result<Parameters> {
    match FirstRejected(raw)
    case Some(e) => Err(e)
    case None =>
      var p := Parameters(Select(raw, Req), Select(raw, Opt), Select(raw, Rest),
                          Select(raw, KeyReq), Select(raw, Key), Select(raw, KeyRest));
      if |p.rest| > 1 || |p.keyrest| > 1 then Err(CannotMemoize(MULTIPLE_MESSAGE)) else Ok(p)
  }

  /** The constructor: one loop appends each entry to the list of its kind. */
  method New(raw: seq<RawParam>) returns (r: Result<Parameters>)
    ensures r == Classify(raw)
  {
    var req, opt, rest, keyreq, key, keyrest := [], [], [], [], [], [];
    var i := 0;
    while i < |raw|
      invariant 0 <= i <= |raw|
      invariant FirstRejected(raw[..i]) == None
      invariant req == Select(raw[..i], Req) && opt == Select(raw[..i], Opt)
      invariant rest == Select(raw[..i], Rest) && keyreq == Select(raw[..i], KeyReq)
      invariant key == Select(raw[..i], Key) && keyrest == Select(raw[..i], KeyRest)
    {
      ClassifyStep(raw, i);
      var (kind, name) := raw[i];
      if kind == "req" {
        req := req + [name];
      } else if kind == "opt" {
        opt := opt + [name];
      } else if kind == "rest" {
        rest := rest + [name];
      } else if kind == "keyreq" {
        keyreq := keyreq + [name];
      } else if kind == "key" {
        key := key + [name];
      } else if kind == "keyrest" {
        keyrest := keyrest + [name];
      } else {
        FirstRejectedPrefix(raw, i + 1);
        return Err(ParseKind(kind).error);
      }
      i := i + 1;
    }
    assert raw[..i] == raw;
    if |rest| > 1 || |keyrest| > 1 {
      return Err(CannotMemoize(MULTIPLE_MESSAGE));
    }
    return Ok(Parameters(req, opt, rest, keyreq, key, keyrest));
  }

  /** One more entry extends the list of its kind, or is the first rejection. */
  lemma ClassifyStep(raw: seq<RawParam>, i: nat)
    requires i < |raw| && FirstRejected(raw[..i]) == None
    ensures Select(raw[..i + 1], Req) == Select(raw[..i], Req) + (if raw[i].0 == "req" then [raw[i].1] else [])
    ensures Select(raw[..i + 1], Opt) == Select(raw[..i], Opt) + (if raw[i].0 == "opt" then [raw[i].1] else [])
    ensures Select(raw[..i + 1], Rest) == Select(raw[..i], Rest) + (if raw[i].0 == "rest" then [raw[i].1] else [])
    ensures Select(raw[..i + 1], KeyReq) ==
      Select(raw[..i], KeyReq) + (if raw[i].0 == "keyreq" then [raw[i].1] else [])
    ensures Select(raw[..i + 1], Key) == Select(raw[..i], Key) + (if raw[i].0 == "key" then [raw[i].1] else [])
    ensures Select(raw[..i + 1], KeyRest) ==
      Select(raw[..i], KeyRest) + (if raw[i].0 == "keyrest" then [raw[i].1] else [])
    ensures FirstRejected(raw[..i + 1]) ==
      if ParseKind(raw[i].0).Err? then Some(ParseKind(raw[i].0).error) else None
  {
    assert raw[..i + 1][..i] == raw[..i];
  }

  /** A rejection in a prefix is the rejection of the whole list. */
  lemma {:induction false} FirstRejectedPrefix(raw: seq<RawParam>, n: nat)
    requires n <= |raw| && FirstRejected(raw[..n]).Some?
    ensures FirstRejected(raw) == FirstRejected(raw[..n])
    decreases |raw| - n
  {
    if n < |raw| {
      assert raw[..n + 1][..n] == raw[..n];
      FirstRejectedPrefix(raw, n + 1);
    } else {
      assert raw[..n] == raw;
    }
  }

  /** FirstRejected finds the earliest entry whose kind is not accepted. */
  lemma FirstRejectedNone(raw: seq<RawParam>)
    ensures FirstRejected(raw).None? <==> forall i :: 0 <= i < |raw| ==> ParseKind(raw[i].0).Ok?
  {
    if FirstRejected(raw).None? {
      NoneAllAccepted(raw);
    } else {
      SomeHasRejected(raw);
    }
  }

  lemma {:induction false} NoneAllAccepted(raw: seq<RawParam>)
    requires FirstRejected(raw).None?
    ensures forall i :: 0 <= i < |raw| ==> ParseKind(raw[i].0).Ok?
  {
    if raw != [] {
      var init := raw[..|raw| - 1];
      NoneAllAccepted(init);
      forall i | 0 <= i < |raw|
        ensures ParseKind(raw[i].0).Ok?
      {
        if i < |init| {
          assert init[i] == raw[i];
        }
      }
    }
  }

  lemma {:induction false} SomeHasRejected(raw: seq<RawParam>)
    requires FirstRejected(raw).Some?
    ensures exists i :: 0 <= i < |raw| && ParseKind(raw[i].0).Err?
  {
    var init := raw[..|raw| - 1];
    if FirstRejected(init).Some? {
      SomeHasRejected(init);
      var i :| 0 <= i < |init| && ParseKind(init[i].0).Err?;
      assert init[i] == raw[i];
    } else {
      assert ParseKind(raw[|raw| - 1].0).Err?;
    }
  }

  lemma {:induction false} FirstRejectedEarliest(raw: seq<RawParam>, i: nat)
    requires i < |raw| && ParseKind(raw[i].0).Err?
    requires forall j :: 0 <= j < i ==> ParseKind(raw[j].0).Ok?
    ensures FirstRejected(raw) == Some(ParseKind(raw[i].0).error)
  {
    var init := raw[..|raw| - 1];
    if i < |init| {
      assert init[i] == raw[i];
      assert forall j :: 0 <= j < i ==> init[j] == raw[j];
      FirstRejectedEarliest(init, i);
    } else {
      assert forall j :: 0 <= j < |init| ==> init[j] == raw[j];
      FirstRejectedNone(init);
      assert FirstRejected(init) == None;
    }
  }

  /** Construction succeeds exactly when every kind is accepted and there is at
      most one `rest` and at most one `keyrest`; a block parameter or an
      unknown kind is rejected with its own message (the earliest one wins),
      and too many rest parameters with the third. */
  lemma ClassifySpec(raw: seq<RawParam>)
    ensures Classify(raw).Ok? <==>
      (forall i :: 0 <= i < |raw| ==> ParseKind(raw[i].0).Ok?) &&
      |Select(raw, Rest)| <= 1 && |Select(raw, KeyRest)| <= 1
    ensures (forall i :: 0 <= i < |raw| ==> ParseKind(raw[i].0).Ok?) &&
            (|Select(raw, Rest)| > 1 || |Select(raw, KeyRest)| > 1) ==>
            Classify(raw) == Err(CannotMemoize(MULTIPLE_MESSAGE))
  {
    FirstRejectedNone(raw);
  }

  /** The earliest entry with a kind that is not accepted decides the error. */
  lemma ClassifyRejectsEarliest(raw: seq<RawParam>, i: nat)
    requires i < |raw| && ParseKind(raw[i].0).Err?
    requires forall j :: 0 <= j < i ==> ParseKind(raw[j].0).Ok?
    ensures Classify(raw) == Err(ParseKind(raw[i].0).error)
  {
    FirstRejectedEarliest(raw, i);
  }

  /** A block parameter anywhere makes construction fail. */
  lemma BlockRejected(raw: seq<RawParam>, i: nat)
    requires i < |raw| && raw[i].0 == "block"
    ensures Classify(raw).Err?
  {
    FirstRejectedNone(raw);
  }

  /** A name is in the list of kind `k` exactly when an entry of that kind
      carries it. */
  lemma {:induction false} SelectMembers(raw: seq<RawParam>, k: Kind, name: string)
    ensures name in Select(raw, k) <==> exists i :: 0 <= i < |raw| && raw[i] == (Symbol(k), name)
  {
    if raw != [] {
      var init := raw[..|raw| - 1];
      SelectMembers(init, k, name);
      assert forall i :: 0 <= i < |init| ==> init[i] == raw[i];
    }
  }

  // ---------------------------------------------------------------------------
  // `params`: the classified parameters in canonical order
  // ---------------------------------------------------------------------------

  /** The names of one list, each paired with its kind. */
  function Tag(k: Kind, names: seq<string>): seq<Param> {
    seq(|names|, i requires 0 <= i < |names| => (k, names[i]))
  }

  /** `params`: required, optional, rest, required keyword, optional keyword,
      keyword rest. */
  function Params(p: Parameters): seq<Param> {
    Tag(Req, p.req) + Tag(Opt, p.opt) + Tag(Rest, p.rest) +
    Tag(KeyReq, p.keyreq) + Tag(Key, p.key) + Tag(KeyRest, p.keyrest)
  }

  /** Classified parameters written back as input entries. */
  function AsRaw(ps: seq<Param>): seq<RawParam> {
    seq(|ps|, i requires 0 <= i < |ps| => (Symbol(ps[i].0), ps[i].1))
  }

  /** Every kind ranks no higher than `r`. */
  predicate RanksAtMost(ps: seq<Param>, r: nat) {
    forall i :: 0 <= i < |ps| ==> Rank(ps[i].0) <= r
  }

  /** Kinds appear in canonical order. */
  predicate Canonical(ps: seq<Param>) {
    forall i, j :: 0 <= i < j < |ps| ==> Rank(ps[i].0) <= Rank(ps[j].0)
  }

  lemma CanonicalAppendTag(ps: seq<Param>, k: Kind, names: seq<string>)
    requires Canonical(ps) && RanksAtMost(ps, Rank(k))
    ensures Canonical(ps + Tag(k, names)) && RanksAtMost(ps + Tag(k, names), Rank(k))
  {
  }

  /** `params` lists the kinds in canonical order, whatever the input order. */
  lemma ParamsCanonical(p: Parameters)
    ensures Canonical(Params(p))
  {
    var a := Tag(Req, p.req);
    CanonicalAppendTag([], Req, p.req);
    assert [] + a == a;
    CanonicalAppendTag(a, Opt, p.opt);
    var b := a + Tag(Opt, p.opt);
    CanonicalAppendTag(b, Rest, p.rest);
    var c := b + Tag(Rest, p.rest);
    CanonicalAppendTag(c, KeyReq, p.keyreq);
    var d := c + Tag(KeyReq, p.keyreq);
    CanonicalAppendTag(d, Key, p.key);
    var e := d + Tag(Key, p.key);
    CanonicalAppendTag(e, KeyRest, p.keyrest);
  }

  lemma {:induction false} SelectAppend(a: seq<RawParam>, b: seq<RawParam>, k: Kind)
    ensures Select(a + b, k) == Select(a, k) + Select(b, k)
    decreases |b|
  {
    if b == [] {
      assert a + b == a;
    } else {
      var init := b[..|b| - 1];
      assert (a + b)[..|a + b| - 1] == a + init;
      SelectAppend(a, init, k);
    }
  }

  lemma {:induction false} SelectTag(t: Kind, names: seq<string>, k: Kind)
    ensures Select(AsRaw(Tag(t, names)), k) == if t == k then names else []
    decreases |names|
  {
    if names != [] {
      var init := names[..|names| - 1];
      assert AsRaw(Tag(t, names))[..|names| - 1] == AsRaw(Tag(t, init));
      SelectTag(t, init, k);
      assert Symbol(t) == Symbol(k) ==> t == k;
    }
  }

  lemma SelectAppendRaw(ps: seq<Param>, qs: seq<Param>, k: Kind)
    ensures Select(AsRaw(ps + qs), k) == Select(AsRaw(ps), k) + Select(AsRaw(qs), k)
  {
    assert AsRaw(ps + qs) == AsRaw(ps) + AsRaw(qs);
    SelectAppend(AsRaw(ps), AsRaw(qs), k);
  }

  /** Filtering `params` by a kind filters each of its six lists in turn. */
  lemma SelectParamsSplit(p: Parameters, k: Kind)
    ensures Select(AsRaw(Params(p)), k) ==
      Select(AsRaw(Tag(Req, p.req)), k) + Select(AsRaw(Tag(Opt, p.opt)), k) +
      Select(AsRaw(Tag(Rest, p.rest)), k) + Select(AsRaw(Tag(KeyReq, p.keyreq)), k) +
      Select(AsRaw(Tag(Key, p.key)), k) + Select(AsRaw(Tag(KeyRest, p.keyrest)), k)
  {
    var x1 := Tag(Req, p.req);
    var x2 := x1 + Tag(Opt, p.opt);
    var x3 := x2 + Tag(Rest, p.rest);
    var x4 := x3 + Tag(KeyReq, p.keyreq);
    var x5 := x4 + Tag(Key, p.key);
    SelectAppendRaw(x1, Tag(Opt, p.opt), k);
    SelectAppendRaw(x2, Tag(Rest, p.rest), k);
    SelectAppendRaw(x3, Tag(KeyReq, p.keyreq), k);
    SelectAppendRaw(x4, Tag(Key, p.key), k);
    SelectAppendRaw(x5, Tag(KeyRest, p.keyrest), k);
  }

  /** Each list of `params`, filtered by `k`, is that list or nothing. */
  lemma TagsAt(p: Parameters, k: Kind)
    ensures Select(AsRaw(Tag(Req, p.req)), k) == (if k == Req then p.req else [])
    ensures Select(AsRaw(Tag(Opt, p.opt)), k) == (if k == Opt then p.opt else [])
    ensures Select(AsRaw(Tag(Rest, p.rest)), k) == (if k == Rest then p.rest else [])
    ensures Select(AsRaw(Tag(KeyReq, p.keyreq)), k) == (if k == KeyReq then p.keyreq else [])
    ensures Select(AsRaw(Tag(Key, p.key)), k) == (if k == Key then p.key else [])
    ensures Select(AsRaw(Tag(KeyRest, p.keyrest)), k) == (if k == KeyRest then p.keyrest else [])
  {
    SelectTag(Req, p.req, k);
    SelectTag(Opt, p.opt, k);
    SelectTag(Rest, p.rest, k);
    SelectTag(KeyReq, p.keyreq, k);
    SelectTag(Key, p.key, k);
    SelectTag(KeyRest, p.keyrest, k);
  }

  /** Six lists of which only the one of kind `k` may be non-empty add up to
      that list. */
  lemma PickBucket(p: Parameters, k: Kind, a: seq<string>, b: seq<string>, c: seq<string>,
                   d: seq<string>, e: seq<string>, f: seq<string>)
    requires a == (if k == Req then p.req else []) && b == (if k == Opt then p.opt else [])
    requires c == (if k == Rest then p.rest else []) && d == (if k == KeyReq then p.keyreq else [])
    requires e == (if k == Key then p.key else []) && f == (if k == KeyRest then p.keyrest else [])
    ensures a + b + c + d + e + f == Bucket(p, k)
  {
    match k {
      case Req => assert a + b + c + d + e + f == p.req + [] + [] + [] + [] + [];
      case Opt => assert a + b + c + d + e + f == [] + p.opt + [] + [] + [] + [];
      case Rest => assert a + b + c + d + e + f == [] + [] + p.rest + [] + [] + [];
      case KeyReq => assert a + b + c + d + e + f == [] + [] + [] + p.keyreq + [] + [];
      case Key => assert a + b + c + d + e + f == [] + [] + [] + [] + p.key + [];
      case KeyRest => assert a + b + c + d + e + f == [] + [] + [] + [] + [] + p.keyrest;
    }
  }

  /** Within each kind, `params` keeps the input order: filtering `params` by a
      kind gives that kind's list. */
  lemma ParamsPerKind(p: Parameters, k: Kind)
    ensures Select(AsRaw(Params(p)), k) == Bucket(p, k)
  {
    SelectParamsSplit(p, k);
    TagsAt(p, k);
    PickBucket(p, k,
      Select(AsRaw(Tag(Req, p.req)), k), Select(AsRaw(Tag(Opt, p.opt)), k),
      Select(AsRaw(Tag(Rest, p.rest)), k), Select(AsRaw(Tag(KeyReq, p.keyreq)), k),
      Select(AsRaw(Tag(Key, p.key)), k), Select(AsRaw(Tag(KeyRest, p.keyrest)), k));
  }

  /** Every accepted entry keeps its place among the entries of its kind:
      `params` and the input agree kind by kind. */
  lemma ClassifyKeepsOrder(raw: seq<RawParam>, k: Kind)
    requires Classify(raw).Ok?
    ensures Select(AsRaw(Params(Classify(raw).value)), k) == Select(raw, k)
  {
    ParamsPerKind(Classify(raw).value, k);
  }

  /** Classified parameters written back are all accepted. */
  lemma AsRawAccepted(ps: seq<Param>)
    ensures FirstRejected(AsRaw(ps)).None?
  {
    var raw := AsRaw(ps);
    forall i | 0 <= i < |raw|
      ensures ParseKind(raw[i].0).Ok?
    {
      ParseKindSymbol(ps[i].0);
    }
    FirstRejectedNone(raw);
  }

  /** Classifying `params` again gives the same parameters. */
  lemma ReclassifyParams(raw: seq<RawParam>)
    requires Classify(raw).Ok?
    ensures Classify(AsRaw(Params(Classify(raw).value))) == Classify(raw)
  {
    ReclassifyOf(Classify(raw).value);
  }

  /** Parameters with at most one rest and one keyword rest parameter, written
      out as `params`, classify back to themselves. */
  lemma ReclassifyOf(p: Parameters)
    requires |p.rest| <= 1 && |p.keyrest| <= 1
    ensures Classify(AsRaw(Params(p))) == Ok(p)
  {
    AsRawAccepted(Params(p));
    SelectParams(p);
    ClassifyOk(AsRaw(Params(p)), p);
  }

  lemma SelectParams(p: Parameters)
    ensures var again := AsRaw(Params(p));
      Select(again, Req) == p.req && Select(again, Opt) == p.opt && Select(again, Rest) == p.rest &&
      Select(again, KeyReq) == p.keyreq && Select(again, Key) == p.key && Select(again, KeyRest) == p.keyrest
  {
    ParamsPerKind(p, Req);
    ParamsPerKind(p, Opt);
    ParamsPerKind(p, Rest);
    ParamsPerKind(p, KeyReq);
    ParamsPerKind(p, Key);
    ParamsPerKind(p, KeyRest);
  }

  /** Construction from accepted entries gives the lists `Select` finds. */
  lemma ClassifyOk(raw: seq<RawParam>, p: Parameters)
    requires FirstRejected(raw).None?
    requires Select(raw, Req) == p.req && Select(raw, Opt) == p.opt && Select(raw, Rest) == p.rest
    requires Select(raw, KeyReq) == p.keyreq && Select(raw, Key) == p.key && Select(raw, KeyRest) == p.keyrest
    requires |p.rest| <= 1 && |p.keyrest| <= 1
    ensures Classify(raw) == Ok(p)
  {
  }

  lemma MultisetTagSnoc(k: Kind, names: seq<string>, n: string)
    ensures multiset(AsRaw(Tag(k, names + [n]))) == multiset(AsRaw(Tag(k, names))) + multiset{(Symbol(k), n)}
  {
    assert AsRaw(Tag(k, names + [n])) == AsRaw(Tag(k, names)) + [(Symbol(k), n)];
  }

  /** The entries of kind `t`, as a bag. */
  function BucketBag(raw: seq<RawParam>, t: Kind): multiset<RawParam> {
    multiset(AsRaw(Tag(t, Select(raw, t))))
  }

  lemma SymbolInjective(a: Kind, b: Kind)
    ensures Symbol(a) == Symbol(b) ==> a == b
  {
  }

  lemma MultisetBucketSnoc(init: seq<RawParam>, x: RawParam, t: Kind)
    ensures BucketBag(init + [x], t) == BucketBag(init, t) + (if Symbol(t) == x.0 then multiset{x} else multiset{})
  {
    var raw := init + [x];
    assert raw[..|raw| - 1] == init && raw[|raw| - 1] == x;
    if Symbol(t) == x.0 {
      assert Select(raw, t) == Select(init, t) + [x.1];
      MultisetTagSnoc(t, Select(init, t), x.1);
    } else {
      assert Select(raw, t) == Select(init, t);
    }
  }

  lemma BagsSnoc(init: seq<RawParam>, x: RawParam, k: Kind, t: Kind)
    requires Symbol(k) == x.0
    ensures BucketBag(init + [x], t) == BucketBag(init, t) + (if t == k then multiset{x} else multiset{})
  {
    MultisetBucketSnoc(init, x, t);
    SymbolInjective(t, k);
  }

  const KINDS: seq<Kind> := [Req, Opt, Rest, KeyReq, Key, KeyRest]

  /** The input entries of the kinds `ks`, grouped kind by kind. */
  function GroupedOver(raw: seq<RawParam>, ks: seq<Kind>): seq<RawParam> {
    if ks == [] then []
    else
      var k := ks[|ks| - 1];
      GroupedOver(raw, ks[..|ks| - 1]) + AsRaw(Tag(k, Select(raw, k)))
  }

  function Occurrences(ks: seq<Kind>, k: Kind): nat {
    if ks == [] then 0
    else Occurrences(ks[..|ks| - 1], k) + (if ks[|ks| - 1] == k then 1 else 0)
  }

  lemma OccursOnce(k: Kind)
    ensures Occurrences(KINDS, k) == 1
  {
    assert KINDS[..5] == [Req, Opt, Rest, KeyReq, Key];
    assert KINDS[..5][..4] == [Req, Opt, Rest, KeyReq];
    assert KINDS[..5][..4][..3] == [Req, Opt, Rest];
    assert KINDS[..5][..4][..3][..2] == [Req, Opt];
    assert KINDS[..5][..4][..3][..2][..1] == [Req];
    assert [Req][..0] == [];
    assert Occurrences([Req, Opt], k) == (if k == Req || k == Opt then 1 else 0);
    assert Occurrences([Req, Opt, Rest, KeyReq], k) == (if k == Req || k == Opt || k == Rest || k == KeyReq then 1 else 0);
  }

  /** One more entry of kind `k` adds it to the grouping once per occurrence of
      `k` among the kinds. */
  lemma {:induction false} GroupedOverSnoc(init: seq<RawParam>, x: RawParam, k: Kind, ks: seq<Kind>)
    requires Symbol(k) == x.0
    ensures multiset(GroupedOver(init + [x], ks)) ==
      multiset(GroupedOver(init, ks)) + multiset{}[x := Occurrences(ks, k)]
  {
    if ks != [] {
      var t := ks[|ks| - 1];
      var ks' := ks[..|ks| - 1];
      GroupedOverSnoc(init, x, k, ks');
      BagsSnoc(init, x, k, t);
      var before := multiset(GroupedOver(init, ks'));
      var n := Occurrences(ks', k);
      var extra: multiset<RawParam> := if t == k then multiset{x} else multiset{};
      assert multiset{}[x := n] + extra == multiset{}[x := Occurrences(ks, k)];
    }
  }

  lemma {:induction false} GroupedOverPermutation(raw: seq<RawParam>)
    requires forall i :: 0 <= i < |raw| ==> ParseKind(raw[i].0).Ok?
    ensures multiset(GroupedOver(raw, KINDS)) == multiset(raw)
  {
    if raw != [] {
      var init := raw[..|raw| - 1];
      var x := raw[|raw| - 1];
      assert raw == init + [x];
      GroupedOverPermutation(init);
      var k := ParseKind(x.0).value;
      GroupedOverSnoc(init, x, k, KINDS);
      OccursOnce(k);
      assert multiset{}[x := 1] == multiset{x};
      assert multiset(init + [x]) == multiset(init) + multiset{x};
    } else {
      GroupedOverParams(raw);
    }
  }

  lemma AsRawAppend(a: seq<Param>, b: seq<Param>)
    ensures AsRaw(a + b) == AsRaw(a) + AsRaw(b)
  {
  }

  /** Grouping over all six kinds in canonical order is `params`. */
  lemma GroupedOverParams(raw: seq<RawParam>)
    ensures GroupedOver(raw, KINDS) ==
      AsRaw(Params(Parameters(Select(raw, Req), Select(raw, Opt), Select(raw, Rest),
                              Select(raw, KeyReq), Select(raw, Key), Select(raw, KeyRest))))
  {
    var t1 := Tag(Req, Select(raw, Req));
    var t2 := Tag(Opt, Select(raw, Opt));
    var t3 := Tag(Rest, Select(raw, Rest));
    var t4 := Tag(KeyReq, Select(raw, KeyReq));
    var t5 := Tag(Key, Select(raw, Key));
    var t6 := Tag(KeyRest, Select(raw, KeyRest));
    assert KINDS[..5] == [Req, Opt, Rest, KeyReq, Key];
    assert KINDS[..5][..4] == [Req, Opt, Rest, KeyReq];
    assert KINDS[..5][..4][..3] == [Req, Opt, Rest];
    assert KINDS[..5][..4][..3][..2] == [Req, Opt];
    assert KINDS[..5][..4][..3][..2][..1] == [Req];
    assert [Req][..0] == [];
    assert GroupedOver(raw, [Req]) == AsRaw(t1);
    assert GroupedOver(raw, [Req, Opt]) == AsRaw(t1) + AsRaw(t2);
    assert GroupedOver(raw, [Req, Opt, Rest]) == AsRaw(t1) + AsRaw(t2) + AsRaw(t3);
    assert GroupedOver(raw, [Req, Opt, Rest, KeyReq]) == AsRaw(t1) + AsRaw(t2) + AsRaw(t3) + AsRaw(t4);
    assert GroupedOver(raw, [Req, Opt, Rest, KeyReq, Key]) ==
      AsRaw(t1) + AsRaw(t2) + AsRaw(t3) + AsRaw(t4) + AsRaw(t5);
    AsRawAppend(t1, t2);
    AsRawAppend(t1 + t2, t3);
    AsRawAppend(t1 + t2 + t3, t4);
    AsRawAppend(t1 + t2 + t3 + t4, t5);
    AsRawAppend(t1 + t2 + t3 + t4 + t5, t6);
  }

  /** `params` is a permutation of the accepted input. */
  lemma ParamsPermutation(raw: seq<RawParam>)
    requires Classify(raw).Ok?
    ensures multiset(AsRaw(Params(Classify(raw).value))) == multiset(raw)
  {
    FirstRejectedNone(raw);
    GroupedOverParams(raw);
    GroupedOverPermutation(raw);
  }

  // ---------------------------------------------------------------------------
  // `signature`: the parameter list of the generated method
  // ---------------------------------------------------------------------------

  /** How the sentinel is named in generated code. */
  const UNIQUE_REF := "Memoized::Parameters::UNIQUE"
  const OPT_DEFAULT := " = " + UNIQUE_REF
  const KEY_DEFAULT := ": " + UNIQUE_REF

  /** `to_signature`: optional parameters default to the sentinel. */
  function Fragment(param: Param): string {
    match param.0
    case Req => param.1
    case Opt => param.1 + OPT_DEFAULT
    case Rest => "*" + param.1
    case KeyReq => param.1 + ":"
    case Key => param.1 + KEY_DEFAULT
    case KeyRest => "**" + param.1
  }

  /** `Array#join(sep)`. */
  function Join(parts: seq<string>, sep: string): string {
    if parts == [] then ""
    else if |parts| == 1 then parts[0]
    else parts[0] + sep + Join(parts[1..], sep)
  }

  /** `signature`: the fragments of `params`, joined by ", ". */
  function Signature(p: Parameters): string {
    var ps := Params(p);
    Join(seq(|ps|, i requires 0 <= i < |ps| => Fragment(ps[i])), ", ")
  }

  /** A character that may occur in a Ruby identifier (ASCII only). */
  predicate IsWordChar(c: char) {
    ('a' <= c <= 'z') || ('A' <= c <= 'Z') || ('0' <= c <= '9') || c == '_'
  }

  predicate Identifier(name: string) {
    |name| > 0 && forall i :: 0 <= i < |name| ==> IsWordChar(name[i])
  }

  predicate Identifiers(p: Parameters) {
    forall param :: param in Params(p) ==> Identifier(param.1)
  }

  /** Splits `s` at every occurrence of `sep`. */
  function SplitOn(s: string, sep: string): (r: seq<string>)
    requires |sep| > 0
    ensures |r| >= 1
    decreases |s|
  {
    if |s| >= |sep| && s[..|sep|] == sep then [""] + SplitOn(s[|sep|..], sep)
    else if s == [] then [""]
    else
      var r := SplitOn(s[1..], sep);
      [[s[0]] + r[0]] + r[1..]
  }

  lemma {:induction false} SplitOnPlain(a: string, sep: string, rest: string)
    requires |sep| > 0 && forall i :: 0 <= i < |a| ==> a[i] != sep[0]
    ensures SplitOn(a + sep + rest, sep) == [a] + SplitOn(rest, sep)
    ensures SplitOn(a, sep) == [a]
    decreases |a|
  {
    var s := a + sep + rest;
    if a == [] {
      assert s == sep + rest;
      assert s[..|sep|] == sep && s[|sep|..] == rest;
    } else {
      assert s[0] == a[0];
      assert s[1..] == a[1..] + sep + rest;
      SplitOnPlain(a[1..], sep, rest);
      assert [a[0]] + a[1..] == a;
    }
  }

  /** Splitting undoes joining when no part contains the separator's first
      character. */
  lemma {:induction false} SplitJoin(parts: seq<string>, sep: string)
    requires |sep| > 0 && |parts| > 0
    requires forall j, i :: 0 <= j < |parts| && 0 <= i < |parts[j]| ==> parts[j][i] != sep[0]
    ensures SplitOn(Join(parts, sep), sep) == parts
  {
    if |parts| == 1 {
      SplitOnPlain(parts[0], sep, "");
    } else {
      SplitOnPlain(parts[0], sep, Join(parts[1..], sep));
      SplitJoin(parts[1..], sep);
    }
  }

  /** Reads one fragment back. */
  function ParseFragment(f: string): Param {
    if HasPrefix(f, "**") then (KeyRest, f[2..])
    else if HasPrefix(f, "*") then (Rest, f[1..])
    else if HasSuffix(f, OPT_DEFAULT) then (Opt, f[..|f| - |OPT_DEFAULT|])
    else if HasSuffix(f, KEY_DEFAULT) then (Key, f[..|f| - |KEY_DEFAULT|])
    else if HasSuffix(f, ":") then (KeyReq, f[..|f| - 1])
    else (Req, f)
  }

  /** Reads a signature back. */
  function ParseSignature(s: string): seq<Param> {
    if s == "" then []
    else
      var parts := SplitOn(s, ", ");
      seq(|parts|, i requires 0 <= i < |parts| => ParseFragment(parts[i]))
  }

  lemma SuffixChar(s: string, x: string, j: nat)
    requires HasSuffix(s, x) && j < |x|
    ensures s[|s| - |x| + j] == x[j]
  {
    assert s[|s| - |x|..][j] == x[j];
  }

  lemma NotSuffixAt(s: string, x: string, j: nat)
    requires j < |x| && (|x| <= |s| ==> s[|s| - |x| + j] != x[j])
    ensures !HasSuffix(s, x)
  {
    if HasSuffix(s, x) {
      SuffixChar(s, x, j);
    }
  }

  /** A word-ending string has neither default as a suffix. */
  lemma NoDefaultSuffix(f: string)
    requires |f| > 0 && IsWordChar(f[|f| - 1]) && forall i :: 0 <= i < |f| ==> f[i] != ' ' && f[i] != ':'
    ensures !HasSuffix(f, OPT_DEFAULT) && !HasSuffix(f, KEY_DEFAULT) && !HasSuffix(f, ":")
  {
    if HasSuffix(f, OPT_DEFAULT) {
      SuffixChar(f, OPT_DEFAULT, 0);
    }
    if HasSuffix(f, KEY_DEFAULT) {
      SuffixChar(f, KEY_DEFAULT, 0);
    }
  }

  lemma ParseOpt(n: string)
    requires Identifier(n)
    ensures ParseFragment(n + OPT_DEFAULT) == (Opt, n)
  {
    var f := n + OPT_DEFAULT;
    assert f[0] == n[0];
    assert f[|f| - |OPT_DEFAULT|..] == OPT_DEFAULT;
    assert f[..|f| - |OPT_DEFAULT|] == n;
  }

  lemma ParseKey(n: string)
    requires Identifier(n)
    ensures ParseFragment(n + KEY_DEFAULT) == (Key, n)
  {
    var f := n + KEY_DEFAULT;
    assert f[0] == n[0];
    assert f[|n|] == ':';
    NotSuffixAt(f, OPT_DEFAULT, 1);
    assert f[|f| - |KEY_DEFAULT|..] == KEY_DEFAULT;
    assert f[..|f| - |KEY_DEFAULT|] == n;
  }

  lemma ParseKeyReq(n: string)
    requires Identifier(n)
    ensures ParseFragment(n + ":") == (KeyReq, n)
  {
    var f := n + ":";
    assert f[0] == n[0];
    if HasSuffix(f, OPT_DEFAULT) {
      SuffixChar(f, OPT_DEFAULT, |OPT_DEFAULT| - 1);
    }
    if HasSuffix(f, KEY_DEFAULT) {
      SuffixChar(f, KEY_DEFAULT, |KEY_DEFAULT| - 1);
    }
    assert f[..|f| - 1] == n;
  }

  lemma ParseReq(n: string)
    requires Identifier(n)
    ensures ParseFragment(n) == (Req, n)
  {
    assert forall i :: 0 <= i < |n| ==> n[i] != ' ' && n[i] != ':';
    assert n[0] != '*';
    NoDefaultSuffix(n);
  }

  lemma ParsePrefixed(n: string)
    requires Identifier(n)
    ensures ParseFragment("*" + n) == (Rest, n)
    ensures ParseFragment("**" + n) == (KeyRest, n)
  {
    assert ("*" + n)[0] == '*' && ("*" + n)[1] == n[0];
    assert ("*" + n)[1..] == n;
    assert ("**" + n)[..2] == "**" && ("**" + n)[2..] == n;
  }

  /** Each fragment determines its parameter. */
  lemma FragmentRoundTrip(param: Param)
    requires Identifier(param.1)
    ensures ParseFragment(Fragment(param)) == param
  {
    var (k, n) := param;
    match k
    case Req => ParseReq(n);
    case Opt => ParseOpt(n);
    case Rest => ParsePrefixed(n);
    case KeyReq => ParseKeyReq(n);
    case Key => ParseKey(n);
    case KeyRest => ParsePrefixed(n);
  }

  lemma FragmentHasNoComma(param: Param)
    requires Identifier(param.1)
    ensures forall i :: 0 <= i < |Fragment(param)| ==> Fragment(param)[i] != ','
  {
  }

  /** The signature determines `params`: reading it back gives them, in order. */
  lemma SignatureRoundTrip(p: Parameters)
    requires Identifiers(p)
    ensures ParseSignature(Signature(p)) == Params(p)
  {
    var ps := Params(p);
    var parts := seq(|ps|, i requires 0 <= i < |ps| => Fragment(ps[i]));
    forall i | 0 <= i < |ps|
      ensures ParseFragment(parts[i]) == ps[i]
      ensures forall c :: 0 <= c < |parts[i]| ==> parts[i][c] != ','
    {
      assert ps[i] in ps;
      FragmentRoundTrip(ps[i]);
      FragmentHasNoComma(ps[i]);
    }
    if ps != [] {
      SplitJoin(parts, ", ");
      assert |parts[0]| > 0 by {
        assert ps[0] in ps;
      }
      assert Signature(p) != "" by {
        if |parts| == 1 {
        } else {
          assert Signature(p) == parts[0] + ", " + Join(parts[1..], ", ");
        }
      }
    }
  }

  // ---------------------------------------------------------------------------
  // `cache_key`: the code that builds the key
  // ---------------------------------------------------------------------------

  /** One line of the generated key code, by what it does. */
  datatype Stmt =
    | Push(name: string)
    | PushUnlessUnique(name: string)
    | PushSplat(name: string)
    | Store(name: string)
    | StoreUnlessUnique(name: string)
    | Merge(name: string)

  /** `to_cache_key`, by the statement it emits. */
  function ToCacheKey(param: Param): Stmt {
    match param.0
    case Req => Push(param.1)
    case Opt => PushUnlessUnique(param.1)
    case Rest => PushSplat(param.1)
    case KeyReq => Store(param.1)
    case Key => StoreUnlessUnique(param.1)
    case KeyRest => Merge(param.1)
  }

  function Statements(p: Parameters): seq<Stmt> {
    var ps := Params(p);
    seq(|ps|, i requires 0 <= i < |ps| => ToCacheKey(ps[i]))
  }

  const PUSH := "all_args.push("
  const PUSH_SPLAT := "all_args.push(*"
  const STORE := "all_kwargs[:"
  const MERGE := "all_kwargs.merge!("
  const UNLESS := " unless "
  const IS_UNIQUE := ".equal?(" + UNIQUE_REF + ")"

  /** The text of `to_cache_key`. */
  function Render(st: Stmt): string {
    match st
    case Push(n) => PUSH + n + ")"
    case PushUnlessUnique(n) => PUSH + n + ")" + UNLESS + n + IS_UNIQUE
    case PushSplat(n) => PUSH_SPLAT + n + ")"
    case Store(n) => STORE + n + "] = " + n
    case StoreUnlessUnique(n) => STORE + n + "] = " + n + UNLESS + n + IS_UNIQUE
    case Merge(n) => MERGE + n + ")"
  }

  function RenderAll(sts: seq<Stmt>): seq<string> {
    seq(|sts|, i requires 0 <= i < |sts| => Render(sts[i]))
  }

  const CODE_HEAD := "        all_args = []\n        all_kwargs = {}\n\n        "
  const CODE_TAIL := "\n        \n        cache_key = [all_args, all_kwargs]\n"

  /** `cache_key`: the statements joined by newlines inside the fixed heredoc
      that starts `all_args` and `all_kwargs` empty and ends with
      `cache_key = [all_args, all_kwargs]`. */
  function CacheKeyCode(p: Parameters): string {
    var sts := Statements(p);
    CODE_HEAD + Join(RenderAll(sts), "\n") + CODE_TAIL
  }

  /** Length of the leading run of identifier characters. */
  function WordEnd(s: string): (i: nat)
    ensures i <= |s| && forall j :: 0 <= j < i ==> IsWordChar(s[j])
    ensures i < |s| ==> !IsWordChar(s[i])
  {
    if s == [] || !IsWordChar(s[0]) then 0 else 1 + WordEnd(s[1..])
  }

  lemma {:induction false} WordEndOf(n: string, rest: string)
    requires forall j :: 0 <= j < |n| ==> IsWordChar(n[j])
    requires rest == [] || !IsWordChar(rest[0])
    ensures WordEnd(n + rest) == |n|
    decreases |n|
  {
    if n != [] {
      assert (n + rest)[1..] == n[1..] + rest;
      WordEndOf(n[1..], rest);
    } else {
      assert n + rest == rest;
    }
  }

  /** The statements a line of key code can be, judged by its leading call;
      the name is the identifier that follows the call. */
  function Candidates(line: string): seq<Stmt> {
    if HasPrefix(line, PUSH_SPLAT) then
      [PushSplat(NameAt(line, |PUSH_SPLAT|))]
    else if HasPrefix(line, PUSH) then
      var n := NameAt(line, |PUSH|);
      [Push(n), PushUnlessUnique(n)]
    else if HasPrefix(line, STORE) then
      var n := NameAt(line, |STORE|);
      [Store(n), StoreUnlessUnique(n)]
    else if HasPrefix(line, MERGE) then
      [Merge(NameAt(line, |MERGE|))]
    else []
  }

  function NameAt(line: string, k: nat): string
    requires k <= |line|
  {
    line[k..][..WordEnd(line[k..])]
  }

  /** Reads one line of key code back: the candidate whose rendering is
      exactly the line. */
  function ParseStmt(line: string): (r: Option<Stmt>)
    ensures r.Some? ==> Render(r.value) == line
  {
    var candidates := Candidates(line);
    if |candidates| >= 1 && Render(candidates[0]) == line then Some(candidates[0])
    else if |candidates| >= 2 && Render(candidates[1]) == line then Some(candidates[1])
    else None
  }

  /** The name right after a prefix is recovered when an identifier follows it
      and a non-identifier character follows the name. */
  lemma NameAfter(prefix: string, n: string, rest: string)
    requires Identifier(n) && |rest| > 0 && !IsWordChar(rest[0])
    ensures var line := prefix + n + rest;
      HasPrefix(line, prefix) && NameAt(line, |prefix|) == n
  {
    var line := prefix + n + rest;
    assert line[|prefix|..] == n + rest;
    WordEndOf(n, rest);
    assert (n + rest)[..|n|] == n;
  }

  lemma NotPrefixAt(s: string, p: string, j: nat)
    requires j < |p| && (|p| <= |s| ==> s[j] != p[j])
    ensures !HasPrefix(s, p)
  {
    if |p| <= |s| {
      assert s[..|p|][j] == s[j];
    }
  }

  lemma PushRoundTrip(n: string)
    requires Identifier(n)
    ensures ParseStmt(Render(Push(n))) == Some(Push(n))
  {
    var line := Render(Push(n));
    NameAfter(PUSH, n, ")");
    NotPrefixAt(line, PUSH_SPLAT, |PUSH|);
    assert Candidates(line) == [Push(n), PushUnlessUnique(n)];
  }

  lemma PushUnlessRoundTrip(n: string)
    requires Identifier(n)
    ensures ParseStmt(Render(PushUnlessUnique(n))) == Some(PushUnlessUnique(n))
  {
    var rest := ")" + UNLESS + n + IS_UNIQUE;
    var line := Render(PushUnlessUnique(n));
    assert line == PUSH + n + rest;
    NameAfter(PUSH, n, rest);
    NotPrefixAt(line, PUSH_SPLAT, |PUSH|);
    assert Candidates(line) == [Push(n), PushUnlessUnique(n)];
    assert |Render(Push(n))| < |line|;
  }

  lemma SplatRoundTrip(n: string)
    requires Identifier(n)
    ensures ParseStmt(Render(PushSplat(n))) == Some(PushSplat(n))
  {
    NameAfter(PUSH_SPLAT, n, ")");
    assert Candidates(Render(PushSplat(n))) == [PushSplat(n)];
  }

  lemma StoreRoundTrip(n: string)
    requires Identifier(n)
    ensures ParseStmt(Render(Store(n))) == Some(Store(n))
  {
    var rest := "] = " + n;
    var line := Render(Store(n));
    assert line == STORE + n + rest;
    NameAfter(STORE, n, rest);
    NotPrefixAt(line, PUSH_SPLAT, 4);
    NotPrefixAt(line, PUSH, 4);
    assert Candidates(line) == [Store(n), StoreUnlessUnique(n)];
  }

  lemma StoreUnlessRoundTrip(n: string)
    requires Identifier(n)
    ensures ParseStmt(Render(StoreUnlessUnique(n))) == Some(StoreUnlessUnique(n))
  {
    StoreUnlessCandidates(n);
    assert |Render(Store(n))| < |Render(StoreUnlessUnique(n))|;
  }

  lemma StoreUnlessCandidates(n: string)
    requires Identifier(n)
    ensures Candidates(Render(StoreUnlessUnique(n))) == [Store(n), StoreUnlessUnique(n)]
  {
    var rest := "] = " + n + UNLESS + n + IS_UNIQUE;
    var line := Render(StoreUnlessUnique(n));
    assert line == STORE + n + rest;
    NameAfter(STORE, n, rest);
    NotPrefixAt(line, PUSH_SPLAT, 4);
    NotPrefixAt(line, PUSH, 4);
  }

  lemma MergeRoundTrip(n: string)
    requires Identifier(n)
    ensures ParseStmt(Render(Merge(n))) == Some(Merge(n))
  {
    var line := Render(Merge(n));
    NameAfter(MERGE, n, ")");
    NotPrefixAt(line, PUSH_SPLAT, 4);
    NotPrefixAt(line, PUSH, 4);
    NotPrefixAt(line, STORE, 10);
    assert Candidates(line) == [Merge(n)];
  }

  /** Each statement's line determines the statement. */
  lemma StmtRoundTrip(st: Stmt)
    requires Identifier(st.name)
    ensures ParseStmt(Render(st)) == Some(st)
  {
    match st
    case Push(n) => PushRoundTrip(n);
    case PushUnlessUnique(n) => PushUnlessRoundTrip(n);
    case PushSplat(n) => SplatRoundTrip(n);
    case Store(n) => StoreRoundTrip(n);
    case StoreUnlessUnique(n) => StoreUnlessRoundTrip(n);
    case Merge(n) => MergeRoundTrip(n);
  }

  lemma NoNewlineJoin(a: string, b: string)
    requires NoNewline(a) && NoNewline(b)
    ensures NoNewline(a + b)
  {
    forall i | 0 <= i < |a + b|
      ensures (a + b)[i] != '\n'
    {
      if i >= |a| {
        assert (a + b)[i] == b[i - |a|];
      }
    }
  }

  lemma NoNewlineJoin3(a: string, b: string, c: string)
    requires NoNewline(a) && NoNewline(b) && NoNewline(c)
    ensures NoNewline(a + b + c)
  {
    NoNewlineJoin(a, b);
    NoNewlineJoin(a + b, c);
  }

  lemma FixedTextOneLine()
    ensures NoNewline(PUSH) && NoNewline(PUSH_SPLAT) && NoNewline(STORE) && NoNewline(MERGE)
    ensures NoNewline(UNLESS) && NoNewline(IS_UNIQUE) && NoNewline(")") && NoNewline("] = ")
  {
  }

  lemma GuardOneLine(n: string)
    requires Identifier(n)
    ensures NoNewline(n) && NoNewline(UNLESS + n + IS_UNIQUE)
  {
    assert NoNewline(n);
    FixedTextOneLine();
    NoNewlineJoin3(UNLESS, n, IS_UNIQUE);
  }

  lemma PushOneLine(n: string)
    requires Identifier(n)
    ensures NoNewline(Render(Push(n))) && NoNewline(Render(PushUnlessUnique(n)))
    ensures NoNewline(Render(PushSplat(n))) && NoNewline(Render(Merge(n)))
  {
    GuardOneLine(n);
    FixedTextOneLine();
    NoNewlineJoin3(PUSH, n, ")");
    NoNewlineJoin(PUSH + n + ")", UNLESS + n + IS_UNIQUE);
    assert Render(PushUnlessUnique(n)) == PUSH + n + ")" + (UNLESS + n + IS_UNIQUE);
    NoNewlineJoin3(PUSH_SPLAT, n, ")");
    NoNewlineJoin3(MERGE, n, ")");
  }

  lemma StoreOneLine(n: string)
    requires Identifier(n)
    ensures NoNewline(Render(Store(n))) && NoNewline(Render(StoreUnlessUnique(n)))
  {
    GuardOneLine(n);
    FixedTextOneLine();
    NoNewlineJoin3(STORE, n, "] = ");
    NoNewlineJoin(STORE + n + "] = ", n);
    NoNewlineJoin(STORE + n + "] = " + n, UNLESS + n + IS_UNIQUE);
    assert Render(StoreUnlessUnique(n)) == STORE + n + "] = " + n + (UNLESS + n + IS_UNIQUE);
  }

  lemma RenderOneLine(st: Stmt)
    requires Identifier(st.name)
    ensures NoNewline(Render(st)) && |Render(st)| > 0
  {
    PushOneLine(st.name);
    StoreOneLine(st.name);
  }

  /** Reads a run of lines back, failing on the first unreadable line. */
  function ParseLines(lines: seq<string>): Option<seq<Stmt>> {
    if lines == [] then Some([])
    else
      match (ParseStmt(lines[0]), ParseLines(lines[1..]))
      case (Some(st), Some(sts)) => Some([st] + sts)
      case _ => None
  }

  /** Reads generated key code back into its statements. */
  function ParseCode(code: string): Option<seq<Stmt>> {
    if !HasPrefix(code, CODE_HEAD) || !HasSuffix(code[|CODE_HEAD|..], CODE_TAIL) then None
    else
      var body := code[|CODE_HEAD|..][..|code| - |CODE_HEAD| - |CODE_TAIL|];
      if body == "" then Some([]) else ParseLines(SplitOn(body, "\n"))
  }

  lemma {:induction false} ParseRendered(sts: seq<Stmt>)
    requires forall i :: 0 <= i < |sts| ==> Identifier(sts[i].name)
    ensures ParseLines(RenderAll(sts)) == Some(sts)
  {
    var lines := RenderAll(sts);
    if sts != [] {
      StmtRoundTrip(sts[0]);
      ParseRendered(sts[1..]);
      assert lines[0] == Render(sts[0]);
      assert lines[1..] == RenderAll(sts[1..]);
      ParseLinesCons(lines, sts[0], sts[1..]);
      assert [sts[0]] + sts[1..] == sts;
    }
  }

  lemma ParseLinesCons(lines: seq<string>, st: Stmt, sts: seq<Stmt>)
    requires lines != [] && ParseStmt(lines[0]) == Some(st) && ParseLines(lines[1..]) == Some(sts)
    ensures ParseLines(lines) == Some([st] + sts)
  {
  }

  lemma ParseCodeBody(body: string)
    ensures ParseCode(CODE_HEAD + body + CODE_TAIL) ==
      if body == "" then Some([]) else ParseLines(SplitOn(body, "\n"))
  {
    var code := CODE_HEAD + body + CODE_TAIL;
    assert code[..|CODE_HEAD|] == CODE_HEAD;
    assert code[|CODE_HEAD|..] == body + CODE_TAIL;
    assert (body + CODE_TAIL)[|body|..] == CODE_TAIL;
    assert code[|CODE_HEAD|..][..|code| - |CODE_HEAD| - |CODE_TAIL|] == body;
  }

  lemma ParseJoined(sts: seq<Stmt>)
    requires forall i :: 0 <= i < |sts| ==> Identifier(sts[i].name)
    ensures var body := Join(RenderAll(sts), "\n");
      (if body == "" then Some([]) else ParseLines(SplitOn(body, "\n"))) == Some(sts)
  {
    var lines := RenderAll(sts);
    var body := Join(lines, "\n");
    ParseRendered(sts);
    if sts != [] {
      forall i | 0 <= i < |sts|
        ensures NoNewline(lines[i])
      {
        RenderOneLine(sts[i]);
      }
      SplitJoin(lines, "\n");
      RenderOneLine(sts[0]);
      assert body != "" by {
        if |lines| > 1 {
          assert body == lines[0] + "\n" + Join(lines[1..], "\n");
        }
      }
    }
  }

  /** The key code determines the statements, so two parameter lists whose
      key code is the same text build their keys the same way. */
  lemma CacheKeyCodeRoundTrip(p: Parameters)
    requires Identifiers(p)
    ensures ParseCode(CacheKeyCode(p)) == Some(Statements(p))
  {
    var ps := Params(p);
    var sts := Statements(p);
    forall i | 0 <= i < |sts|
      ensures Identifier(sts[i].name)
    {
      assert ps[i] in ps;
    }
    ParseJoined(sts);
    assert CacheKeyCode(p) == CODE_HEAD + Join(RenderAll(sts), "\n") + CODE_TAIL;
    ParseCodeBody(Join(RenderAll(sts), "\n"));
  }

  // ---------------------------------------------------------------------------
  // What the key code computes
  // ---------------------------------------------------------------------------

  /** `cache_key = [all_args, all_kwargs]`. Keyword names are compared as
      symbols, so they are plain names here; Ruby hashes compare without
      regard to order, so `all_kwargs` is a map. */
  datatype CacheKey = CacheKey(args: seq<Value>, kwargs: map<string, Value>)

  const EMPTY_KEY := CacheKey([], map[])

  /** The local variables of the memoized method: each parameter's value. */
  type Env = map<string, Value>

  /** A statement can run in `env`: its variable is bound, a splatted rest
      parameter holds an array and a merged keyword rest parameter a hash. */
  predicate Fits(st: Stmt, env: Env) {
    st.name in env &&
    (st.PushSplat? ==> env[st.name].Arr?) &&
    (st.Merge? ==> env[st.name].Hash?)
  }

  predicate AllFit(sts: seq<Stmt>, env: Env) {
    forall i :: 0 <= i < |sts| ==> Fits(sts[i], env)
  }

  /** One line of key code; `equal?` on the sentinel is identity, which for
      values is equality. */
  function Exec(st: Stmt, env: Env, sentinel: Value, key: CacheKey): CacheKey
    requires Fits(st, env)
  {
    var v := env[st.name];
    match st
    case Push(_) => key.(args := key.args + [v])
    case PushUnlessUnique(_) => if v == sentinel then key else key.(args := key.args + [v])
    case PushSplat(_) => key.(args := key.args + v.elems)
    case Store(n) => key.(kwargs := key.kwargs[n := v])
    case StoreUnlessUnique(n) => if v == sentinel then key else key.(kwargs := key.kwargs[n := v])
    case Merge(_) => key.(kwargs := key.kwargs + v.entries)
  }

  /** The lines run in order from `start`. */
  function Run(sts: seq<Stmt>, env: Env, sentinel: Value, start: CacheKey): CacheKey
    requires AllFit(sts, env)
  {
    if sts == [] then start
    else Exec(sts[|sts| - 1], env, sentinel, Run(sts[..|sts| - 1], env, sentinel, start))
  }

  /** Evaluating the key code: `all_args` and `all_kwargs` start empty and
      each line updates one of them. */
  method BuildCacheKey(sts: seq<Stmt>, env: Env, sentinel: Value) returns (key: CacheKey)
    requires AllFit(sts, env)
    ensures key == Run(sts, env, sentinel, EMPTY_KEY)
  {
    var allArgs: seq<Value> := [];
    var allKwargs: map<string, Value> := map[];
    for i := 0 to |sts|
      invariant CacheKey(allArgs, allKwargs) == Run(sts[..i], env, sentinel, EMPTY_KEY)
    {
      assert sts[..i + 1][..i] == sts[..i];
      var v := env[sts[i].name];
      match sts[i]
      case Push(_) =>
        allArgs := allArgs + [v];
      case PushUnlessUnique(_) =>
        if v != sentinel {
          allArgs := allArgs + [v];
        }
      case PushSplat(_) =>
        allArgs := allArgs + v.elems;
      case Store(n) =>
        allKwargs := allKwargs[n := v];
      case StoreUnlessUnique(n) =>
        if v != sentinel {
          allKwargs := allKwargs[n := v];
        }
      case Merge(_) =>
        allKwargs := allKwargs + v.entries;
    }
    assert sts[..|sts|] == sts;
    key := CacheKey(allArgs, allKwargs);
  }

  lemma {:induction false} RunAppend(a: seq<Stmt>, b: seq<Stmt>, env: Env, sentinel: Value, start: CacheKey)
    requires AllFit(a, env) && AllFit(b, env)
    ensures AllFit(a + b, env)
    ensures Run(a + b, env, sentinel, start) == Run(b, env, sentinel, Run(a, env, sentinel, start))
    decreases |b|
  {
    assert forall i :: 0 <= i < |a + b| ==> (a + b)[i] == if i < |a| then a[i] else b[i - |a|];
    if b == [] {
      assert a + b == a;
    } else {
      var init := b[..|b| - 1];
      assert (a + b)[..|a + b| - 1] == a + init;
      RunAppend(a, init, env, sentinel, start);
    }
  }

  /** The key code of the parameters of one kind. */
  function KindStatements(k: Kind, names: seq<string>): seq<Stmt> {
    seq(|names|, i requires 0 <= i < |names| => ToCacheKey((k, names[i])))
  }


  predicate BoundIn(names: seq<string>, env: Env) {
    forall i :: 0 <= i < |names| ==> names[i] in env
  }

  function ValuesOf(env: Env, names: seq<string>): seq<Value>
    requires BoundIn(names, env)
  {
    seq(|names|, i requires 0 <= i < |names| => env[names[i]])
  }

  /** The values of the optional parameters that are not the sentinel. */
  function SuppliedValues(env: Env, names: seq<string>, sentinel: Value): seq<Value>
    requires BoundIn(names, env)
  {
    if names == [] then []
    else
      var last := env[names[|names| - 1]];
      SuppliedValues(env, names[..|names| - 1], sentinel) + (if last == sentinel then [] else [last])
  }

  /** Required positional parameters push their values in order. */
  lemma {:induction false} RunRequired(names: seq<string>, env: Env, sentinel: Value, start: CacheKey)
    requires BoundIn(names, env)
    ensures AllFit(KindStatements(Req, names), env)
    ensures Run(KindStatements(Req, names), env, sentinel, start) ==
      start.(args := start.args + ValuesOf(env, names))
    decreases |names|
  {
    var sts := KindStatements(Req, names);
    if names != [] {
      var init := names[..|names| - 1];
      assert sts[..|sts| - 1] == KindStatements(Req, init);
      RunRequired(init, env, sentinel, start);
      assert ValuesOf(env, names) == ValuesOf(env, init) + [env[names[|names| - 1]]];
    }
  }

  /** Optional positional parameters push the values that are not the sentinel. */
  lemma {:induction false} RunOptional(names: seq<string>, env: Env, sentinel: Value, start: CacheKey)
    requires BoundIn(names, env)
    ensures AllFit(KindStatements(Opt, names), env)
    ensures Run(KindStatements(Opt, names), env, sentinel, start) ==
      start.(args := start.args + SuppliedValues(env, names, sentinel))
    decreases |names|
  {
    var sts := KindStatements(Opt, names);
    if names != [] {
      var init := names[..|names| - 1];
      assert sts[..|sts| - 1] == KindStatements(Opt, init);
      RunOptional(init, env, sentinel, start);
    }
  }

  /** Whether a keyword statement of kind `k` for `n` stores into `all_kwargs`. */
  predicate Stores(k: Kind, n: string, env: Env, sentinel: Value)
    requires n in env
  {
    !(k == Key && env[n] == sentinel)
  }

  /** One keyword line: `all_kwargs[:n] = n`, skipped for the sentinel when
      the keyword is optional. */
  lemma ExecKeyword(k: Kind, n: string, env: Env, sentinel: Value, key: CacheKey)
    requires (k == KeyReq || k == Key) && n in env
    ensures Fits(ToCacheKey((k, n)), env)
    ensures var r := Exec(ToCacheKey((k, n)), env, sentinel, key);
      r.args == key.args &&
      r.kwargs == if Stores(k, n, env, sentinel) then key.kwargs[n := env[n]] else key.kwargs
  {
  }

  /** Keyword parameters store their values under their names; optional ones
      skip the sentinel. */
  lemma {:induction false} RunKeywords(k: Kind, names: seq<string>, env: Env, sentinel: Value, start: CacheKey)
    requires k == KeyReq || k == Key
    requires BoundIn(names, env)
    ensures AllFit(KindStatements(k, names), env)
    ensures var r := Run(KindStatements(k, names), env, sentinel, start);
      r.args == start.args &&
      (forall n :: n in r.kwargs <==> n in start.kwargs || (n in names && Stores(k, n, env, sentinel))) &&
      (forall n :: n in r.kwargs ==>
        r.kwargs[n] == if n in names && Stores(k, n, env, sentinel) then env[n] else start.kwargs[n])
    decreases |names|
  {
    var sts := KindStatements(k, names);
    if names != [] {
      var init := names[..|names| - 1];
      var last := names[|names| - 1];
      assert sts[..|sts| - 1] == KindStatements(k, init);
      RunKeywords(k, init, env, sentinel, start);
      var mid := Run(KindStatements(k, init), env, sentinel, start);
      assert Run(sts, env, sentinel, start) == Exec(ToCacheKey((k, last)), env, sentinel, mid);
      ExecKeyword(k, last, env, sentinel, mid);
      assert forall n :: n in names <==> n in init || n == last;
    }
  }

  lemma {:induction false} SuppliedPrefix(env: Env, names: seq<string>, sentinel: Value, vals: seq<Value>, m: nat)
    requires BoundIn(names, env) && m <= |names| && m <= |vals|
    requires forall j :: 0 <= j < m ==> env[names[j]] == vals[j] && vals[j] != sentinel
    requires forall j :: m <= j < |names| ==> env[names[j]] == sentinel
    ensures SuppliedValues(env, names, sentinel) == vals[..m]
    decreases |names|
  {
    if names != [] {
      var init := names[..|names| - 1];
      if m < |names| {
        SuppliedPrefix(env, init, sentinel, vals, m);
      } else {
        SuppliedPrefix(env, init, sentinel, vals, m - 1);
        assert vals[..m - 1] + [vals[m - 1]] == vals[..m];
      }
    }
  }

  /** The values a rest parameter splices in. */
  function RestValues(env: Env, rest: seq<string>): seq<Value>
    requires forall n :: n in rest ==> n in env && env[n].Arr?
  {
    if rest == [] then [] else env[rest[0]].elems
  }

  /** The entries a keyword rest parameter merges in. */
  function RestEntries(env: Env, keyrest: seq<string>): map<string, Value>
    requires forall n :: n in keyrest ==> n in env && env[n].Hash?
  {
    if keyrest == [] then map[] else env[keyrest[0]].entries
  }

  /** The rest parameter, if any, splices its array into `all_args`. */
  lemma RunRest(rest: seq<string>, env: Env, sentinel: Value, start: CacheKey)
    requires |rest| <= 1 && forall n :: n in rest ==> n in env && env[n].Arr?
    ensures AllFit(KindStatements(Rest, rest), env)
    ensures Run(KindStatements(Rest, rest), env, sentinel, start) ==
      start.(args := start.args + RestValues(env, rest))
  {
    if rest != [] {
      assert rest[0] in rest;
      assert KindStatements(Rest, rest)[..0] == [];
    }
  }

  /** The keyword rest parameter, if any, merges its hash into `all_kwargs`. */
  lemma RunKeyRest(keyrest: seq<string>, env: Env, sentinel: Value, start: CacheKey)
    requires |keyrest| <= 1 && forall n :: n in keyrest ==> n in env && env[n].Hash?
    ensures AllFit(KindStatements(KeyRest, keyrest), env)
    ensures Run(KindStatements(KeyRest, keyrest), env, sentinel, start) ==
      start.(kwargs := start.kwargs + RestEntries(env, keyrest))
  {
    if keyrest != [] {
      assert keyrest[0] in keyrest;
      assert KindStatements(KeyRest, keyrest)[..0] == [];
    }
  }

  /** Parameters whose values `env` holds, with an array for the rest
      parameter and a hash for the keyword rest parameter. */
  predicate BoundAll(p: Parameters, env: Env) {
    BoundIn(p.req, env) && BoundIn(p.opt, env) && BoundIn(p.keyreq, env) && BoundIn(p.key, env) &&
    (forall n :: n in p.rest ==> n in env && env[n].Arr?) &&
    (forall n :: n in p.keyrest ==> n in env && env[n].Hash?)
  }

  /** The lines that build `all_args`. */
  function PositionalStatements(p: Parameters): seq<Stmt> {
    KindStatements(Req, p.req) + KindStatements(Opt, p.opt) + KindStatements(Rest, p.rest)
  }

  /** The lines that build `all_kwargs`. */
  function KeywordStatements(p: Parameters): seq<Stmt> {
    KindStatements(KeyReq, p.keyreq) + KindStatements(Key, p.key) + KindStatements(KeyRest, p.keyrest)
  }

  lemma StatementsByKind(p: Parameters)
    ensures Statements(p) == PositionalStatements(p) + KeywordStatements(p)
  {
  }

  lemma PositionalParts(p: Parameters, env: Env, sentinel: Value)
    requires BoundAll(p, env) && |p.rest| <= 1
    ensures AllFit(PositionalStatements(p), env)
    ensures Run(PositionalStatements(p), env, sentinel, EMPTY_KEY) ==
      CacheKey(ValuesOf(env, p.req) + SuppliedValues(env, p.opt, sentinel) + RestValues(env, p.rest), map[])
  {
    var a := KindStatements(Req, p.req);
    var b := KindStatements(Opt, p.opt);
    var c := KindStatements(Rest, p.rest);
    var req := ValuesOf(env, p.req);
    var opt := SuppliedValues(env, p.opt, sentinel);
    RunRequired(p.req, env, sentinel, EMPTY_KEY);
    var k1 := Run(a, env, sentinel, EMPTY_KEY);
    assert k1 == CacheKey(req, map[]);
    RunOptional(p.opt, env, sentinel, k1);
    RunAppend(a, b, env, sentinel, EMPTY_KEY);
    var k2 := Run(a + b, env, sentinel, EMPTY_KEY);
    assert k2 == CacheKey(req + opt, map[]);
    RunRest(p.rest, env, sentinel, k2);
    RunAppend(a + b, c, env, sentinel, EMPTY_KEY);
  }

  lemma KeywordStoreParts(p: Parameters, env: Env, sentinel: Value, args: seq<Value>)
    requires BoundIn(p.keyreq, env) && BoundIn(p.key, env)
    ensures var sts := KindStatements(KeyReq, p.keyreq) + KindStatements(Key, p.key);
      AllFit(sts, env) &&
      var key := Run(sts, env, sentinel, CacheKey(args, map[]));
      key.args == args &&
      (forall n :: n in key.kwargs <==> n in p.keyreq || (n in p.key && env[n] != sentinel)) &&
      (forall n :: n in key.kwargs ==> key.kwargs[n] == env[n])
  {
    var start := CacheKey(args, map[]);
    var d := KindStatements(KeyReq, p.keyreq);
    var e := KindStatements(Key, p.key);
    RunKeywords(KeyReq, p.keyreq, env, sentinel, start);
    RunKeywords(Key, p.key, env, sentinel, Run(d, env, sentinel, start));
    RunAppend(d, e, env, sentinel, start);
  }

  lemma KeywordParts(p: Parameters, env: Env, sentinel: Value, args: seq<Value>)
    requires BoundAll(p, env) && |p.keyrest| <= 1
    ensures AllFit(KeywordStatements(p), env)
    ensures var key := Run(KeywordStatements(p), env, sentinel, CacheKey(args, map[]));
      var merged := RestEntries(env, p.keyrest);
      key.args == args &&
      (forall n :: n in key.kwargs <==>
        n in p.keyreq || (n in p.key && env[n] != sentinel) || n in merged) &&
      (forall n :: n in key.kwargs ==> key.kwargs[n] == if n in merged then merged[n] else env[n])
  {
    var start := CacheKey(args, map[]);
    var de := KindStatements(KeyReq, p.keyreq) + KindStatements(Key, p.key);
    KeywordStoreParts(p, env, sentinel, args);
    RunKeyRest(p.keyrest, env, sentinel, Run(de, env, sentinel, start));
    RunAppend(de, KindStatements(KeyRest, p.keyrest), env, sentinel, start);
  }

  /** What the key code computes from the parameters' values: the required
      values, the optional values that are not the sentinel and the rest
      values, in that order; and an entry for every required keyword, for
      every optional keyword that is not the sentinel, and for every entry of
      the keyword rest hash, which wins on a clash as `merge!` comes last. */
  lemma KeyParts(p: Parameters, env: Env, sentinel: Value)
    requires BoundAll(p, env) && |p.rest| <= 1 && |p.keyrest| <= 1
    ensures AllFit(Statements(p), env)
    ensures var key := Run(Statements(p), env, sentinel, EMPTY_KEY);
      var merged := RestEntries(env, p.keyrest);
      key.args == ValuesOf(env, p.req) + SuppliedValues(env, p.opt, sentinel) + RestValues(env, p.rest) &&
      (forall n :: n in key.kwargs <==>
        n in p.keyreq || (n in p.key && env[n] != sentinel) || n in merged) &&
      (forall n :: n in key.kwargs ==> key.kwargs[n] == if n in merged then merged[n] else env[n])
  {
    StatementsByKind(p);
    PositionalParts(p, env, sentinel);
    KeywordParts(p, env, sentinel,
      ValuesOf(env, p.req) + SuppliedValues(env, p.opt, sentinel) + RestValues(env, p.rest));
    RunAppend(PositionalStatements(p), KeywordStatements(p), env, sentinel, EMPTY_KEY);
  }

  // ---------------------------------------------------------------------------
  // Binding a call to the signature
  // ---------------------------------------------------------------------------

  /** A call of the memoized method: its positional arguments and its keyword
      arguments by name. */
  datatype Call = Call(positional: seq<Value>, keywords: map<string, Value>)

  /** Whether Ruby accepts `call` for the signature `p`: enough positional
      arguments for the required parameters, no more than the parameters hold
      unless there is a rest parameter, every required keyword given, and no
      unknown keyword unless there is a keyword rest parameter. */
  predicate Accepts(p: Parameters, call: Call) {
    |call.positional| >= |p.req| &&
    (p.rest == [] ==> |call.positional| <= |p.req| + |p.opt|) &&
    (forall n :: n in p.keyreq ==> n in call.keywords) &&
    (p.keyrest == [] ==> forall n :: n in call.keywords ==> n in p.keyreq || n in p.key)
  }

  /** How many optional parameters receive an argument. */
  function OptionalCount(p: Parameters, call: Call): nat
    requires |call.positional| >= |p.req|
  {
    var extra := |call.positional| - |p.req|;
    if extra < |p.opt| then extra else |p.opt|
  }

  /** The keyword arguments no keyword parameter names. */
  function KeywordRest(p: Parameters, call: Call): map<string, Value> {
    map n | n in call.keywords && n !in p.keyreq && n !in p.key :: call.keywords[n]
  }

  /** `env` is what Ruby binds when `call` reaches the method whose signature
      is `p`: required parameters take the leading arguments, optional ones
      the next, in order, and the sentinel when none is left, the rest
      parameter an array of what remains; keyword parameters take their
      arguments, optional ones the sentinel when absent, and the keyword rest
      parameter a hash of the others. */
  predicate Binds(p: Parameters, call: Call, sentinel: Value, env: Env) {
    Accepts(p, call) &&
    var m := OptionalCount(p, call);
    (forall i :: 0 <= i < |p.req| ==> p.req[i] in env && env[p.req[i]] == call.positional[i]) &&
    (forall j :: 0 <= j < |p.opt| ==>
      p.opt[j] in env && env[p.opt[j]] == if j < m then call.positional[|p.req| + j] else sentinel) &&
    (forall n :: n in p.rest ==> n in env && env[n] == Arr(call.positional[|p.req| + m..])) &&
    (forall n :: n in p.keyreq ==> n in env && env[n] == call.keywords[n]) &&
    (forall n :: n in p.key ==>
      n in env && env[n] == if n in call.keywords then call.keywords[n] else sentinel) &&
    (forall n :: n in p.keyrest ==> n in env && env[n] == Hash(KeywordRest(p, call)))
  }

  /** No argument of the call is the sentinel object. */
  predicate AvoidsSentinel(call: Call, sentinel: Value) {
    (forall i :: 0 <= i < |call.positional| ==> call.positional[i] != sentinel) &&
    (forall n :: n in call.keywords ==> call.keywords[n] != sentinel)
  }

  /** Under `Binds`, every parameter is bound, the rest parameter to an array
      and the keyword rest parameter to a hash. */
  lemma BindsBoundAll(p: Parameters, call: Call, sentinel: Value, env: Env)
    requires Binds(p, call, sentinel, env)
    ensures BoundAll(p, env)
  {
    assert forall i :: 0 <= i < |p.keyreq| ==> p.keyreq[i] in p.keyreq;
    assert forall i :: 0 <= i < |p.key| ==> p.key[i] in p.key;
  }

  lemma BoundPositional(p: Parameters, call: Call, sentinel: Value, env: Env)
    requires Binds(p, call, sentinel, env) && AvoidsSentinel(call, sentinel)
    ensures BoundIn(p.req, env) && BoundIn(p.opt, env)
    ensures ValuesOf(env, p.req) == call.positional[..|p.req|]
    ensures SuppliedValues(env, p.opt, sentinel) == call.positional[|p.req|..][..OptionalCount(p, call)]
  {
    var pos := call.positional;
    var r := |p.req|;
    SuppliedPrefix(env, p.opt, sentinel, pos[r..], OptionalCount(p, call));
  }

  /** The three positional parts put together are the positional arguments. */
  lemma BoundRest(p: Parameters, call: Call, sentinel: Value, env: Env)
    requires Binds(p, call, sentinel, env) && |p.rest| <= 1 && AvoidsSentinel(call, sentinel)
    requires BoundAll(p, env)
    ensures ValuesOf(env, p.req) + SuppliedValues(env, p.opt, sentinel) + RestValues(env, p.rest) ==
      call.positional
  {
    var m := OptionalCount(p, call);
    BoundPositional(p, call, sentinel, env);
    if p.rest != [] {
      assert p.rest[0] in p.rest;
    }
    SplitThree(call.positional, |p.req|, m, RestValues(env, p.rest), p.rest == []);
  }

  lemma SplitThree(pos: seq<Value>, r: nat, m: nat, tail: seq<Value>, exact: bool)
    requires r + m <= |pos|
    requires exact ==> r + m == |pos| && tail == []
    requires !exact ==> tail == pos[r + m..]
    ensures pos[..r] + pos[r..][..m] + tail == pos
  {
    assert pos[..r] + pos[r..][..m] == pos[..r + m];
  }

  /** The positional half of the key is the positional arguments. */
  lemma PositionalKey(p: Parameters, call: Call, sentinel: Value, env: Env)
    requires Binds(p, call, sentinel, env) && |p.rest| <= 1 && AvoidsSentinel(call, sentinel)
    ensures AllFit(PositionalStatements(p), env)
    ensures Run(PositionalStatements(p), env, sentinel, EMPTY_KEY) == CacheKey(call.positional, map[])
  {
    BindsBoundAll(p, call, sentinel, env);
    PositionalParts(p, env, sentinel);
    BoundRest(p, call, sentinel, env);
  }

  /** The keyword half of the key is the keyword arguments. */
  lemma KeywordKey(p: Parameters, call: Call, sentinel: Value, env: Env, args: seq<Value>)
    requires Binds(p, call, sentinel, env) && |p.keyrest| <= 1 && AvoidsSentinel(call, sentinel)
    ensures AllFit(KeywordStatements(p), env)
    ensures Run(KeywordStatements(p), env, sentinel, CacheKey(args, map[])) == CacheKey(args, call.keywords)
  {
    BindsBoundAll(p, call, sentinel, env);
    KeywordParts(p, env, sentinel, args);
    var key := Run(KeywordStatements(p), env, sentinel, CacheKey(args, map[]));
    var merged := RestEntries(env, p.keyrest);
    assert merged == if p.keyrest == [] then map[] else KeywordRest(p, call) by {
      if p.keyrest != [] {
        assert p.keyrest[0] in p.keyrest;
      }
    }
    forall n
      ensures n in key.kwargs <==> n in call.keywords
      ensures n in key.kwargs ==> key.kwargs[n] == call.keywords[n]
    {
    }
  }

  /** The key `cache_key` builds for a call is the call's own arguments, as
      long as no argument is the sentinel object. */
  lemma CacheKeyIsCall(p: Parameters, call: Call, sentinel: Value, env: Env)
    requires Binds(p, call, sentinel, env) && |p.rest| <= 1 && |p.keyrest| <= 1
    requires AvoidsSentinel(call, sentinel)
    ensures AllFit(Statements(p), env)
    ensures Run(Statements(p), env, sentinel, EMPTY_KEY) == CacheKey(call.positional, call.keywords)
  {
    StatementsByKind(p);
    PositionalKey(p, call, sentinel, env);
    KeywordKey(p, call, sentinel, env, call.positional);
    RunAppend(PositionalStatements(p), KeywordStatements(p), env, sentinel, EMPTY_KEY);
  }

  /** The same for the parameters of any method `new` classifies. */
  lemma ClassifiedKeyIsCall(raw: seq<RawParam>, call: Call, sentinel: Value, env: Env)
    requires Classify(raw).Ok?
    requires Binds(Classify(raw).value, call, sentinel, env) && AvoidsSentinel(call, sentinel)
    ensures AllFit(Statements(Classify(raw).value), env)
    ensures Run(Statements(Classify(raw).value), env, sentinel, EMPTY_KEY) ==
      CacheKey(call.positional, call.keywords)
  {
    CacheKeyIsCall(Classify(raw).value, call, sentinel, env);
  }

  // ---------------------------------------------------------------------------
  // The sentinel
  // ---------------------------------------------------------------------------

  /** `UNIQUE` as written: the integer 42, which `equal?` finds identical to
      every other 42. */
  const UNIQUE_AS_WRITTEN: Value := Int(42)

  /** `UNIQUE` as intended: an object of its own that no caller holds. */
  const UNIQUE: Value := Unique

  /** The key of `def m(a, b = UNIQUE)`: `a`, then `b` unless it is the sentinel. */
  lemma PairRun(p: Parameters, env: Env, sentinel: Value)
    requires p == Parameters(["a"], ["b"], [], [], [], []) && "a" in env && "b" in env
    ensures AllFit(Statements(p), env)
    ensures Run(Statements(p), env, sentinel, EMPTY_KEY) ==
      CacheKey([env["a"]] + (if env["b"] == sentinel then [] else [env["b"]]), map[])
  {
    var sts := Statements(p);
    assert sts == [Push("a"), PushUnlessUnique("b")];
    assert sts[..1] == [Push("a")];
    assert sts[..1][..0] == [];
    var first := Run(sts[..1], env, sentinel, EMPTY_KEY);
    assert Run(sts[..1][..0], env, sentinel, EMPTY_KEY) == EMPTY_KEY;
    assert first == Exec(Push("a"), env, sentinel, EMPTY_KEY);
    assert [] + [env["a"]] == [env["a"]];
    assert Run(sts, env, sentinel, EMPTY_KEY) == Exec(PushUnlessUnique("b"), env, sentinel, first);
  }

  /** How Ruby binds one or two positional arguments to `def m(a, b = UNIQUE)`. */
  lemma PairBinds(call: Call, sentinel: Value, env: Env)
    requires call.keywords == map[] && 1 <= |call.positional| <= 2
    requires env == map["a" := call.positional[0], "b" := if |call.positional| == 2 then call.positional[1] else sentinel]
    ensures Binds(Parameters(["a"], ["b"], [], [], [], []), call, sentinel, env)
  {
  }

  /** With the sentinel as written, passing 42 for an optional parameter
      builds the same key as leaving it out. */
  lemma SentinelCollision()
    ensures var p := Parameters(["a"], ["b"], [], [], [], []);
      var omitted := Call([Int(1)], map[]);
      var explicit := Call([Int(1), Int(42)], map[]);
      var env := map["a" := Int(1), "b" := Int(42)];
      omitted != explicit &&
      Binds(p, omitted, UNIQUE_AS_WRITTEN, env) && Binds(p, explicit, UNIQUE_AS_WRITTEN, env) &&
      AllFit(Statements(p), env) &&
      Run(Statements(p), env, UNIQUE_AS_WRITTEN, EMPTY_KEY) == CacheKey([Int(1)], map[])
  {
    var p := Parameters(["a"], ["b"], [], [], [], []);
    var env := map["a" := Int(1), "b" := Int(42)];
    PairBinds(Call([Int(1)], map[]), UNIQUE_AS_WRITTEN, env);
    PairBinds(Call([Int(1), Int(42)], map[]), UNIQUE_AS_WRITTEN, env);
    PairRun(p, env, UNIQUE_AS_WRITTEN);
  }

  /** With a sentinel no caller holds, two calls get the same key exactly when
      they pass the same arguments. */
  lemma DistinctCallsDistinctKeys(p: Parameters, c1: Call, c2: Call, env1: Env, env2: Env)
    requires |p.rest| <= 1 && |p.keyrest| <= 1
    requires Binds(p, c1, UNIQUE, env1) && Binds(p, c2, UNIQUE, env2)
    requires AvoidsSentinel(c1, UNIQUE) && AvoidsSentinel(c2, UNIQUE)
    ensures AllFit(Statements(p), env1) && AllFit(Statements(p), env2)
    ensures Run(Statements(p), env1, UNIQUE, EMPTY_KEY) == Run(Statements(p), env2, UNIQUE, EMPTY_KEY)
      <==> c1 == c2
  {
    CacheKeyIsCall(p, c1, UNIQUE, env1);
    CacheKeyIsCall(p, c2, UNIQUE, env2);
  }

  /** Leaving an optional argument out and passing its default explicitly are
      two different keys: the default is never consulted. */
  lemma OmittedDiffersFromExplicit()
    ensures var p := Parameters(["a"], ["b"], [], [], [], []);
      var omitted := Call([Int(5)], map[]);
      var explicit := Call([Int(5), Int(10)], map[]);
      var env1 := map["a" := Int(5), "b" := UNIQUE];
      var env2 := map["a" := Int(5), "b" := Int(10)];
      Binds(p, omitted, UNIQUE, env1) && Binds(p, explicit, UNIQUE, env2) &&
      AllFit(Statements(p), env1) && AllFit(Statements(p), env2) &&
      Run(Statements(p), env1, UNIQUE, EMPTY_KEY) == CacheKey([Int(5)], map[]) &&
      Run(Statements(p), env2, UNIQUE, EMPTY_KEY) == CacheKey([Int(5), Int(10)], map[])
  {
    var p := Parameters(["a"], ["b"], [], [], [], []);
    PairBinds(Call([Int(5)], map[]), UNIQUE, map["a" := Int(5), "b" := UNIQUE]);
    PairBinds(Call([Int(5), Int(10)], map[]), UNIQUE, map["a" := Int(5), "b" := Int(10)]);
    PairRun(p, map["a" := Int(5), "b" := UNIQUE], UNIQUE);
    PairRun(p, map["a" := Int(5), "b" := Int(10)], UNIQUE);
  }
}
