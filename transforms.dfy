/**
  The `Transform` pipeline: the two count checks, the resolution of each
  declared output key, the packing of results under `virtual_pack` (and of a
  paginator's counters under the pagination pack), and the two entry points
  `response` and `quote`.

  The pipeline is specified by pure functions (`ToTransformSpec`,
  `ResponseSpec`, `QuoteSpec`, ...); the class `Transform` performs the same
  steps on its `transform` container and is proved to agree with them.
 */
module Transforms {
  import opened Wrappers
  import opened PhpArrays
  import opened DotPath
  import opened Containers

  /* ---------------- declarations, configuration, errors ---------------- */

  /** Where a resolved resource is written: `false` (the whole `virtual_pack`) or a dot path below it. */
  datatype Target = Root | Named(name: string)

  /** One entry of `methodOutputKey()`: `resource name => output key`, or a bare output key under an integer index. */
  datatype Decl = Decl(key: Key, value: Target)

  /** The values read from the `api-transform` configuration. */
  datatype Config = Config(
    pack: string,
    additional: seq<Entry>,
    paginationPack: string,
    currentPageName: string,
    lastPageName: string,
    perPageName: string,
    totalName: string)

  /**
    What a concrete transform subclass defines: its `methodOutputKey()`
    declarations, its `__<name>` handler methods keyed by name, and
    `$withPaginationOutput`.
   */
  datatype Definition = Definition(
    declarations: seq<Decl>,
    handlers: map<string, Value -> Value>,
    withPaginationOutput: bool)

  /** The exceptions the pipeline raises; `UndefinedHandler` is PHP's call to an undefined `__<name>` method. */
  datatype Error =
    | OnlyOneFalseKey(falseKeys: nat)
    | OnlyOnePaginatorData(paginators: nat)
    | NotFoundSpecifiedResource
    | UndefinedHandler(name: string)

  /** The output array as it stands, and the exception that stopped the pipeline, if any. */
  datatype Outcome = Outcome(state: seq<Entry>, error: Option<Error>)

  const VirtualPack: string := "virtual_pack"

  /** The key `virtual_pack` is stored under. */
  const VKey: Key := StrKey(VirtualPack)

  /** The configuration arrays are PHP arrays. */
  predicate ValidConfig(c: Config) {
    UniqueKeys(c.additional)
  }

  lemma VirtualPackPath()
    ensures KeyOf(VirtualPack) == VKey
    ensures PathKeys(VirtualPack) == [VKey]
  {
    assert !IsDigit(VirtualPack[0]) && VirtualPack[0] != '-';
    assert VirtualPack[0] == 'v';
    assert '.' !in VirtualPack by {
      forall i | 0 <= i < |VirtualPack| ensures VirtualPack[i] != '.' {
      }
    }
    PathKeysSingle(VirtualPack);
  }

  /* ---------------- when ---------------- */

  /**
    `when($bool, $action)`: the remover when the condition is false,
    otherwise the action's result, computed at once.
   */
  function When(b: bool, action: () -> Value): (r: Value)
    ensures !b ==> r.Remover?
    ensures b ==> r == action()
  {
    if !b then Remover else action()
  }

  /**
    A handler result holding `when($b, $action)` under key `k`: after the
    closures are resolved, the key is gone when `b` is false, and otherwise
    holds the action's result.
   */
  lemma WhenResolved(es: seq<Entry>, k: Key, b: bool, action: () -> Value)
    requires UniqueKeys(es) && !action().Remover?
    ensures Lookup(ExecClosures(Arr(Put(es, k, When(b, action)))).entries, k) == if b then Some(action()) else None
  {
    PutUniqueKeys(es, k, When(b, action));
    PutSame(es, k, When(b, action));
    WithoutRemoversLookup(Put(es, k, When(b, action)), k);
  }

  /** Resolving closures leaves every other key of a handler result alone. */
  lemma WhenOthers(es: seq<Entry>, k: Key, b: bool, action: () -> Value, k': Key)
    requires UniqueKeys(es) && k' != k
    ensures Lookup(ExecClosures(Arr(Put(es, k, When(b, action)))).entries, k') == Lookup(ExecClosures(Arr(es)).entries, k')
  {
    PutUniqueKeys(es, k, When(b, action));
    PutOther(es, k, When(b, action), k');
    WithoutRemoversLookup(Put(es, k, When(b, action)), k');
    WithoutRemoversLookup(es, k');
  }

  /* ---------------- the count checks ---------------- */

  /**
    Whether a declared output key is counted as `false`: the count goes
    through `array_intersect`, which compares string forms, and both
    `false` and `''` print as the empty string.
   */
  predicate IsFalseLike(t: Target) {
    t.Root? || t.name == ""
  }

  /** Two false-like declarations in `decls` are the head and one in the tail, or two in the tail. */
  lemma FalseLikePairs(decls: seq<Decl>)
    requires decls != []
    ensures (exists i, j :: 0 <= i < j < |decls| && IsFalseLike(decls[i].value) && IsFalseLike(decls[j].value)) <==>
      (IsFalseLike(decls[0].value) && exists j :: 0 <= j < |decls[1..]| && IsFalseLike(decls[1..][j].value)) ||
      (exists i, j :: 0 <= i < j < |decls[1..]| && IsFalseLike(decls[1..][i].value) && IsFalseLike(decls[1..][j].value))
  {
    var t := decls[1..];
    if exists i, j :: 0 <= i < j < |decls| && IsFalseLike(decls[i].value) && IsFalseLike(decls[j].value) {
      var i, j :| 0 <= i < j < |decls| && IsFalseLike(decls[i].value) && IsFalseLike(decls[j].value);
      assert t[j - 1] == decls[j];
      if i > 0 {
        assert t[i - 1] == decls[i];
      }
    }
    if exists j :: 0 <= j < |t| && IsFalseLike(t[j].value) {
      var j :| 0 <= j < |t| && IsFalseLike(t[j].value);
      assert decls[j + 1] == t[j];
    }
    if exists i, j :: 0 <= i < j < |t| && IsFalseLike(t[i].value) && IsFalseLike(t[j].value) {
      var i, j :| 0 <= i < j < |t| && IsFalseLike(t[i].value) && IsFalseLike(t[j].value);
      assert decls[i + 1] == t[i] && decls[j + 1] == t[j];
    }
  }

  /**
    `collect($this->methodOutputKey())->intersect([false])->count()`: above
    one exactly when two declarations are false-like.
   */
  function FalseKeyCount(decls: seq<Decl>): (n: nat)
    ensures n <= |decls|
    ensures n == 0 <==> forall i :: 0 <= i < |decls| ==> !IsFalseLike(decls[i].value)
    ensures n > 1 <==> exists i, j :: 0 <= i < j < |decls| && IsFalseLike(decls[i].value) && IsFalseLike(decls[j].value)
    decreases |decls|
  {
    if decls == [] then 0
    else
      FalseLikePairs(decls);
      (if IsFalseLike(decls[0].value) then 1 else 0) + FalseKeyCount(decls[1..])
  }

  /** Two paginators among `vs` are the head and one in the tail, or two in the tail. */
  lemma PaginatorPairs(vs: seq<Value>)
    requires vs != []
    ensures (exists i, j :: 0 <= i < j < |vs| && vs[i].Paginator? && vs[j].Paginator?) <==>
      (vs[0].Paginator? && exists j :: 0 <= j < |vs[1..]| && vs[1..][j].Paginator?) ||
      (exists i, j :: 0 <= i < j < |vs[1..]| && vs[1..][i].Paginator? && vs[1..][j].Paginator?)
  {
    var t := vs[1..];
    if exists i, j :: 0 <= i < j < |vs| && vs[i].Paginator? && vs[j].Paginator? {
      var i, j :| 0 <= i < j < |vs| && vs[i].Paginator? && vs[j].Paginator?;
      assert t[j - 1] == vs[j];
      if i > 0 {
        assert t[i - 1] == vs[i];
      }
    }
    if exists j :: 0 <= j < |t| && t[j].Paginator? {
      var j :| 0 <= j < |t| && t[j].Paginator?;
      assert vs[j + 1] == t[j];
    }
    if exists i, j :: 0 <= i < j < |t| && t[i].Paginator? && t[j].Paginator? {
      var i, j :| 0 <= i < j < |t| && t[i].Paginator? && t[j].Paginator?;
      assert vs[i + 1] == t[i] && vs[j + 1] == t[j];
    }
  }

  /** The number of paginators among some values: above one exactly when two are paginators. */
  function CountPaginators(vs: seq<Value>): (n: nat)
    ensures n <= |vs|
    ensures n == 0 <==> forall i :: 0 <= i < |vs| ==> !vs[i].Paginator?
    ensures n > 1 <==> exists i, j :: 0 <= i < j < |vs| && vs[i].Paginator? && vs[j].Paginator?
    decreases |vs|
  {
    if vs == [] then 0
    else
      PaginatorPairs(vs);
      (if vs[0].Paginator? then 1 else 0) + CountPaginators(vs[1..])
  }

  function ValuesOf(es: seq<Entry>): (vs: seq<Value>)
    ensures |vs| == |es| && forall i :: 0 <= i < |es| ==> vs[i] == es[i].val
  {
    seq(|es|, i requires 0 <= i < |es| => es[i].val)
  }

  /**
    `collect($this->resources->get())->filter(instanceof AbstractPaginator)->count()`:
    the paginators among the values of an array or the items of a Collection.
   */
  function PaginatorCount(input: Value): (n: nat)
    ensures !input.Arr? && !input.Collection? ==> n == 0
    ensures input.Arr? ==> (n > 1 <==> exists i, j :: 0 <= i < j < |input.entries| && input.entries[i].val.Paginator? && input.entries[j].val.Paginator?)
    ensures input.Collection? ==> (n > 1 <==> exists i, j :: 0 <= i < j < |input.items| && input.items[i].Paginator? && input.items[j].Paginator?)
  {
    match input
    case Arr(es) => CountPaginators(ValuesOf(es))
    case Collection(items) => CountPaginators(items)
    case _ => 0
  }

  /* ---------------- resolution of one declaration ---------------- */

  /**
    The name a declaration is resolved by, for both the input lookup and the
    handler: the key of an associative entry, the value of an integer-indexed
    one (`false` used as a string is `''`).
   */
  function MethodName(d: Decl): (name: string)
    ensures d.key.StrKey? && !IsCanonicalInt(d.key.s) ==> KeyOf(name) == d.key
    ensures d.key.IntKey? && d.value.Named? ==> name == d.value.name
  {
    if d.key.IntKey? then (if d.value.Root? then "" else d.value.name) else d.key.s
  }

  /** `getResourcesByKey($methodName)`: the input entry the declaration reads. */
  function InputOf(input: Value, d: Decl): (r: Option<Value>)
    ensures input.Arr? ==> (r.Some? <==> HasKey(input.entries, KeyOf(MethodName(d))))
    ensures input.Arr? && r.Some? ==> Entry(KeyOf(MethodName(d)), r.value) in input.entries
    ensures !input.Arr? && !input.Collection? && !input.Paginator? ==> r.None?
  {
    if input.Arr? then
      LookupHasKey(input.entries, KeyOf(MethodName(d)));
      Offset(input, KeyOf(MethodName(d)))
    else Offset(input, KeyOf(MethodName(d)))
  }

  /**
    The callback `mapUnit` applies for the handler `name`: the handler's
    result with its closures resolved by `mapExecClosure`. A name without a
    handler is never called with it unless the error below is raised.
   */
  function Callback(d: Definition, name: string): (f: Value -> Value)
    ensures name in d.handlers ==> forall x :: NoRemovers(f(x))
    ensures name in d.handlers ==> forall x :: ExecClosures(f(x)) == f(x)
  {
    ExecClosuresClean();
    if name in d.handlers then (x => ExecClosures(d.handlers[name](x))) else (x => x)
  }

  /**
    The `$data` the declaration produces, or the exception raised on the way:
    a missing input, or a handler that is missing and would be called.
   */
  function Resolve(d: Definition, input: Value, decl: Decl): (r: Result<Value, Error>)
    ensures r == Failure(NotFoundSpecifiedResource) <==> InputOf(input, decl).None?
    ensures r.Success? <==>
      InputOf(input, decl).Some? && (MethodName(decl) in d.handlers || CallCount(InputOf(input, decl).value) == 0)
    ensures r.Failure? ==> r.error in {NotFoundSpecifiedResource, UndefinedHandler(MethodName(decl))}
  {
    match InputOf(input, decl)
    case None => Failure(NotFoundSpecifiedResource)
    case Some(res) =>
      var name := MethodName(decl);
      if name !in d.handlers && CallCount(res) > 0 then Failure(UndefinedHandler(name))
      else Success(MapUnit(res, Callback(d, name)))
  }

  /* ---------------- packing ---------------- */

  /** The dot path `packOutputKey` writes under. */
  function DataPath(t: Target): string {
    match t
    case Root => VirtualPack
    case Named(k) => VirtualPack + "." + k
  }

  /** The dot path of a paginator's counter block. */
  function PaginationPath(c: Config, t: Target): string {
    match t
    case Root => c.paginationPack
    case Named(k) => c.paginationPack + "." + k
  }

  /** The top-level key the counter blocks live under. */
  function PaginationHead(c: Config): Key {
    PathKeys(c.paginationPack)[0]
  }

  /** `packOutputKey($key, $data)`: replace `virtual_pack` for `false`, else write at `virtual_pack.<key>`. */
  function PackOutput(t: seq<Entry>, target: Target, data: Value): seq<Entry> {
    match target
    case Root => Put(t, VKey, data)
    case Named(k) => SetPath(t, PathKeys(VirtualPack + "." + k), data)
  }

  /** The four-field array literal holding a paginator's counters under the configured names. */
  function PaginationBlock(c: Config, p: Value): (b: seq<Entry>)
    requires p.Paginator?
    ensures UniqueKeys(b)
    ensures Lookup(b, KeyOf(c.totalName)) == Some(Int(p.total))
    ensures forall e :: e in b ==>
      e.key in [KeyOf(c.currentPageName), KeyOf(c.lastPageName), KeyOf(c.perPageName), KeyOf(c.totalName)] &&
      e.val in [Int(p.currentPage), Int(p.lastPage), Int(p.perPage), Int(p.total)]
  {
    var b0 := Put([], KeyOf(c.currentPageName), Int(p.currentPage));
    var b1 := Put(b0, KeyOf(c.lastPageName), Int(p.lastPage));
    var b2 := Put(b1, KeyOf(c.perPageName), Int(p.perPage));
    PutUniqueKeys([], KeyOf(c.currentPageName), Int(p.currentPage));
    PutUniqueKeys(b0, KeyOf(c.lastPageName), Int(p.lastPage));
    PutUniqueKeys(b1, KeyOf(c.perPageName), Int(p.perPage));
    PutUniqueKeys(b2, KeyOf(c.totalName), Int(p.total));
    PutMembers([], KeyOf(c.currentPageName), Int(p.currentPage));
    PutMembers(b0, KeyOf(c.lastPageName), Int(p.lastPage));
    PutMembers(b1, KeyOf(c.perPageName), Int(p.perPage));
    PutMembers(b2, KeyOf(c.totalName), Int(p.total));
    PutSame(b2, KeyOf(c.totalName), Int(p.total));
    Put(b2, KeyOf(c.totalName), Int(p.total))
  }

  /** `packOutputKeyWithPagination($key, $data, $paginator)`: the data, then the counter block. */
  function PackWithPagination(c: Config, t: seq<Entry>, target: Target, data: Value, p: Value): seq<Entry>
    requires p.Paginator?
  {
    var t' := SetPath(t, PathKeys(DataPath(target)), data);
    SetPath(t', PathKeys(PaginationPath(c, target)), Arr(PaginationBlock(c, p)))
  }

  /**
    The write `toTransform`'s callback makes for a resolved resource: the data
    can be read back at its path (unless the counters are written over it),
    and a paginator's counters at theirs.
   */
  function Pack(c: Config, d: Definition, t: seq<Entry>, target: Target, res: Value, data: Value): (r: seq<Entry>)
    ensures !(d.withPaginationOutput && res.Paginator? && PaginationHead(c) == VKey) ==>
      GetPath(r, PathKeys(DataPath(target))) == Some(data)
    ensures d.withPaginationOutput && res.Paginator? ==>
      GetPath(r, PathKeys(PaginationPath(c, target))) == Some(Arr(PaginationBlock(c, res)))
    ensures !(d.withPaginationOutput && res.Paginator?) ==>
      KeysOf(r) == if HasKey(t, VKey) then KeysOf(t) else KeysOf(t) + [VKey]
  {
    if d.withPaginationOutput && res.Paginator? then
      PackWithPaginationPlacement(c, t, target, data, res, VKey);
      PackWithPagination(c, t, target, data, res)
    else
      PackOutputByPath(t, target, data);
      SetPathThenGet(t, PathKeys(DataPath(target)), data);
      DataPathKeys(target);
      SetPathKeys(t, PathKeys(DataPath(target)), data);
      PackOutput(t, target, data)
  }

  /* ---------------- the pipeline ---------------- */

  /** One turn of `eachResource`: resolve the declaration and pack its data. */
  function Step(c: Config, d: Definition, input: Value, t: seq<Entry>, decl: Decl): Result<seq<Entry>, Error> {
    match Resolve(d, input, decl)
    case Failure(e) => Failure(e)
    case Success(data) => Success(Pack(c, d, t, decl.value, InputOf(input, decl).value, data))
  }

  /** Declaration `i` is the first that does not resolve, and it raises `e`. */
  predicate FailsFirstAt(d: Definition, input: Value, decls: seq<Decl>, i: int, e: Error) {
    && 0 <= i < |decls|
    && Resolve(d, input, decls[i]) == Failure(e)
    && forall j :: 0 <= j < i ==> Resolve(d, input, decls[j]).Success?
  }

  /**
    `eachResource` over the declarations `decls`, in order, stopping at the
    first exception: when it raises, the exception is that of the first
    declaration that does not resolve; otherwise every declaration resolved.
   */
  function Run(c: Config, d: Definition, input: Value, t: seq<Entry>, decls: seq<Decl>): (o: Outcome)
    ensures o.error.None? ==> forall i :: 0 <= i < |decls| ==> Resolve(d, input, decls[i]).Success?
    ensures o.error.Some? ==> exists i :: FailsFirstAt(d, input, decls, i, o.error.value)
    decreases |decls|
  {
    if decls == [] then Outcome(t, None)
    else
      match Step(c, d, input, t, decls[0])
      case Failure(e) =>
        assert FailsFirstAt(d, input, decls, 0, e);
        Outcome(t, Some(e))
      case Success(t') =>
        RunTail(d, input, decls);
        Run(c, d, input, t', decls[1..])
  }

  /** When the head resolves, what holds of the tail's declarations holds of the whole list's, one place on. */
  lemma RunTail(d: Definition, input: Value, decls: seq<Decl>)
    requires decls != [] && Resolve(d, input, decls[0]).Success?
    ensures (forall i :: 0 <= i < |decls[1..]| ==> Resolve(d, input, decls[1..][i]).Success?) ==>
      forall i :: 0 <= i < |decls| ==> Resolve(d, input, decls[i]).Success?
    ensures forall i, e :: FailsFirstAt(d, input, decls[1..], i, e) ==> FailsFirstAt(d, input, decls, i + 1, e)
  {
    var t := decls[1..];
    if forall i :: 0 <= i < |t| ==> Resolve(d, input, t[i]).Success? {
      forall i | 0 <= i < |decls| ensures Resolve(d, input, decls[i]).Success? {
        if i > 0 { assert decls[i] == t[i - 1]; }
      }
    }
    forall i, e | FailsFirstAt(d, input, t, i, e) ensures FailsFirstAt(d, input, decls, i + 1, e) {
      assert decls[i + 1] == t[i];
      forall j | 0 <= j < i + 1 ensures Resolve(d, input, decls[j]).Success? {
        if j > 0 { assert decls[j] == t[j - 1]; }
      }
    }
  }

  /**
    `toTransform()`: the two checks, then `eachResource`. It succeeds exactly
    when both checks pass and every declaration resolves, and it writes only
    once both checks pass.
   */
  function ToTransformSpec(c: Config, d: Definition, input: Value, t: seq<Entry>): (o: Outcome)
    ensures o.error.None? ==> FalseKeyCount(d.declarations) <= 1 && PaginatorCount(input) <= 1
    ensures o.error.None? ==> forall i :: 0 <= i < |d.declarations| ==> Resolve(d, input, d.declarations[i]).Success?
    ensures o.state != t ==> FalseKeyCount(d.declarations) <= 1 && PaginatorCount(input) <= 1
    ensures o.error.Some? && !o.error.value.OnlyOneFalseKey? && !o.error.value.OnlyOnePaginatorData? ==>
      exists i :: FailsFirstAt(d, input, d.declarations, i, o.error.value)
    ensures FalseKeyCount(d.declarations) <= 1 && PaginatorCount(input) <= 1 && o.error.Some? ==>
      exists i :: FailsFirstAt(d, input, d.declarations, i, o.error.value)
    ensures (&& FalseKeyCount(d.declarations) <= 1 && PaginatorCount(input) <= 1
             && forall i :: 0 <= i < |d.declarations| ==> Resolve(d, input, d.declarations[i]).Success?)
      ==> o.error.None?
  {
    var falseKeys := FalseKeyCount(d.declarations);
    var paginators := PaginatorCount(input);
    if falseKeys > 1 then Outcome(t, Some(OnlyOneFalseKey(falseKeys)))
    else if paginators > 1 then Outcome(t, Some(OnlyOnePaginatorData(paginators)))
    else Run(c, d, input, t, d.declarations)
  }

  /** `packData()`: `virtual_pack` is renamed to the configured pack. */
  function PackDataSpec(t: seq<Entry>, pack: string): seq<Entry> {
    Remove(Put(t, KeyOf(pack), LookupOrNull(t, VKey)), VKey)
  }

  /** `response($resources)`, up to the JSON encoding: the output array, or the exception. */
  function ResponseSpec(c: Config, d: Definition, input: Value): Result<seq<Entry>, Error> {
    var o := ToTransformSpec(c, d, input, ArrayMerge([], c.additional));
    if o.error.Some? then Failure(o.error.value) else Success(PackDataSpec(o.state, c.pack))
  }

  /** `quote($resources)`: the `virtual_pack` subtree, or the exception. */
  function QuoteSpec(c: Config, d: Definition, input: Value): Result<Value, Error> {
    var o := ToTransformSpec(c, d, input, []);
    if o.error.Some? then Failure(o.error.value) else Success(LookupOrNull(o.state, VKey))
  }

  /* ---------------- properties: checks and resolution ---------------- */

  /** More than one `false` key fails before anything is written, whatever the input holds. */
  lemma FalseKeyCheckFirst(c: Config, d: Definition, input: Value, t: seq<Entry>)
    requires FalseKeyCount(d.declarations) > 1
    ensures ToTransformSpec(c, d, input, t) == Outcome(t, Some(OnlyOneFalseKey(FalseKeyCount(d.declarations))))
  {
  }

  /** With at most one `false` key, more than one paginator fails before anything is written. */
  lemma PaginatorCheckSecond(c: Config, d: Definition, input: Value, t: seq<Entry>)
    requires FalseKeyCount(d.declarations) <= 1 && PaginatorCount(input) > 1
    ensures ToTransformSpec(c, d, input, t) == Outcome(t, Some(OnlyOnePaginatorData(PaginatorCount(input))))
  {
  }

  /** The pipeline writes only once both checks pass. */
  lemma ChecksGuardWrites(c: Config, d: Definition, input: Value, t: seq<Entry>)
    requires ToTransformSpec(c, d, input, t).state != t
    ensures FalseKeyCount(d.declarations) <= 1 && PaginatorCount(input) <= 1
  {
  }

  /** A bare output key under an integer index behaves as `key => key`. */
  lemma IndexedDeclIsSelfNamed(c: Config, d: Definition, input: Value, t: seq<Entry>, i: int, name: string)
    ensures Step(c, d, input, t, Decl(IntKey(i), Named(name))) == Step(c, d, input, t, Decl(StrKey(name), Named(name)))
  {
  }

  /** Running a concatenation of declarations is running the first part, then the second from where it stopped. */
  lemma {:induction false} RunConcat(c: Config, d: Definition, input: Value, t: seq<Entry>, a: seq<Decl>, b: seq<Decl>)
    ensures Run(c, d, input, t, a + b) ==
      var o := Run(c, d, input, t, a);
      if o.error.Some? then o else Run(c, d, input, o.state, b)
    decreases |a|
  {
    if |a| > 0 {
      assert (a + b)[0] == a[0] && (a + b)[1..] == a[1..] + b;
      match Step(c, d, input, t, a[0])
      case Failure(e) =>
      case Success(t') =>
        calc {
          Run(c, d, input, t, a + b);
          Run(c, d, input, t', a[1..] + b);
          { RunConcat(c, d, input, t', a[1..], b); }
          var o := Run(c, d, input, t', a[1..]);
          if o.error.Some? then o else Run(c, d, input, o.state, b);
        }
    } else {
      assert a + b == b;
    }
  }

  /**
    A declaration whose input entry is missing fails only when it is reached:
    the declarations before it have been packed into the output already.
   */
  lemma NotFoundIsLazy(c: Config, d: Definition, input: Value, t: seq<Entry>, a: seq<Decl>, decl: Decl, b: seq<Decl>)
    requires Run(c, d, input, t, a).error.None? && InputOf(input, decl).None?
    ensures Run(c, d, input, t, a + [decl] + b) == Outcome(Run(c, d, input, t, a).state, Some(NotFoundSpecifiedResource))
  {
    RunNotFoundHead(c, d, input, Run(c, d, input, t, a).state, decl, b);
    RunConcat(c, d, input, t, a, [decl] + b);
    assert a + [decl] + b == a + ([decl] + b);
  }

  /** A walk that starts at a declaration whose input is missing stops there with nothing written. */
  lemma RunNotFoundHead(c: Config, d: Definition, input: Value, s: seq<Entry>, decl: Decl, b: seq<Decl>)
    requires InputOf(input, decl).None?
    ensures Run(c, d, input, s, [decl] + b) == Outcome(s, Some(NotFoundSpecifiedResource))
  {
    var rest := [decl] + b;
    assert rest[0] == decl;
    assert Step(c, d, input, s, decl) == Failure(NotFoundSpecifiedResource);
  }

  /** The data a resolved declaration produces, for list-shaped and single inputs. */
  lemma ResolveShape(d: Definition, input: Value, decl: Decl)
    requires InputOf(input, decl).Some? && MethodName(decl) in d.handlers
    ensures Resolve(d, input, decl).Success?
    ensures var res := InputOf(input, decl).value;
      var h := d.handlers[MethodName(decl)];
      var data := Resolve(d, input, decl).value;
      && (IsListShaped(res) ==>
        && data.Arr? && IsNumericList(data.entries) && |data.entries| == |ListItems(res)|
        && forall i :: 0 <= i < |data.entries| ==> data.entries[i].val == ExecClosures(h(ListItems(res)[i])))
      && (!IsListShaped(res) ==> data == ExecClosures(h(res)))
  {
  }

  /** A handler that is missing is an error only when it would be called. */
  lemma UndefinedHandlerOnlyWhenCalled(d: Definition, input: Value, decl: Decl)
    requires InputOf(input, decl).Some? && MethodName(decl) !in d.handlers
    ensures Resolve(d, input, decl).Failure? <==> CallCount(InputOf(input, decl).value) > 0
  {
  }

  /* ---------------- properties: packing ---------------- */

  lemma DataPathKeys(t: Target)
    ensures PathKeys(DataPath(t)) == [VKey] + (if t.Root? then [] else PathKeys(t.name))
  {
    VirtualPackPath();
    if t.Named? {
      PathKeysConcat(VirtualPack, t.name);
    }
  }

  lemma PaginationPathHead(c: Config, t: Target)
    ensures PathKeys(PaginationPath(c, t))[0] == PaginationHead(c)
  {
    if t.Named? {
      PathKeysConcat(c.paginationPack, t.name);
    }
  }

  /** `packOutputKey` is the dot-path write at `DataPath`. */
  lemma PackOutputByPath(t: seq<Entry>, target: Target, data: Value)
    ensures PackOutput(t, target, data) == SetPath(t, PathKeys(DataPath(target)), data)
  {
    DataPathKeys(target);
  }

  /** With `false`, `virtual_pack` is replaced wholesale; nothing else changes. */
  lemma PackOutputRoot(t: seq<Entry>, data: Value, k: Key)
    ensures Lookup(PackOutput(t, Root, data), VKey) == Some(data)
    ensures k != VKey ==> Lookup(PackOutput(t, Root, data), k) == Lookup(t, k)
  {
    PutSame(t, VKey, data);
    if k != VKey { PutOther(t, VKey, data, k); }
  }

  /**
    With a named key, the data is found at `virtual_pack.<key>`; the other
    entries of `virtual_pack` and the other top-level keys are as before.
   */
  lemma PackOutputNamed(t: seq<Entry>, name: string, data: Value, sibling: Key, k: Key)
    ensures GetPath(PackOutput(t, Named(name), data), [VKey] + PathKeys(name)) == Some(data)
    ensures sibling != PathKeys(name)[0] ==>
      GetPath(PackOutput(t, Named(name), data), [VKey, sibling]) == Lookup(ChildEntries(Lookup(t, VKey)), sibling)
    ensures k != VKey ==> Lookup(PackOutput(t, Named(name), data), k) == Lookup(t, k)
  {
    var p := PathKeys(DataPath(Named(name)));
    DataPathKeys(Named(name));
    SetPathThenGet(t, p, data);
    if sibling != PathKeys(name)[0] {
      SetPathSiblings(t, p, data, 1, sibling);
      assert p[..1] + [sibling] == [VKey, sibling];
      assert GetPath(t, p[..1]) == Lookup(t, VKey);
    }
    if k != VKey { SetPathOther(t, p, data, k); }
  }

  /** The counter block names each counter; later names win when two coincide. */
  lemma PaginationBlockFields(c: Config, p: Value)
    requires p.Paginator?
    ensures Lookup(PaginationBlock(c, p), KeyOf(c.totalName)) == Some(Int(p.total))
    ensures KeyOf(c.perPageName) != KeyOf(c.totalName) ==>
      Lookup(PaginationBlock(c, p), KeyOf(c.perPageName)) == Some(Int(p.perPage))
    ensures KeyOf(c.lastPageName) !in {KeyOf(c.perPageName), KeyOf(c.totalName)} ==>
      Lookup(PaginationBlock(c, p), KeyOf(c.lastPageName)) == Some(Int(p.lastPage))
    ensures KeyOf(c.currentPageName) !in {KeyOf(c.lastPageName), KeyOf(c.perPageName), KeyOf(c.totalName)} ==>
      Lookup(PaginationBlock(c, p), KeyOf(c.currentPageName)) == Some(Int(p.currentPage))
  {
    var k0, k1, k2, k3 := KeyOf(c.currentPageName), KeyOf(c.lastPageName), KeyOf(c.perPageName), KeyOf(c.totalName);
    var b0 := Put([], k0, Int(p.currentPage));
    var b1 := Put(b0, k1, Int(p.lastPage));
    var b2 := Put(b1, k2, Int(p.perPage));
    PutSame(b2, k3, Int(p.total));
    PutSame(b1, k2, Int(p.perPage));
    PutSame(b0, k1, Int(p.lastPage));
    PutSame([], k0, Int(p.currentPage));
    if k2 != k3 { PutOther(b2, k3, Int(p.total), k2); }
    if k1 != k2 && k1 != k3 {
      PutOther(b1, k2, Int(p.perPage), k1);
      PutOther(b2, k3, Int(p.total), k1);
    }
    if k0 != k1 && k0 != k2 && k0 != k3 {
      PutOther(b0, k1, Int(p.lastPage), k0);
      PutOther(b1, k2, Int(p.perPage), k0);
      PutOther(b2, k3, Int(p.total), k0);
    }
  }

  /** With four distinct names, the block has exactly those four keys, in the order written. */
  lemma PaginationBlockKeys(c: Config, p: Value)
    requires p.Paginator?
    requires var k0, k1, k2, k3 := KeyOf(c.currentPageName), KeyOf(c.lastPageName), KeyOf(c.perPageName), KeyOf(c.totalName);
      k0 != k1 && k0 != k2 && k0 != k3 && k1 != k2 && k1 != k3 && k2 != k3
    ensures KeysOf(PaginationBlock(c, p)) == [KeyOf(c.currentPageName), KeyOf(c.lastPageName), KeyOf(c.perPageName), KeyOf(c.totalName)]
  {
    var k0, k1, k2, k3 := KeyOf(c.currentPageName), KeyOf(c.lastPageName), KeyOf(c.perPageName), KeyOf(c.totalName);
    var b0 := Put([], k0, Int(p.currentPage));
    var b1 := Put(b0, k1, Int(p.lastPage));
    var b2 := Put(b1, k2, Int(p.perPage));
    PutFresh([], k0, Int(p.currentPage), []);
    PutFresh(b0, k1, Int(p.lastPage), [k0]);
    PutFresh(b1, k2, Int(p.perPage), [k0, k1]);
    PutFresh(b2, k3, Int(p.total), [k0, k1, k2]);
  }

  lemma GetPathHead(es1: seq<Entry>, es2: seq<Entry>, p: seq<Key>)
    requires |p| >= 1 && Lookup(es1, p[0]) == Lookup(es2, p[0])
    ensures GetPath(es1, p) == GetPath(es2, p)
  {
  }

  /**
    A paginator's counter block is found at the pagination path, and other
    top-level keys than `virtual_pack` and the pagination key are untouched.
    When the pagination pack lies outside `virtual_pack`, the data is placed
    as `packOutputKey` would place it; inside, the counters are written into
    `virtual_pack` after the data.
   */
  lemma PackWithPaginationPlacement(c: Config, t: seq<Entry>, target: Target, data: Value, p: Value, k: Key)
    requires p.Paginator?
    ensures GetPath(PackWithPagination(c, t, target, data, p), PathKeys(PaginationPath(c, target))) == Some(Arr(PaginationBlock(c, p)))
    ensures PaginationHead(c) != VKey ==> GetPath(PackWithPagination(c, t, target, data, p), PathKeys(DataPath(target))) == Some(data)
    ensures PaginationHead(c) != VKey ==> Lookup(PackWithPagination(c, t, target, data, p), VKey) == Lookup(PackOutput(t, target, data), VKey)
    ensures k != VKey && k != PaginationHead(c) ==> Lookup(PackWithPagination(c, t, target, data, p), k) == Lookup(t, k)
  {
    var dp, pp := PathKeys(DataPath(target)), PathKeys(PaginationPath(c, target));
    var t' := SetPath(t, dp, data);
    DataPathKeys(target);
    PaginationPathHead(c, target);
    SetPathThenGet(t', pp, Arr(PaginationBlock(c, p)));
    if PaginationHead(c) != VKey {
      PackOutputByPath(t, target, data);
      SetPathThenGet(t, dp, data);
      SetPathOther(t', pp, Arr(PaginationBlock(c, p)), VKey);
      GetPathHead(SetPath(t', pp, Arr(PaginationBlock(c, p))), t', dp);
    }
    if k != VKey && k != PaginationHead(c) {
      SetPathOther(t, dp, data, k);
      SetPathOther(t', pp, Arr(PaginationBlock(c, p)), k);
    }
  }

  /** Packing touches only `virtual_pack` and the top-level pagination key. */
  lemma PackFrame(c: Config, d: Definition, t: seq<Entry>, target: Target, res: Value, data: Value, k: Key)
    requires k != VKey && k != PaginationHead(c)
    ensures Lookup(Pack(c, d, t, target, res, data), k) == Lookup(t, k)
  {
    if d.withPaginationOutput && res.Paginator? {
      PackWithPaginationPlacement(c, t, target, data, res, k);
    } else {
      PackOutputByPath(t, target, data);
      DataPathKeys(target);
      SetPathOther(t, PathKeys(DataPath(target)), data, k);
    }
  }

  /** The whole `eachResource` walk touches only `virtual_pack` and the top-level pagination key. */
  lemma {:induction false} RunFrame(c: Config, d: Definition, input: Value, t: seq<Entry>, decls: seq<Decl>, k: Key)
    requires k != VKey && k != PaginationHead(c)
    ensures Lookup(Run(c, d, input, t, decls).state, k) == Lookup(t, k)
    decreases |decls|
  {
    if |decls| > 0 {
      match Step(c, d, input, t, decls[0])
      case Failure(e) =>
      case Success(t') =>
        PackFrame(c, d, t, decls[0].value, InputOf(input, decls[0]).value, Resolve(d, input, decls[0]).value, k);
        RunFrame(c, d, input, t', decls[1..], k);
    }
  }

  /** What a packing step leaves under `virtual_pack` depends only on what was there. */
  lemma PackHeadOnly(c: Config, d: Definition, t1: seq<Entry>, t2: seq<Entry>, target: Target, res: Value, data: Value)
    requires Lookup(t1, VKey) == Lookup(t2, VKey)
    ensures Lookup(Pack(c, d, t1, target, res, data), VKey) == Lookup(Pack(c, d, t2, target, res, data), VKey)
  {
    var dp := PathKeys(DataPath(target));
    DataPathKeys(target);
    PackOutputByPath(t1, target, data);
    PackOutputByPath(t2, target, data);
    SetPathHeadOnly(t1, t2, dp, data);
    if d.withPaginationOutput && res.Paginator? {
      var pp, b := PathKeys(PaginationPath(c, target)), Arr(PaginationBlock(c, res));
      var s1, s2 := SetPath(t1, dp, data), SetPath(t2, dp, data);
      PaginationPathHead(c, target);
      if PaginationHead(c) == VKey {
        SetPathHeadOnly(s1, s2, pp, b);
      } else {
        SetPathOther(s1, pp, b, VKey);
        SetPathOther(s2, pp, b, VKey);
      }
    }
  }

  /**
    The pipeline's exception and the final `virtual_pack` depend only on
    what stood under `virtual_pack` at the start, not on the rest of the
    output array.
   */
  lemma {:induction false} RunHeadOnly(c: Config, d: Definition, input: Value, t1: seq<Entry>, t2: seq<Entry>, decls: seq<Decl>)
    requires Lookup(t1, VKey) == Lookup(t2, VKey)
    ensures Run(c, d, input, t1, decls).error == Run(c, d, input, t2, decls).error
    ensures Lookup(Run(c, d, input, t1, decls).state, VKey) == Lookup(Run(c, d, input, t2, decls).state, VKey)
    decreases |decls|
  {
    if |decls| > 0 {
      match Resolve(d, input, decls[0])
      case Failure(e) =>
      case Success(data) =>
        var res := InputOf(input, decls[0]).value;
        PackHeadOnly(c, d, t1, t2, decls[0].value, res, data);
        RunHeadOnly(c, d, input, Pack(c, d, t1, decls[0].value, res, data), Pack(c, d, t2, decls[0].value, res, data), decls[1..]);
    }
  }

  /** The walk's exception does not depend on the output array it starts from. */
  lemma {:induction false} RunErrorSame(c: Config, d: Definition, input: Value, t1: seq<Entry>, t2: seq<Entry>, decls: seq<Decl>)
    ensures Run(c, d, input, t1, decls).error == Run(c, d, input, t2, decls).error
    decreases |decls|
  {
    if |decls| > 0 {
      match Resolve(d, input, decls[0])
      case Failure(e) =>
      case Success(data) =>
        var res := InputOf(input, decls[0]).value;
        RunErrorSame(c, d, input, Pack(c, d, t1, decls[0].value, res, data), Pack(c, d, t2, decls[0].value, res, data), decls[1..]);
    }
  }

  /** `toTransform`'s exception does not depend on the output array it starts from. */
  lemma ToTransformErrorSame(c: Config, d: Definition, input: Value, t1: seq<Entry>, t2: seq<Entry>)
    ensures ToTransformSpec(c, d, input, t1).error == ToTransformSpec(c, d, input, t2).error
  {
    RunErrorSame(c, d, input, t1, t2, d.declarations);
  }

  lemma ToTransformHeadOnly(c: Config, d: Definition, input: Value, t1: seq<Entry>, t2: seq<Entry>)
    requires Lookup(t1, VKey) == Lookup(t2, VKey)
    ensures ToTransformSpec(c, d, input, t1).error == ToTransformSpec(c, d, input, t2).error
    ensures Lookup(ToTransformSpec(c, d, input, t1).state, VKey) == Lookup(ToTransformSpec(c, d, input, t2).state, VKey)
  {
    RunHeadOnly(c, d, input, t1, t2, d.declarations);
  }

  /* ---------------- properties: packData, response and quote ---------------- */

  /**
    After `packData`, the pack key holds what `virtual_pack` held, `virtual_pack`
    is gone, and every other top-level key is as before.
   */
  lemma PackDataMoves(t: seq<Entry>, pack: string, k: Key)
    ensures KeyOf(pack) != VKey ==> Lookup(PackDataSpec(t, pack), KeyOf(pack)) == Some(LookupOrNull(t, VKey))
    ensures !HasKey(PackDataSpec(t, pack), VKey)
    ensures k != VKey && k != KeyOf(pack) ==> Lookup(PackDataSpec(t, pack), k) == Lookup(t, k)
  {
    if KeyOf(pack) == VKey {
      RemovePut(t, VKey, LookupOrNull(t, VKey));
      RemoveSame(t, VKey);
      LookupHasKey(PackDataSpec(t, pack), VKey);
      if k != VKey {
        RemoveOther(t, VKey, k);
      }
      return;
    }
    var t' := Put(t, KeyOf(pack), LookupOrNull(t, VKey));
    PutSame(t, KeyOf(pack), LookupOrNull(t, VKey));
    RemoveOther(t', VKey, KeyOf(pack));
    RemoveSame(t', VKey);
    LookupHasKey(PackDataSpec(t, pack), VKey);
    if k != VKey && k != KeyOf(pack) {
      RemoveOther(t', VKey, k);
      PutOther(t, KeyOf(pack), LookupOrNull(t, VKey), k);
    }
  }

  /** With the pack configured as `virtual_pack` itself, `packData` amounts to `unset($transform['virtual_pack'])`. */
  lemma PackDataSelf(t: seq<Entry>)
    ensures PackDataSpec(t, VirtualPack) == Remove(t, VKey)
  {
    VirtualPackPath();
    RemovePut(t, VKey, LookupOrNull(t, VKey));
  }

  /**
    With at most one `false` key, at most one paginator and every declaration
    resolvable, `response` succeeds, and the output holds the pack key unless
    the pack is named `virtual_pack` itself.
   */
  lemma ResponseSucceeds(c: Config, d: Definition, input: Value)
    requires FalseKeyCount(d.declarations) <= 1 && PaginatorCount(input) <= 1
    requires forall i :: 0 <= i < |d.declarations| ==> Resolve(d, input, d.declarations[i]).Success?
    ensures ResponseSpec(c, d, input).Success?
    ensures KeyOf(c.pack) != VKey ==> HasKey(ResponseSpec(c, d, input).value, KeyOf(c.pack))
  {
    var o := ToTransformSpec(c, d, input, ArrayMerge([], c.additional));
    if KeyOf(c.pack) != VKey {
      PackDataMoves(o.state, c.pack, VKey);
      LookupHasKey(PackDataSpec(o.state, c.pack), KeyOf(c.pack));
    }
  }

  /**
    `response` and `quote` agree: they fail with the same exception, and
    `virtual_pack` is gone from the response. When `additional` has no
    `virtual_pack` entry of its own and the pack is not `virtual_pack`, the
    response holds under the pack key exactly the subtree `quote` returns.
    A string key of `additional` sits beside it unchanged, unless it is
    `virtual_pack`, the pack key or the pagination key.
   */
  lemma ResponseAndQuote(c: Config, d: Definition, input: Value, k: Key)
    requires ValidConfig(c)
    ensures ResponseSpec(c, d, input).Failure? <==> QuoteSpec(c, d, input).Failure?
    ensures ResponseSpec(c, d, input).Failure? ==> ResponseSpec(c, d, input).error == QuoteSpec(c, d, input).error
    ensures ResponseSpec(c, d, input).Success? ==> !HasKey(ResponseSpec(c, d, input).value, VKey)
    ensures ResponseSpec(c, d, input).Success? && !HasKey(c.additional, VKey) && KeyOf(c.pack) != VKey ==>
      Lookup(ResponseSpec(c, d, input).value, KeyOf(c.pack)) == Some(QuoteSpec(c, d, input).value)
    ensures ResponseSpec(c, d, input).Success? && k.StrKey? && k !in {VKey, KeyOf(c.pack), PaginationHead(c)} ==>
      Lookup(ResponseSpec(c, d, input).value, k) == Lookup(c.additional, k)
  {
    var t0 := ArrayMerge([], c.additional);
    ToTransformErrorSame(c, d, input, t0, []);
    var o := ToTransformSpec(c, d, input, t0);
    if o.error.None? {
      PackDataMoves(o.state, c.pack, k);
      if !HasKey(c.additional, VKey) && KeyOf(c.pack) != VKey {
        ArrayMergeStringKeys([], c.additional, VKey);
        ToTransformHeadOnly(c, d, input, t0, []);
      }
      if k.StrKey? && k !in {VKey, KeyOf(c.pack), PaginationHead(c)} {
        if FalseKeyCount(d.declarations) <= 1 && PaginatorCount(input) <= 1 {
          RunFrame(c, d, input, t0, d.declarations, k);
        }
        ArrayMergeStringKeys([], c.additional, k);
        LookupHasKey(c.additional, k);
      }
    }
  }

  /* ---------------- the failure cases of the test data provider ---------------- */

  /** Two `false` output keys: OnlyOneFalseKey, with nothing packed. */
  lemma TwoFalseKeys(c: Config, handlers: map<string, Value -> Value>, input: Value)
    ensures var d := Definition([Decl(StrKey("firstKey"), Root), Decl(StrKey("secondKey"), Root)], handlers, true);
      ToTransformSpec(c, d, input, []) == Outcome([], Some(OnlyOneFalseKey(2)))
  {
    var decls := [Decl(StrKey("firstKey"), Root), Decl(StrKey("secondKey"), Root)];
    assert decls[1..][1..] == [];
  }

  /** Two paginators in the input: OnlyOnePaginatorData, with nothing packed. */
  lemma TwoPaginators(c: Config, handlers: map<string, Value -> Value>)
    ensures var d := Definition([Decl(StrKey("firstKey"), Named("firstKey")), Decl(StrKey("secondKey"), Named("secondKey"))], handlers, true);
      var page := Paginator([Str("test")], 1, 2, 2, 3);
      var input := Arr([Entry(StrKey("firstKey"), page), Entry(StrKey("secondKey"), page)]);
      ToTransformSpec(c, d, input, []) == Outcome([], Some(OnlyOnePaginatorData(2)))
  {
    var decls := [Decl(StrKey("firstKey"), Named("firstKey")), Decl(StrKey("secondKey"), Named("secondKey"))];
    assert decls[1..][1..] == [];
    assert !IsFalseLike(decls[0].value) && !IsFalseLike(decls[1].value);
    var page := Paginator([Str("test")], 1, 2, 2, 3);
    var vs := ValuesOf([Entry(StrKey("firstKey"), page), Entry(StrKey("secondKey"), page)]);
    assert vs == [page, page];
    assert vs[1..][1..] == [];
  }

  /* ---------------- the class ---------------- */

  class Transform {
    /** the input resources */
    const resources: Resources
    /** the output being built */
    const transform: Resources
    const parameters: seq<Entry>
    const config: Config
    const definition: Definition

    ghost predicate Valid()
      reads this, transform
    {
      resources != transform && transform.Valid() && transform.resources.Arr?
    }

    constructor (resources: Value, parameters: seq<Entry>, config: Config, definition: Definition)
      requires WellKeyed(resources)
      ensures Valid() && fresh(this.resources) && fresh(transform)
      ensures this.resources.resources == resources && transform.resources == Arr([])
      ensures this.parameters == parameters && this.config == config && this.definition == definition
    {
      this.resources := new Resources(resources);
      this.transform := new Resources(Arr([]));
      this.parameters := parameters;
      this.config := config;
      this.definition := definition;
    }

    /** `getParameters($key)`: the parameter, or null when it is missing. */
    function GetParameters(key: Key): (r: Value)
      ensures r == Null <==> !HasKey(parameters, key) || Lookup(parameters, key) == Some(Null)
      ensures HasKey(parameters, key) ==> Entry(key, r) in parameters
    {
      LookupHasKey(parameters, key);
      LookupOrNull(parameters, key)
    }

    /** `addAdditional()`: `additional` merged into the output. */
    method AddAdditional()
      requires Valid()
      modifies transform
      ensures Valid() && transform.resources == Arr(ArrayMerge(old(transform.resources).entries, config.additional))
    {
      transform.Merge(config.additional);
    }

    /** `packOutputKey($key, $data)` */
    method PackOutputKey(target: Target, data: Value)
      requires Valid()
      modifies transform
      ensures Valid() && transform.resources == Arr(PackOutput(old(transform.resources).entries, target, data))
    {
      if target.Root? {
        transform.OffsetSet(VKey, data);
      } else {
        transform.DeepSet(data, VirtualPack + "." + target.name);
      }
    }

    /** `packOutputKeyWithPagination($key, $data, $paginator)` */
    method PackOutputKeyWithPagination(target: Target, data: Value, paginator: Value)
      requires Valid() && paginator.Paginator?
      modifies transform
      ensures Valid() && transform.resources == Arr(PackWithPagination(config, old(transform.resources).entries, target, data, paginator))
    {
      transform.DeepSet(data, if target.Root? then VirtualPack else VirtualPack + "." + target.name);
      var block := PaginationBlock(config, paginator);
      transform.DeepSet(Arr(block), if target.Root? then config.paginationPack else config.paginationPack + "." + target.name);
    }

    /** `packData()` */
    method PackData()
      requires Valid()
      modifies transform
      ensures Valid() && transform.resources == Arr(PackDataSpec(old(transform.resources).entries, config.pack))
    {
      var v := transform.OffsetGet(VKey);
      transform.OffsetSet(KeyOf(config.pack), v);
      transform.OffsetUnset(VKey);
    }

    /** One turn of `eachResource`: look the input up, resolve it, and pack the result. */
    method EachOnce(decl: Decl) returns (error: Option<Error>)
      requires Valid()
      modifies transform
      ensures Valid()
      ensures match Step(config, definition, resources.resources, old(transform.resources).entries, decl)
        case Failure(e) => error == Some(e) && transform.resources == old(transform.resources)
        case Success(t) => error.None? && transform.resources == Arr(t)
    {
      var methodName := MethodName(decl);
      if !resources.OffsetExists(KeyOf(methodName)) {
        return Some(NotFoundSpecifiedResource);
      }
      var resource := resources.OffsetGet(KeyOf(methodName));
      if methodName !in definition.handlers && CallCount(resource) > 0 {
        return Some(UndefinedHandler(methodName));
      }
      var data := MapUnit(resource, Callback(definition, methodName));
      if definition.withPaginationOutput && resource.Paginator? {
        PackOutputKeyWithPagination(decl.value, data, resource);
      } else {
        PackOutputKey(decl.value, data);
      }
      return None;
    }

    /** `eachResource(...)` with the packing callback of `toTransform`. */
    method EachResource() returns (error: Option<Error>)
      requires Valid()
      modifies transform
      ensures Valid()
      ensures Outcome(transform.resources.entries, error) ==
        Run(config, definition, resources.resources, old(transform.resources).entries, definition.declarations)
    {
      var decls := definition.declarations;
      var i := 0;
      while i < |decls|
        invariant 0 <= i <= |decls|
        invariant Valid()
        invariant Run(config, definition, resources.resources, old(transform.resources).entries, decls) ==
          Run(config, definition, resources.resources, transform.resources.entries, decls[i..])
      {
        assert decls[i..][0] == decls[i] && decls[i..][1..] == decls[i + 1..];
        error := EachOnce(decls[i]);
        if error.Some? {
          return;
        }
        i := i + 1;
      }
      return None;
    }

    /** `toTransform()` */
    method ToTransform() returns (error: Option<Error>)
      requires Valid()
      modifies transform
      ensures Valid()
      ensures Outcome(transform.resources.entries, error) ==
        ToTransformSpec(config, definition, resources.resources, old(transform.resources).entries)
    {
      var falseKeys := FalseKeyCount(definition.declarations);
      if falseKeys > 1 {
        return Some(OnlyOneFalseKey(falseKeys));
      }
      var paginators := PaginatorCount(resources.Get());
      if paginators > 1 {
        return Some(OnlyOnePaginatorData(paginators));
      }
      error := EachResource();
    }

    /** `Transform::response($resources, $parameters)`, up to the JSON encoding. */
    static method Response(input: Value, parameters: seq<Entry>, config: Config, definition: Definition)
      returns (r: Result<seq<Entry>, Error>)
      requires WellKeyed(input)
      ensures r == ResponseSpec(config, definition, input)
    {
      var t := new Transform(input, parameters, config, definition);
      t.AddAdditional();
      var error := t.ToTransform();
      if error.Some? {
        return Failure(error.value);
      }
      t.PackData();
      return Success(t.transform.resources.entries);
    }

    /** `Transform::quote($resources, $parameters)` */
    static method Quote(input: Value, parameters: seq<Entry>, config: Config, definition: Definition)
      returns (r: Result<Value, Error>)
      requires WellKeyed(input)
      ensures r == QuoteSpec(config, definition, input)
    {
      var t := new Transform(input, parameters, config, definition);
      var error := t.ToTransform();
      if error.Some? {
        return Failure(error.value);
      }
      return Success(t.transform.OffsetGet(VKey));
    }
  }
}
