/**
 * The attribute stores of the data-structure demonstrations:
 *
 *  - the "lazy" `Structure`, whose constructor pairs the class's `_FIELDS`
 *    names with the positional arguments and sets one attribute per pair;
 *  - the `Field` descriptor, which keeps each value in a per-instance cache
 *    attribute `_<name>_cache`, falls back to the field's default on reads,
 *    and type-checks writes;
 *  - `StructureMeta`, which builds a class's signature from the fields in
 *    its class body.
 *
 * Python values are a type parameter `V`; a field's annotation is a type
 * parameter `A`, and the runtime check `isinstance(value, annotation)` is a
 * predicate `isInstance` passed in by the caller.
 */
module Fields {
  import opened Wrappers

  /** The exceptions the demonstrations raise: `AttributeError` for a read
      of an attribute that was never set, `TypeError` for a write the
      annotation rejects. Each names the attribute. */
  datatype Error = AttributeError(name: string) | TypeError(name: string)

  /** An attribute read on an instance dictionary. */
  function GetAttr<V>(attrs: map<string, V>, name: string): (r: Result<V, Error>)
  {
    if name in attrs then Ok(attrs[name]) else Err(AttributeError(name))
  }

  // ---------------------------------------------------------------------------
  // The lazy Structure
  // ---------------------------------------------------------------------------

  function Min(a: nat, b: nat): nat { if a <= b then a else b }

  /** The instance dictionary after the first `n` pairs of
      `zip(names, args)` were set, one `setattr` after another. */
  function ZipAssign<V>(names: seq<string>, args: seq<V>, n: nat): map<string, V>
    requires n <= |names| && n <= |args|
  {
    if n == 0 then map[] else ZipAssign(names, args, n - 1)[names[n - 1] := args[n - 1]]
  }

  /** The instance dictionary after the constructor: every pair of the zip,
      which stops at the shorter of the two sequences. */
  function LazyInit<V>(names: seq<string>, args: seq<V>): map<string, V>
  {
    ZipAssign(names, args, Min(|names|, |args|))
  }

  /** An instance of a `Structure` subclass with the given `_FIELDS`. */
  class LazyStructure<V> {
    const fieldNames: seq<string>
    var attrs: map<string, V>

    /** `Structure.__init__(self, *args)` */
    constructor (fieldNames: seq<string>, args: seq<V>)
      ensures this.fieldNames == fieldNames
      ensures attrs == LazyInit(fieldNames, args)
    {
      this.fieldNames := fieldNames;
      attrs := map[];
      new;
      var i := 0;
      while i < |fieldNames| && i < |args|
        invariant i <= |fieldNames| && i <= |args|
        invariant attrs == ZipAssign(fieldNames, args, i)
      {
        attrs := attrs[fieldNames[i] := args[i]];
        i := i + 1;
      }
    }
  }

  /** The attributes set by the first `n` pairs are exactly the first `n`
      names. */
  lemma {:induction false} ZipAssignKeys<V>(names: seq<string>, args: seq<V>, n: nat, name: string)
    requires n <= |names| && n <= |args|
    ensures name in ZipAssign(names, args, n) <==> exists i :: 0 <= i < n && names[i] == name
  {
    if n > 0 {
      ZipAssignKeys(names, args, n - 1, name);
    }
  }

  /** With distinct field names, the first `n` fields hold the first `n`
      arguments, position by position. */
  lemma {:induction false} ZipAssignValues<V>(names: seq<string>, args: seq<V>, n: nat, i: nat)
    requires n <= |names| && n <= |args|
    requires forall a, b :: 0 <= a < b < |names| ==> names[a] != names[b]
    requires i < n
    ensures names[i] in ZipAssign(names, args, n)
    ensures ZipAssign(names, args, n)[names[i]] == args[i]
  {
    if i < n - 1 {
      ZipAssignValues(names, args, n - 1, i);
    }
  }

  /** After construction with distinct field names, field `i` holds
      argument `i` for every `i` below both lengths, and no other attribute
      is set. */
  lemma LazyInitSetsPairedPrefix<V>(names: seq<string>, args: seq<V>, name: string)
    requires forall a, b :: 0 <= a < b < |names| ==> names[a] != names[b]
    ensures name in LazyInit(names, args) <==>
      exists i :: 0 <= i < |names| && i < |args| && names[i] == name
    ensures forall i :: 0 <= i < |names| && i < |args| ==>
      GetAttr(LazyInit(names, args), names[i]) == Ok(args[i])
  {
    var n := Min(|names|, |args|);
    ZipAssignKeys(names, args, n, name);
    forall i | 0 <= i < |names| && i < |args|
      ensures GetAttr(LazyInit(names, args), names[i]) == Ok(args[i])
    {
      ZipAssignValues(names, args, n, i);
    }
  }

  /** The first `n` pairs do not look past position `n` of the arguments. */
  lemma {:induction false} ZipAssignPrefix<V>(names: seq<string>, args: seq<V>, more: seq<V>, n: nat)
    requires n <= |names| && n <= |args|
    ensures ZipAssign(names, args + more, n) == ZipAssign(names, args, n)
  {
    if n > 0 {
      ZipAssignPrefix(names, args, more, n - 1);
      assert (args + more)[n - 1] == args[n - 1];
    }
  }

  /** Positional arguments beyond the field names are silently ignored. */
  lemma ExtraArgsIgnored<V>(names: seq<string>, args: seq<V>, extra: seq<V>)
    requires |args| == |names|
    ensures LazyInit(names, args + extra) == LazyInit(names, args)
  {
    ZipAssignPrefix(names, args, extra, |names|);
  }

  /** A field past the supplied arguments is never set, so reading it
      raises `AttributeError`. */
  lemma UnsuppliedFieldRaises<V>(names: seq<string>, args: seq<V>, i: nat)
    requires forall a, b :: 0 <= a < b < |names| ==> names[a] != names[b]
    requires |args| <= i < |names|
    ensures GetAttr(LazyInit(names, args), names[i]) == Err(AttributeError(names[i]))
  {
    ZipAssignKeys(names, args, Min(|names|, |args|), names[i]);
  }

  // ---------------------------------------------------------------------------
  // The Field descriptor
  // ---------------------------------------------------------------------------

  /** The parameter kinds the demonstrations use. */
  datatype Kind = PositionalOrKeyword | KeywordOnly

  /** The name of the per-instance attribute that caches a field's value. */
  function CacheName(name: string): string
  {
    "_" + name + "_cache"
  }

  /** Distinct fields never share a cache attribute. */
  lemma CacheNameInjective(a: string, b: string)
    requires CacheName(a) == CacheName(b)
    ensures a == b
  {
    assert |a| == |b|;
    assert a == CacheName(a)[1..|a| + 1];
    assert b == CacheName(b)[1..|b| + 1];
  }

  /** What reading a field through the descriptor gives: the field itself
      (read on the class), a value, or an exception. */
  datatype Access<V> = FieldItself | Found(value: V) | Raised(error: Error)

  /** An object whose attributes the descriptor reads and writes. */
  class Instance<V> {
    var attrs: map<string, V>

    constructor ()
      ensures attrs == map[]
    {
      attrs := map[];
    }
  }

  /** A `Field`: an immutable parameter description with a name, a kind, a
      default (`None` standing for `Parameter.empty`) and an annotation. */
  datatype Field<V, A> = Field(name: string, kind: Kind, default: Option<V>, annotation: A)
  {
    /** `__get__` on an instance dictionary: the cached value if there is
        one, else the default, else `AttributeError`. */
    function Lookup(attrs: map<string, V>): (r: Access<V>)
      ensures !r.FieldItself?
      ensures r.Raised? <==> CacheName(name) !in attrs && default.None?
      ensures r.Raised? ==> r.error == AttributeError(name)
    {
      var cache := CacheName(name);
      if cache in attrs then Found(attrs[cache])
      else if default.Some? then Found(default.value)
      else Raised(AttributeError(name))
    }

    /** `__get__`: read through the class (no instance) gives the field
        itself; read through an instance looks the value up. */
    function Get(instance: Instance?<V>): (r: Access<V>)
      reads instance
      ensures instance == null <==> r.FieldItself?
      ensures r.Raised? ==> r.error == AttributeError(name)
    {
      if instance == null then FieldItself else Lookup(instance.attrs)
    }

    /** `__set__` on an instance dictionary: a value the annotation rejects
        raises `TypeError`; any other is written to the cache attribute. */
    function Store(attrs: map<string, V>, value: V, isInstance: (V, A) -> bool)
      : (r: Result<map<string, V>, Error>)
      ensures r.Ok? <==> isInstance(value, annotation)
      ensures r.Err? ==> r.error == TypeError(name)
      ensures r.Ok? ==> r.value.Keys == attrs.Keys + {CacheName(name)}
      ensures r.Ok? ==> r.value[CacheName(name)] == value
      ensures r.Ok? ==> forall k :: k in attrs && k != CacheName(name) ==> r.value[k] == attrs[k]
    {
      if !isInstance(value, annotation) then Err(TypeError(name))
      else Ok(attrs[CacheName(name) := value])
    }

    /** `__set__`: type-check, then write the cache; a rejected value
        leaves the instance as it was. */
    method Set(instance: Instance<V>, value: V, isInstance: (V, A) -> bool) returns (err: Option<Error>)
      modifies instance
      ensures match Store(old(instance.attrs), value, isInstance)
        case Ok(attrs) => err.None? && instance.attrs == attrs
        case Err(e) => err == Some(e) && instance.attrs == old(instance.attrs)
    {
      if !isInstance(value, annotation) {
        return Some(TypeError(name));
      }
      instance.attrs := instance.attrs[CacheName(name) := value];
      err := None;
    }
  }

  /** Set-then-get: after a successful write, a read gives exactly the
      value written, whatever the default. */
  lemma SetThenGet<V, A>(f: Field<V, A>, attrs: map<string, V>, value: V, isInstance: (V, A) -> bool)
    requires isInstance(value, f.annotation)
    ensures f.Store(attrs, value, isInstance).Ok?
    ensures f.Lookup(f.Store(attrs, value, isInstance).value) == Found(value)
  {
  }

  /** A write through one field leaves every field of another name as it
      reads. */
  lemma SetLeavesOtherFields<V, A>(f: Field<V, A>, g: Field<V, A>, attrs: map<string, V>,
                                   value: V, isInstance: (V, A) -> bool)
    requires f.name != g.name
    requires isInstance(value, f.annotation)
    ensures g.Lookup(f.Store(attrs, value, isInstance).value) == g.Lookup(attrs)
  {
    if CacheName(f.name) == CacheName(g.name) {
      CacheNameInjective(f.name, g.name);
    }
  }

  /** A field never written reads as its default, and raises
      `AttributeError` when it has none. */
  lemma UnsetFieldReadsDefault<V, A>(f: Field<V, A>, attrs: map<string, V>)
    requires CacheName(f.name) !in attrs
    ensures f.default.Some? ==> f.Lookup(attrs) == Found(f.default.value)
    ensures f.default.None? ==> f.Lookup(attrs) == Raised(AttributeError(f.name))
  {
  }

  // ---------------------------------------------------------------------------
  // StructureMeta
  // ---------------------------------------------------------------------------

  /** A value in a class body: a parameter (a `Field` or a plain
      `Parameter`, which the signature treats alike), or anything else. */
  datatype ClassAttr<V, A> = Param(field: Field<V, A>) | Other(value: V)

  /** The signature `StructureMeta.__new__` builds: the parameters among
      the class body's values (`class_dict.values()`, in the order the body
      defines them). */
  function SignatureOf<V, A>(body: seq<ClassAttr<V, A>>): (params: seq<Field<V, A>>)
    ensures |params| <= |body|
  {
    if |body| == 0 then []
    else
      var last := body[|body| - 1];
      SignatureOf(body[..|body| - 1]) + (if last.Param? then [last.field] else [])
  }

  /** The positions in the class body of the signature's parameters. */
  function ParamPositions<V, A>(body: seq<ClassAttr<V, A>>): seq<nat>
  {
    if |body| == 0 then []
    else ParamPositions(body[..|body| - 1]) + (if body[|body| - 1].Param? then [|body| - 1] else [])
  }

  /** The signature's `k`-th parameter is the value at the `k`-th of the
      parameter positions of the class body. */
  lemma {:induction false} SignaturePositions<V, A>(body: seq<ClassAttr<V, A>>)
    ensures var params, pos := SignatureOf(body), ParamPositions(body);
      && |pos| == |params|
      && (forall k :: 0 <= k < |pos| ==> pos[k] < |body| && body[pos[k]] == Param(params[k]))
  {
    if |body| > 0 {
      var init := body[..|body| - 1];
      SignaturePositions(init);
      var last := body[|body| - 1];
      var pos0, params0 := ParamPositions(init), SignatureOf(init);
      var pos, params := ParamPositions(body), SignatureOf(body);
      assert pos == pos0 + (if last.Param? then [|body| - 1] else []);
      assert params == params0 + (if last.Param? then [last.field] else []);
      forall k | 0 <= k < |pos| ensures pos[k] < |body| && body[pos[k]] == Param(params[k]) {
        if k < |pos0| {
          assert pos[k] == pos0[k] && params[k] == params0[k];
          assert body[pos0[k]] == init[pos0[k]];
        }
      }
    }
  }

  /** The parameter positions of a class body strictly increase. */
  lemma {:induction false} ParamPositionsIncrease<V, A>(body: seq<ClassAttr<V, A>>)
    ensures forall k :: 0 <= k < |ParamPositions(body)| ==> ParamPositions(body)[k] < |body|
    ensures forall k, l :: 0 <= k < l < |ParamPositions(body)| ==> ParamPositions(body)[k] < ParamPositions(body)[l]
  {
    if |body| > 0 {
      var init := body[..|body| - 1];
      ParamPositionsIncrease(init);
      var pos0, pos := ParamPositions(init), ParamPositions(body);
      assert pos == pos0 + (if body[|body| - 1].Param? then [|body| - 1] else []);
      forall k | 0 <= k < |pos| ensures pos[k] < |body| {
        if k < |pos0| {
          assert pos[k] == pos0[k];
        }
      }
      forall k, l | 0 <= k < l < |pos| ensures pos[k] < pos[l] {
        assert pos[k] == pos0[k];
        if l < |pos0| {
          assert pos[l] == pos0[l];
        }
      }
    }
  }

  /** Every parameter value of the class body is at one of the signature's
      positions. */
  lemma {:induction false} SignatureCoversParams<V, A>(body: seq<ClassAttr<V, A>>)
    ensures forall i :: 0 <= i < |body| && body[i].Param? ==> i in ParamPositions(body)
  {
    if |body| > 0 {
      var init := body[..|body| - 1];
      SignatureCoversParams(init);
      var pos0, pos := ParamPositions(init), ParamPositions(body);
      assert pos == pos0 + (if body[|body| - 1].Param? then [|body| - 1] else []);
      forall i | 0 <= i < |body| - 1 && body[i].Param? ensures i in pos {
        assert init[i] == body[i];
      }
    }
  }

  /** The signature lists exactly the parameters of the class body, each
      once, in definition order: its `k`-th parameter is the value at a
      strictly increasing position of the body, and every parameter value
      of the body is at one of those positions. */
  lemma {:induction false} SignatureInDefinitionOrder<V, A>(body: seq<ClassAttr<V, A>>)
    ensures var params, pos := SignatureOf(body), ParamPositions(body);
      && |pos| == |params|
      && (forall k :: 0 <= k < |pos| ==> pos[k] < |body| && body[pos[k]] == Param(params[k]))
      && (forall k, l :: 0 <= k < l < |pos| ==> pos[k] < pos[l])
      && (forall i :: 0 <= i < |body| && body[i].Param? ==> i in pos)
  {
    SignaturePositions(body);
    ParamPositionsIncrease(body);
    SignatureCoversParams(body);
  }
}
