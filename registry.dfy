/**
 * The example registry of the talk: the global table `talk_map` that maps a
 * suite name to the suite's entry `{'examples': [...], 'sources': ...}`, the
 * decorator `include` that files an example function under the suite named
 * after its module, and the import-time code that fills the table.
 *
 * `talk_map` is a Python dict, so it remembers the order in which its keys
 * were first inserted; a `Table` keeps that order beside the entries.
 */
module Registry {
  import opened Wrappers
  import opened Text

  /** An example function as the registry sees it: its `__name__`, its
      `__module__`, and the lines of its source text (what
      `inspect.getsource(example).splitlines()` gives). */
  datatype Example = Example(name: string, moduleName: string, source: seq<string>)

  /** One suite entry: the `'examples'` list, and the `'sources'` key,
      which is absent until the module-level code assigns it. */
  datatype Suite = Suite(examples: seq<Example>, sources: Option<string>)

  /** The `KeyError` a dict lookup of a missing key raises. */
  datatype KeyError = KeyError(key: string)

  /** `talk_map` as a value: its keys in insertion order, and its entries. */
  datatype Table = Table(order: seq<string>, suites: map<string, Suite>)
  {
    /** Every key is listed once in the insertion order, and the listed
        keys are exactly the keys of the dict. */
    ghost predicate Valid()
    {
      && (forall i, j :: 0 <= i < j < |order| ==> order[i] != order[j])
      && (forall k :: k in suites <==> k in order)
    }
  }

  /** The empty `talk_map = {}`. */
  const EmptyTable: Table := Table([], map[])

  /** The suite key of an example declared in `module`:
      `module.split('.')[-1]`, the part after the last dot, or the whole
      name when it has no dot. */
  function SuiteName(moduleName: string): (name: string)
    ensures '.' !in name
  {
    var parts := Split(moduleName, '.');
    parts[|parts| - 1]
  }

  /** The suite key is the suffix of the module name that follows its last
      dot, and the whole module name exactly when there is no dot. */
  lemma SuiteNameIsLastComponent(moduleName: string)
    ensures var name := SuiteName(moduleName);
      && |name| <= |moduleName|
      && name == moduleName[|moduleName| - |name|..]
      && (|name| == |moduleName| || moduleName[|moduleName| - |name| - 1] == '.')
      && (|name| == |moduleName| <==> '.' !in moduleName)
  {
    SplitLast(moduleName, '.');
  }

  /** The examples filed under `key`, or none when the key is absent. */
  function ExamplesOf(t: Table, key: string): seq<Example>
  {
    if key in t.suites then t.suites[key].examples else []
  }

  /** The examples of `es` whose module names the suite `key`, in order. */
  function InSuite(es: seq<Example>, key: string): (r: seq<Example>)
    ensures |r| <= |es|
    ensures forall i :: 0 <= i < |r| ==> SuiteName(r[i].moduleName) == key
  {
    if |es| == 0 then []
    else
      var last := es[|es| - 1];
      InSuite(es[..|es| - 1], key) + (if SuiteName(last.moduleName) == key then [last] else [])
  }

  /** The table after `include(example)`: `setdefault` creates the entry
      `{'examples': []}` when the suite key is new, then the example is
      appended to that suite's list. */
  function Registered(t: Table, example: Example): (r: Table)
    ensures var key := SuiteName(example.moduleName);
      && key in r.suites
      && r.suites[key].examples == ExamplesOf(t, key) + [example]
      && r.suites[key].sources == (if key in t.suites then t.suites[key].sources else None)
      && r.order == (if key in t.suites then t.order else t.order + [key])
      && (forall k :: k != key ==> (k in r.suites <==> k in t.suites))
      && (forall k :: k != key && k in t.suites ==> r.suites[k] == t.suites[k])
    ensures t.Valid() ==> r.Valid()
  {
    var key := SuiteName(example.moduleName);
    var t1 := if key in t.suites then t else Table(t.order + [key], t.suites[key := Suite([], None)]);
    var entry := t1.suites[key];
    Table(t1.order, t1.suites[key := entry.(examples := entry.examples + [example])])
  }

  /** The table after including `es` one after another, in order. */
  function RegisterAll(t: Table, es: seq<Example>): Table
  {
    if |es| == 0 then t else Registered(RegisterAll(t, es[..|es| - 1]), es[|es| - 1])
  }

  /** `talk_map[key]['sources'] = doc`: a lookup of `key` that raises
      `KeyError` when no example created the suite; otherwise only that
      suite's `'sources'` changes. */
  function WithSources(t: Table, key: string, doc: string): (r: Result<Table, KeyError>)
    ensures r.Ok? <==> key in t.suites
    ensures r.Err? ==> r.error == KeyError(key)
    ensures r.Ok? ==>
      && r.value.order == t.order
      && r.value.suites.Keys == t.suites.Keys
      && r.value.suites[key] == Suite(t.suites[key].examples, Some(doc))
      && (forall k :: k in t.suites && k != key ==> r.value.suites[k] == t.suites[k])
    ensures r.Ok? && t.Valid() ==> r.value.Valid()
  {
    if key in t.suites then Ok(Table(t.order, t.suites[key := t.suites[key].(sources := Some(doc))]))
    else Err(KeyError(key))
  }

  /** After any sequence of registrations a suite's list is what it held
      before followed by the new examples of that suite, in registration
      order, duplicates included. */
  lemma {:induction false} RegisterAllExamples(t: Table, es: seq<Example>, key: string)
    ensures ExamplesOf(RegisterAll(t, es), key) == ExamplesOf(t, key) + InSuite(es, key)
  {
    if |es| > 0 {
      var init, last := es[..|es| - 1], es[|es| - 1];
      RegisterAllExamples(t, init, key);
      var before := RegisterAll(t, init);
      assert RegisterAll(t, es) == Registered(before, last);
      if SuiteName(last.moduleName) == key {
        assert InSuite(es, key) == InSuite(init, key) + [last];
        assert ExamplesOf(Registered(before, last), key) == ExamplesOf(before, key) + [last];
      } else {
        assert InSuite(es, key) == InSuite(init, key) + [];
        assert ExamplesOf(Registered(before, last), key) == ExamplesOf(before, key);
      }
    }
  }

  /** A suite exists after registrations exactly when it existed before or
      one of the registered examples belongs to it. */
  lemma {:induction false} RegisterAllHasSuite(t: Table, es: seq<Example>, key: string)
    ensures key in RegisterAll(t, es).suites <==>
      key in t.suites || exists i :: 0 <= i < |es| && SuiteName(es[i].moduleName) == key
  {
    if |es| > 0 {
      var init := es[..|es| - 1];
      RegisterAllHasSuite(t, init, key);
      if key in RegisterAll(t, es).suites && key !in t.suites {
        if SuiteName(es[|es| - 1].moduleName) != key {
          var i :| 0 <= i < |init| && SuiteName(init[i].moduleName) == key;
          assert es[i] == init[i];
        }
      }
      if exists i :: 0 <= i < |es| && SuiteName(es[i].moduleName) == key {
        var i :| 0 <= i < |es| && SuiteName(es[i].moduleName) == key;
        if i < |es| - 1 {
          assert init[i] == es[i];
        }
      }
    }
  }

  /** Registrations never replace a suite's `'sources'` value. */
  lemma {:induction false} RegisterAllKeepsSources(t: Table, es: seq<Example>, key: string)
    requires key in t.suites
    ensures key in RegisterAll(t, es).suites
    ensures RegisterAll(t, es).suites[key].sources == t.suites[key].sources
  {
    if |es| > 0 {
      RegisterAllKeepsSources(t, es[..|es| - 1], key);
    }
  }

  /** Registration keeps the table well formed and never moves a suite
      that is already present: the old insertion order is a prefix of the
      new one. */
  lemma {:induction false} RegisterAllKeepsOrder(t: Table, es: seq<Example>)
    requires t.Valid()
    ensures RegisterAll(t, es).Valid()
    ensures t.order <= RegisterAll(t, es).order
  {
    if |es| > 0 {
      RegisterAllKeepsOrder(t, es[..|es| - 1]);
    }
  }

  /** Every example filed under a suite was declared in a module whose last
      name component is that suite's key. */
  lemma {:induction false} SuiteMembersBelong(es: seq<Example>, key: string, i: nat)
    requires i < |ExamplesOf(RegisterAll(EmptyTable, es), key)|
    ensures SuiteName(ExamplesOf(RegisterAll(EmptyTable, es), key)[i].moduleName) == key
  {
    RegisterAllExamples(EmptyTable, es, key);
  }

  /** There is no deduplication: including the same example twice files it
      twice. */
  lemma RegisterTwice(t: Table, example: Example)
    ensures ExamplesOf(Registered(Registered(t, example), example), SuiteName(example.moduleName))
         == ExamplesOf(t, SuiteName(example.moduleName)) + [example, example]
  {
  }

  /** Assigning `'sources'` on a table built by registrations fails exactly
      when no registered example belongs to that suite. */
  lemma {:induction false} SourcesNeedAnExample(es: seq<Example>, key: string, doc: string)
    ensures WithSources(RegisterAll(EmptyTable, es), key, doc).Err? <==>
      forall i :: 0 <= i < |es| ==> SuiteName(es[i].moduleName) != key
  {
    RegisterAllHasSuite(EmptyTable, es, key);
  }

  // ---------------------------------------------------------------------------
  // Import-time loading of the table (the package's module body)
  // ---------------------------------------------------------------------------

  const CallingConventions: string := "calling_conventions"
  const InspectSignatures: string := "inspect_signatures"

  /** The module body as written: it registers the examples of
      `calling_conventions` and then those of `inspect_signatures` (the
      effect of importing them), then assigns `'sources'` to both suites,
      taking the docstring of `calling_conventions` for both. */
  function LoadAsWritten(ccExamples: seq<Example>, isExamples: seq<Example>, ccDoc: string, isDoc: string)
    : (r: Result<Table, KeyError>)
    ensures r.Ok? ==>
      && InspectSignatures in r.value.suites
      && r.value.suites[InspectSignatures].sources == Some(ccDoc)
  {
    var t := RegisterAll(RegisterAll(EmptyTable, ccExamples), isExamples);
    match WithSources(t, CallingConventions, ccDoc)
    case Err(e) => Err(e)
    case Ok(t1) => WithSources(t1, InspectSignatures, ccDoc)
  }

  /** Whenever the two docstrings differ and both suites receive an
      example, the module body as written labels the `inspect_signatures`
      suite with the docstring of `calling_conventions`. */
  lemma LoadAsWrittenMislabels(ccExamples: seq<Example>, isExamples: seq<Example>,
                               ccDoc: string, isDoc: string)
    requires ccDoc != isDoc
    requires exists i ::
      0 <= i < |ccExamples + isExamples| && SuiteName((ccExamples + isExamples)[i].moduleName) == CallingConventions
    requires exists i ::
      0 <= i < |ccExamples + isExamples| && SuiteName((ccExamples + isExamples)[i].moduleName) == InspectSignatures
    ensures var r := LoadAsWritten(ccExamples, isExamples, ccDoc, isDoc);
      r.Ok? && r.value.suites[InspectSignatures].sources != Some(isDoc)
  {
    var all := ccExamples + isExamples;
    RegisterAllThen(EmptyTable, ccExamples, isExamples);
    RegisterAllHasSuite(EmptyTable, all, CallingConventions);
    RegisterAllHasSuite(EmptyTable, all, InspectSignatures);
  }

  /** The suite key of `prefix.name` is `name`. */
  lemma SuiteNameAfterDot(prefix: string, name: string)
    requires '.' !in name
    ensures SuiteName(prefix + "." + name) == name
  {
    SplitAround(prefix, name, '.');
    SplitNoSep(name, '.');
  }

  /** The module body with each suite labelled by its own module's
      docstring. */
  function Load(ccExamples: seq<Example>, isExamples: seq<Example>, ccDoc: string, isDoc: string)
    : (r: Result<Table, KeyError>)
    ensures r.Ok? ==>
      && CallingConventions in r.value.suites
      && InspectSignatures in r.value.suites
      && r.value.suites[CallingConventions].sources == Some(ccDoc)
      && r.value.suites[InspectSignatures].sources == Some(isDoc)
  {
    var t := RegisterAll(RegisterAll(EmptyTable, ccExamples), isExamples);
    match WithSources(t, CallingConventions, ccDoc)
    case Err(e) => Err(e)
    case Ok(t1) => WithSources(t1, InspectSignatures, isDoc)
  }

  /** Loading succeeds exactly when both suites received an example. */
  lemma LoadSucceeds(ccExamples: seq<Example>, isExamples: seq<Example>, ccDoc: string, isDoc: string)
    ensures var all := ccExamples + isExamples;
      Load(ccExamples, isExamples, ccDoc, isDoc).Ok? <==>
        && (exists i :: 0 <= i < |all| && SuiteName(all[i].moduleName) == CallingConventions)
        && (exists i :: 0 <= i < |all| && SuiteName(all[i].moduleName) == InspectSignatures)
  {
    var all := ccExamples + isExamples;
    RegisterAllThen(EmptyTable, ccExamples, isExamples);
    RegisterAllHasSuite(EmptyTable, all, CallingConventions);
    RegisterAllHasSuite(EmptyTable, all, InspectSignatures);
  }

  /** A successful load leaves a valid table: the key order lists each
      suite once and names exactly the suites of the map. */
  lemma LoadIsValid(ccExamples: seq<Example>, isExamples: seq<Example>, ccDoc: string, isDoc: string)
    requires Load(ccExamples, isExamples, ccDoc, isDoc).Ok?
    ensures Load(ccExamples, isExamples, ccDoc, isDoc).value.Valid()
  {
    var all := ccExamples + isExamples;
    RegisterAllThen(EmptyTable, ccExamples, isExamples);
    RegisterAllKeepsOrder(EmptyTable, all);
  }

  /** After a successful load every suite holds exactly its own examples,
      in declaration order. */
  lemma LoadFilesEachSuite(ccExamples: seq<Example>, isExamples: seq<Example>,
                           ccDoc: string, isDoc: string, key: string)
    requires Load(ccExamples, isExamples, ccDoc, isDoc).Ok?
    ensures ExamplesOf(Load(ccExamples, isExamples, ccDoc, isDoc).value, key)
         == InSuite(ccExamples + isExamples, key)
  {
    var all := ccExamples + isExamples;
    RegisterAllThen(EmptyTable, ccExamples, isExamples);
    RegisterAllExamples(EmptyTable, all, key);
  }

  /** Registering two batches one after the other is registering their
      concatenation. */
  lemma {:induction false} RegisterAllThen(t: Table, xs: seq<Example>, ys: seq<Example>)
    ensures RegisterAll(RegisterAll(t, xs), ys) == RegisterAll(t, xs + ys)
  {
    if |ys| > 0 {
      RegisterAllThen(t, xs, ys[..|ys| - 1]);
      assert (xs + ys)[..|xs + ys| - 1] == xs + ys[..|ys| - 1];
    } else {
      assert xs + ys == xs;
    }
  }

  // ---------------------------------------------------------------------------
  // The global table, updated in place
  // ---------------------------------------------------------------------------

  /** The process-wide `talk_map`. */
  class TalkMap {
    var order: seq<string>
    var suites: map<string, Suite>

    function Snapshot(): Table
      reads this
    {
      Table(order, suites)
    }

    ghost predicate Valid()
      reads this
    {
      Snapshot().Valid()
    }

    /** `talk_map = {}` */
    constructor ()
      ensures Valid() && Snapshot() == EmptyTable
    {
      order := [];
      suites := map[];
    }

    /** The `include` decorator: files `example` under its module's suite,
        creating the suite on first use, and hands the function back. */
    method Include(example: Example) returns (r: Example)
      requires Valid()
      modifies this
      ensures Valid()
      ensures r == example
      ensures Snapshot() == Registered(old(Snapshot()), example)
      ensures suites[SuiteName(example.moduleName)].examples
           == ExamplesOf(old(Snapshot()), SuiteName(example.moduleName)) + [example]
    {
      var key := SuiteName(example.moduleName);
      if key !in suites {
        order := order + [key];
        suites := suites[key := Suite([], None)];
      }
      var entry := suites[key];
      suites := suites[key := entry.(examples := entry.examples + [example])];
      r := example;
    }

    /** `talk_map[key]['sources'] = doc`, with the `KeyError` of a missing
        suite as the error result. */
    method SetSources(key: string, doc: string) returns (err: Option<KeyError>)
      requires Valid()
      modifies this
      ensures Valid()
      ensures err.None? <==> key in old(suites)
      ensures match WithSources(old(Snapshot()), key, doc)
        case Ok(t) => err.None? && Snapshot() == t
        case Err(e) => err == Some(e) && Snapshot() == old(Snapshot())
    {
      if key in suites {
        suites := suites[key := suites[key].(sources := Some(doc))];
        err := None;
      } else {
        err := Some(KeyError(key));
      }
    }

    /** Applies the decorator to each example in turn, as importing a
        module applies it to each decorated function in declaration order. */
    method IncludeAll(es: seq<Example>)
      requires Valid()
      modifies this
      ensures Valid()
      ensures Snapshot() == RegisterAll(old(Snapshot()), es)
    {
      var i := 0;
      while i < |es|
        invariant 0 <= i <= |es|
        invariant Valid()
        invariant Snapshot() == RegisterAll(old(Snapshot()), es[..i])
      {
        assert es[..i + 1][..i] == es[..i];
        var _ := Include(es[i]);
        i := i + 1;
      }
      assert es[..|es|] == es;
    }
  }

  /** The package's import-time code with line 13 corrected as `Load`
      says: a fresh `talk_map`, the examples of both demonstration modules
      registered, then both `'sources'` assignments, each with its own
      module's docstring (the code as written reuses the docstring of
      `calling_conventions` for the second, see `LoadAsWritten`). A missing
      suite stops the load with the `KeyError`. */
  method LoadTalkMap(ccExamples: seq<Example>, isExamples: seq<Example>, ccDoc: string, isDoc: string)
    returns (talk: TalkMap, err: Option<KeyError>)
    ensures fresh(talk) && talk.Valid()
    ensures match Load(ccExamples, isExamples, ccDoc, isDoc)
      case Ok(t) => err.None? && talk.Snapshot() == t
      case Err(e) => err == Some(e)
  {
    talk := new TalkMap();
    talk.IncludeAll(ccExamples);
    talk.IncludeAll(isExamples);
    err := talk.SetSources(CallingConventions, ccDoc);
    if err.None? {
      err := talk.SetSources(InspectSignatures, isDoc);
    }
  }
}
