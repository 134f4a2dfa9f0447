# Signatures talk: registry, header rendering and field stores

A Dafny model of the working parts of a conference-talk script about
Python 3 callable signatures. The talk collects example functions into
named suites and, for each example, shows a header with the example's
source and opens an interactive shell. Three pieces are modelled:

- **The example registry** (`signatures_talk/__init__.py`). The global dict
  `talk_map` is the class `Registry.TalkMap`, updated in place by
  `Include` (the `include` decorator) and `SetSources` (the module-level
  `'sources'` assignments). Its value is a `Registry.Table`: the keys in
  dict insertion order beside the entries. The pure functions `Registered`,
  `RegisterAll`, `WithSources` and `Load` specify the methods, and the
  lemmas about them state the registry's properties.
- **Header rendering and suite traversal** (`talk.py`). `Talk.CodeExample`
  and `Talk.CreateHeader` build the text. `Talk.RunSuite`, `Talk.RunAll`
  and `Talk.RunNamed` are the driver loops. Each interactive shell session
  is recorded as a `Talk.Visit` event: the suite, the example's 0-based
  position, the example, and the header the shell would show.
- **Field stores in the data-structure demos**
  (`signatures_talk/using_signatures.py`). `Fields.LazyStructure` is the
  zip-based constructor. `Fields.Field` is the caching descriptor, with the
  `isinstance` check passed in as a predicate. `Fields.SignatureOf` is the
  parameter collection of `StructureMeta`.

`Text` holds the string operations these need: `str.split`, `str.join`,
decimal rendering of an `int`, and ASCII `str.title()`. `Wrappers` holds
`Option` and `Result`. A Python exception becomes an error value: a
`KeyError`, or an `AttributeError`/`TypeError` of `Fields.Error`.

## Model

| member | source | states |
|---|---|---|
| `Text.Split` | signatures_talk/__init__.py:3 | `str.split(sep)`: at least one piece, and no piece contains the separator |
| `Text.JoinSplit` | signatures_talk/__init__.py:3 | joining the pieces of a split with the separator gives back the original string |
| `Text.SplitJoin` | talk.py:62 | splitting a newline-join of line-break-free lines gives back exactly those lines |
| `Text.SplitLast` | signatures_talk/__init__.py:3 | the last piece is the suffix after the last separator; it is the whole string exactly when there is no separator |
| `Text.NatToString` | talk.py:54 | the rendered `int` is a non-empty run of decimal digits with no leading zero unless the number is 0 |
| `Text.ParseNatToString` | talk.py:54 | reading the rendered digits back gives the number |
| `Text.TitleAt` | talk.py:51 | `str.title()` on ASCII: a character that follows a letter is lower-cased and every other character is upper-cased |
| `Registry.SuiteName` | signatures_talk/__init__.py:3 | the suite key contains no dot |
| `Registry.SuiteNameIsLastComponent` | signatures_talk/__init__.py:3 | the suite key is the suffix of the module name after its last dot, or the whole name exactly when it has no dot |
| `Registry.SuiteNameAfterDot` | signatures_talk/__init__.py:3 | the key of `pkg.name` is `name` |
| `Registry.Registered` | signatures_talk/__init__.py:2-6 | after `include`, the example's suite holds its old list plus the example at the end. A new suite gets the list `[example]`, no sources, and a place at the end of the key order. An existing suite keeps its sources and its place. Every other suite is unchanged, and a valid table stays valid |
| `Registry.WithSources` | signatures_talk/__init__.py:12-13 | assigning `'sources'` fails with `KeyError(key)` exactly when the suite is absent. Otherwise only that suite's sources change; its examples, the other suites and the key order are kept |
| `Registry.RegisterAllExamples` | signatures_talk/__init__.py:4-5 | after any sequence of registrations, a suite's list is its old list followed by that suite's new examples in registration order, duplicates included |
| `Registry.RegisterAllHasSuite` | signatures_talk/__init__.py:4 | a suite exists after registrations exactly when it existed before or some registered example belongs to it |
| `Registry.RegisterAllKeepsSources` | signatures_talk/__init__.py:4-5 | registrations never replace an existing suite's `'sources'` value |
| `Registry.RegisterAllKeepsOrder` | signatures_talk/__init__.py:4 | registrations keep the table valid, and the old key order is a prefix of the new one |
| `Registry.RegisterAllThen` | signatures_talk/__init__.py:9-10 | registering the examples of one module and then another is registering their concatenation |
| `Registry.SuiteMembersBelong` | signatures_talk/__init__.py:3-5 | every example filed under a suite comes from a module whose last name component is that suite's key |
| `Registry.RegisterTwice` | signatures_talk/__init__.py:5 | no deduplication: including the same example twice files it twice |
| `Registry.SourcesNeedAnExample` | signatures_talk/__init__.py:12-13 | on a table built by registrations, assigning a suite's `'sources'` fails exactly when no registered example belongs to that suite |
| `Registry.LoadAsWritten` | signatures_talk/__init__.py:7-13 | the module body as written gives the `inspect_signatures` suite the docstring of `calling_conventions` |
| `Registry.LoadAsWrittenMislabels` | signatures_talk/__init__.py:13 | whenever both suites receive an example and the two docstrings differ, the load as written succeeds but `inspect_signatures` does not carry its own docstring |
| `Registry.Load` | signatures_talk/__init__.py:7-13 | the corrected module body: on success each of the two suites carries its own module's docstring |
| `Registry.LoadSucceeds` | signatures_talk/__init__.py:9-13 | the load succeeds exactly when both the `calling_conventions` and the `inspect_signatures` suite received an example |
| `Registry.LoadIsValid` | signatures_talk/__init__.py:9-13 | a successful load gives a valid table: the key order lists each suite exactly once and names exactly the suites of the map |
| `Registry.LoadFilesEachSuite` | signatures_talk/__init__.py:9-13 | after a successful load each suite holds exactly its own examples, in declaration order |
| `Registry.TalkMap.constructor` | signatures_talk/__init__.py:7 | `talk_map = {}` starts empty and valid |
| `Registry.TalkMap.Include` | signatures_talk/__init__.py:2-6 | `include` returns its argument unchanged and updates the table in place exactly as `Registered` says; the suite's list gains the example at its end |
| `Registry.TalkMap.SetSources` | signatures_talk/__init__.py:12-13 | the nested assignment reports `KeyError` and changes nothing when the suite is absent, and otherwise updates the table as `WithSources` says |
| `Registry.TalkMap.IncludeAll` | signatures_talk/__init__.py:9-10 | applying the decorator to each example in declaration order leaves the table as `RegisterAll` says |
| `Registry.LoadTalkMap` | signatures_talk/__init__.py:7-13 | the import-time code with line 13 corrected (see Findings) yields a fresh valid table equal to `Load`, or the `KeyError` that `Load` reports |
| `Talk.CodeExampleLines` | talk.py:61-65 | for line-break-free source lines, the listing has exactly one line per source line, in order, each being the listing prefix (a bar, four spaces and `>> `) followed by that line |
| `Talk.CodeExampleRoundTrip` | talk.py:63-64 | stripping the prefix from the listing's lines recovers the source lines |
| `Talk.CodeExampleNoTrailingNewline` | talk.py:62 | a listing of at least one line does not end with a newline |
| `Talk.CreateHeader` | talk.py:49-58 | the header fails with `KeyError('sources')` exactly when the suite has no `'sources'`; otherwise it is non-empty and ends with a newline |
| `Talk.HeaderLayout` | talk.py:50-58 | for any sources text, including a docstring that begins and ends with a line break, line by line the header is: the title, the lines of `| Sources: ` followed by the sources text, a line holding only the bar, the suite name with the example number, the listing's lines, the prompt naming `example()`, the `N`/`Next` hint, and nothing after the final newline |
| `Talk.HeaderIndexIsOneBased` | talk.py:54 | the number shown in the suite-index line reads back as `index + 1` |
| `Talk.RunSuite` | talk.py:40-46 | one visit per example, in list order, with index `i` and the header `CreateHeader` gives for position `i`. A suite with examples but no sources stops with `KeyError` before its first visit |
| `Talk.RunAll` | talk.py:35-37 | the suites are visited in `talk_map` insertion order, and the walk stops at the first error, as `SuitesRun` says |
| `Talk.RunNamed` | talk.py:74-76 | a name missing from `talk_map` fails with `KeyError(name)` before any visit; otherwise that one suite is run |
| `Talk.SuitesRunStops` | talk.py:35-37 | once a suite has raised, no later suite is visited |
| `Talk.EachSuiteOnce` | talk.py:35-41 | in a walk without error over distinct suite names, the visits of each suite are exactly that suite's own visits: every example once, in list order |
| `Talk.SuitesInOrder` | talk.py:36-37 | a visit of an earlier suite never comes after a visit of a later suite |
| `Fields.LazyStructure.constructor` | signatures_talk/using_signatures.py:43-45 | the instance's attributes are what `setattr` over `zip(_FIELDS, args)` leaves, pair by pair |
| `Fields.ZipAssignKeys` | signatures_talk/using_signatures.py:44-45 | the attributes set by the first `n` pairs are exactly the first `n` field names |
| `Fields.LazyInitSetsPairedPrefix` | signatures_talk/using_signatures.py:44-45 | with distinct field names, an attribute is set exactly when it is a field name at a position below both lengths, and field `i` then holds argument `i` |
| `Fields.ExtraArgsIgnored` | signatures_talk/using_signatures.py:44 | positional arguments beyond the field names do not change the instance |
| `Fields.UnsuppliedFieldRaises` | signatures_talk/using_signatures.py:66-70 | a field beyond the supplied arguments is unset, so reading it raises `AttributeError` |
| `Fields.CacheNameInjective` | signatures_talk/using_signatures.py:147 | two fields with different names never share a cache attribute |
| `Fields.Field.Lookup` | signatures_talk/using_signatures.py:147-151 | a read through an instance never gives the field itself. It raises `AttributeError(name)` exactly when nothing is cached and the default is `empty` |
| `Fields.Field.Get` | signatures_talk/using_signatures.py:144-151 | a read gives the field itself exactly when there is no instance; any exception it raises is `AttributeError` for this field |
| `Fields.Field.Store` | signatures_talk/using_signatures.py:153-166 | a write succeeds exactly when the annotation accepts the value, and otherwise raises `TypeError`. On success the field's cache attribute holds the value written, and every other attribute is present and keeps its value exactly when it was before |
| `Fields.Field.Set` | signatures_talk/using_signatures.py:153-166 | `__set__` writes the cache as `Store` says, and a rejected value leaves the instance unchanged |
| `Fields.SetThenGet` | signatures_talk/using_signatures.py:147-166 | after a successful write, a read gives exactly the value written, whatever the default |
| `Fields.SetLeavesOtherFields` | signatures_talk/using_signatures.py:165-166 | a write through one field does not change what a field of another name reads |
| `Fields.UnsetFieldReadsDefault` | signatures_talk/using_signatures.py:147-150 | a field never written reads as its default, or raises `AttributeError` when the default is `empty` |
| `Fields.SignatureOf` | signatures_talk/using_signatures.py:171-175 | the signature has no more parameters than the class body has values |
| `Fields.SignatureInDefinitionOrder` | signatures_talk/using_signatures.py:171-175 | the signature lists exactly the parameter values of the class body, each once, at strictly increasing positions of the body, so in definition order |

## Left out

- The interactive shell (`IPython.embed`), its configuration, the `globals()` injection of the example and the `N`/`Next` sentinels (talk.py:27-30, 42-46). Each session is one `Visit` event, and the speaker decides when it ends.
- Command-line parsing with `docopt`, logging, `sys.exit` and the handling of `KeyboardInterrupt`/`SystemExit` (talk.py:32, 68-73, 77-79). These are process control. Only the lookup of a named suite (talk.py:74-76) is modelled, as `RunNamed`.
- `inspect.getsource(...).splitlines()` (talk.py:64). An example carries its source lines as data, so the model does not derive them from code. The lemmas about the listing assume lines without line breaks, which `splitlines` guarantees.
- `Text.Title`: it models `str.title()` for ASCII letters only. Any other character counts as uncased and is left unchanged, whereas Python applies the full Unicode case tables.
- A `None` docstring would render as the text `None`. The model takes `'sources'` as the text it renders to.
- Aliasing of the suite dicts and example lists inside `talk_map`. No other reference to them exists in the source, so the model holds them as values.
- `Signature.bind`, the `Signature` and `Parameter` constructors, and `Signature`'s check that parameters come in a valid order (signatures_talk/using_signatures.py:85-108, 171, 180). This is library behaviour. `SignatureOf` gives the parameter sequence handed to `Signature`. The `__init__` methods that bind arguments through a signature are not modelled.
- `isinstance` against typing generics and `TypingMeta.__extra__`/`__args__` (signatures_talk/using_signatures.py:154-164). Both checks become one predicate `isInstance(value, annotation)` supplied by the caller, and both failures are one `TypeError`.
- A cache attribute that itself holds `Parameter.empty`: in the model the cache holds only values. It is reachable only by bypassing `__set__`, or through an annotation that accepts the sentinel.
- `Fields.LazyInitSetsPairedPrefix` and `Fields.UnsuppliedFieldRaises` assume distinct `_FIELDS` names. With a repeated name the later `setattr` wins. The constructor models that, but the lemmas do not state it.
- `Talk.EachSuiteOnce` and `Talk.SuitesInOrder` assume distinct suite names. `talk_map`'s keys always are (`Table.Valid`).
- Reading an unset attribute of a lazy structure is modelled on the instance dictionary only. Class attributes that Python's attribute lookup would also find are not modelled.
- The demonstration code itself: the `print` calls, the deliberate mistakes such as `user.goups` (signatures_talk/using_signatures.py:60, 114), and the modules signatures_talk/calling_conventions.py and signatures_talk/inspect_signatures.py. These only exercise Python's own argument binding and introspection. signatures_talk/using_signatures.py is not imported by signatures_talk/__init__.py, so its `@include` example never reaches `talk_map` at run time. The model registers whatever examples it is given.

## Findings

| source | as written | input that shows it | evidently intended | confidence | as-written member | corrected member |
|---|---|---|---|---|---|---|
| signatures_talk/__init__.py:13 | the `'sources'` of the `inspect_signatures` suite is set to `calling_conventions.__doc__` | any load in which both suites receive an example and the two module docstrings differ. The `inspect_signatures` suite is then labelled `"\nFirst lets talk in the same language\n"` instead of its own `"\nSource from: https://docs.python.org/3/library/inspect.html\n"` (each docstring begins and ends with a line break) | `inspect_signatures.__doc__`, as line 12 does for its own suite | likely; not executed | `Registry.LoadAsWrittenMislabels` | `Registry.Load` |
