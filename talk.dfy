/**
 * The talk driver: the header shown above each example (suite title, the
 * suite's sources, the 1-based example number, the example's source listing
 * and the prompt) and the walk over the suites and their examples.
 *
 * Each example is presented by starting an interactive shell that the
 * speaker leaves by hand; here that session is the `Visit` event the walk
 * records, carrying the header the shell would have shown.
 */
module Talk {
  import opened Wrappers
  import opened Text
  import opened Registry

  // ---------------------------------------------------------------------------
  // Rendering
  // ---------------------------------------------------------------------------

  /** What every line of a source listing starts with. */
  const LinePrefix: string := "|    >> "

  /** The listing lines, one per source line. */
  function RenderLines(lines: seq<string>): seq<string>
  {
    seq(|lines|, i requires 0 <= i < |lines| => LinePrefix + lines[i])
  }

  /** The source listing of an example: each source line behind the prefix,
      the lines joined by single newlines. */
  function CodeExample(lines: seq<string>): string
  {
    Join(RenderLines(lines), '\n')
  }

  /** Reads a listing back into source lines: every line must carry the
      prefix; the empty listing is the one of no lines. */
  function ParseCodeExample(text: string): Option<seq<string>>
  {
    if |text| == 0 then Some([])
    else
      var parts := Split(text, '\n');
      if forall i :: 0 <= i < |parts| ==> LinePrefix <= parts[i]
      then Some(seq(|parts|, i requires 0 <= i < |parts| => parts[i][|LinePrefix|..]))
      else None
  }

  /** A line holds no line break. */
  predicate OneLine(s: string) { '\n' !in s }

  predicate AllOneLine(lines: seq<string>)
  {
    forall i :: 0 <= i < |lines| ==> OneLine(lines[i])
  }

  lemma RenderedLinesAreLines(lines: seq<string>)
    requires AllOneLine(lines)
    ensures AllOneLine(RenderLines(lines))
  {
    forall i | 0 <= i < |lines| ensures OneLine(RenderLines(lines)[i]) {
      assert RenderLines(lines)[i] == LinePrefix + lines[i];
    }
  }

  /** For source lines without line breaks (as `splitlines` produces) the
      listing has exactly one line per source line, in the same order, each
      being the prefix followed by that source line. */
  lemma CodeExampleLines(lines: seq<string>)
    requires |lines| > 0
    requires AllOneLine(lines)
    ensures var parts := Split(CodeExample(lines), '\n');
      && |parts| == |lines|
      && forall i :: 0 <= i < |lines| ==> parts[i] == LinePrefix + lines[i]
  {
    RenderedLinesAreLines(lines);
    SplitJoin(RenderLines(lines), '\n');
  }

  /** Stripping the prefix from the listing's lines recovers the source
      lines. */
  lemma {:induction false} CodeExampleRoundTrip(lines: seq<string>)
    requires AllOneLine(lines)
    ensures ParseCodeExample(CodeExample(lines)) == Some(lines)
  {
    if |lines| > 0 {
      CodeExampleLines(lines);
      var text := CodeExample(lines);
      var parts := Split(text, '\n');
      JoinSplit(text, '\n');
      assert |text| > 0;
      assert forall i :: 0 <= i < |parts| ==> LinePrefix <= parts[i];
      var stripped := seq(|parts|, i requires 0 <= i < |parts| => parts[i][|LinePrefix|..]);
      assert stripped == lines;
    }
  }

  /** The listing ends with its last source line, never with a newline. */
  lemma CodeExampleNoTrailingNewline(lines: seq<string>)
    requires |lines| > 0
    requires AllOneLine(lines)
    ensures var text := CodeExample(lines);
      |text| > 0 && text[|text| - 1] != '\n'
  {
    CodeExampleLines(lines);
    var text := CodeExample(lines);
    SplitLast(text, '\n');
    var parts := Split(text, '\n');
    var last := parts[|parts| - 1];
    assert last == LinePrefix + lines[|lines| - 1];
    assert last[|last| - 1] == text[|text| - 1];
  }

  /** The fixed lines of a header, in the order they are shown. */
  function TitleLine(suiteName: string): string { "| " + Title(suiteName) + ":" }
  function SourcesLine(sources: string): string { "| Sources: " + sources }
  function IndexLine(suiteName: string, index: nat): string
  {
    "| " + suiteName + " - " + NatToString(index + 1) + "."
  }
  function PromptLine(example: Example): string { "| What will happen? >> " + example.name + "()" }
  /** The last line of the header, the same text as the literal in
      `_create_header`; written as two literals so that the absence of a
      line break is checked for each short piece on its own. */
  const NextHint: string := "| Press \"N\" or \"Next\" " + "to go to the next example"

  /** The header above one example: the seven lines of the f-string in
      `_create_header`, each followed by a line break. It looks up the
      suite's `'sources'` key, so a suite without one gives the
      `KeyError`. */
  function CreateHeader(suiteName: string, suite: Suite, index: nat, example: Example)
    : (r: Result<string, KeyError>)
    ensures r.Ok? <==> suite.sources.Some?
    ensures r.Err? ==> r.error == KeyError("sources")
    ensures r.Ok? ==> |r.value| > 0 && r.value[|r.value| - 1] == '\n'
  {
    match suite.sources
    case None => Err(KeyError("sources"))
    case Some(sources) =>
      Ok(TitleLine(suiteName) + "\n"
         + SourcesLine(sources) + "\n"
         + "|" + "\n"
         + IndexLine(suiteName, index) + "\n"
         + CodeExample(example.source) + "\n"
         + PromptLine(example) + "\n"
         + NextHint + "\n")
  }

  lemma TitleIsOneLine(s: string)
    requires OneLine(s)
    ensures OneLine(Title(s))
  {
    forall i | 0 <= i < |s| ensures Title(s)[i] != '\n' {
      TitleAt(s, i);
    }
  }

  /** The title and index lines of a suite with a one-line name are lines. */
  lemma TitleAndIndexAreLines(suiteName: string, index: nat)
    requires OneLine(suiteName)
    ensures OneLine(TitleLine(suiteName)) && OneLine(IndexLine(suiteName, index))
  {
    TitleIsOneLine(suiteName);
  }

  /** The lines of a header below the listing. */
  function TailLines(example: Example): seq<string>
  {
    [PromptLine(example), NextHint, ""]
  }

  lemma TailLinesAreLines(example: Example)
    requires OneLine(example.name)
    ensures AllOneLine(TailLines(example))
  {
    assert OneLine(PromptLine(example));
    assert OneLine(NextHint);
    assert OneLine("");
  }

  lemma TailLinesJoin(example: Example)
    ensures Join(TailLines(example), '\n') == PromptLine(example) + "\n" + (NextHint + "\n")
  {
    var tail := TailLines(example);
    assert Join(tail[2..], '\n') == "";
    assert Join(tail[1..], '\n') == NextHint + "\n" + "";
  }

  /** A header is its title, sources, bar, index line, listing and tail
      lines, each but the last followed by a line break. */
  lemma HeaderText(suiteName: string, sources: string, examples: seq<Example>, index: nat, example: Example)
    ensures CreateHeader(suiteName, Suite(examples, Some(sources)), index, example).value
         == TitleLine(suiteName) + "\n"
            + (SourcesLine(sources) + "\n"
            + ("|" + "\n"
            + (IndexLine(suiteName, index) + "\n"
            + (CodeExample(example.source) + "\n" + Join(TailLines(example), '\n')))))
  {
    TailLinesJoin(example);
    JoinRegroup(TitleLine(suiteName), SourcesLine(sources), "|", IndexLine(suiteName, index),
                CodeExample(example.source), PromptLine(example), NextHint, "\n");
  }

  /** Read line by line, a header is: the title, the lines of the sources
      text (a module docstring usually begins and ends with a line break,
      so it spans several lines), a bare `|`, the suite name with the
      1-based example number, the listing's lines, the prompt naming
      `example()`, the hint about `N`/`Next`, and nothing after the final
      newline. */
  lemma HeaderLayout(suiteName: string, sources: string, examples: seq<Example>, index: nat, example: Example)
    requires OneLine(suiteName) && OneLine(example.name)
    ensures var r := CreateHeader(suiteName, Suite(examples, Some(sources)), index, example);
      && r.Ok?
      && Split(r.value, '\n') ==
           [TitleLine(suiteName)]
           + Split(SourcesLine(sources), '\n')
           + ["|", IndexLine(suiteName, index)]
           + Split(CodeExample(example.source), '\n')
           + [PromptLine(example), NextHint, ""]
  {
    HeaderText(suiteName, sources, examples, index, example);
    TitleAndIndexAreLines(suiteName, index);
    TailLinesAreLines(example);
    SplitJoin(TailLines(example), '\n');
    assert OneLine("|");
    SplitFramed(TitleLine(suiteName), SourcesLine(sources), "|", IndexLine(suiteName, index),
                CodeExample(example.source), Join(TailLines(example), '\n'), TailLines(example), '\n');
  }

  /** The example number in a header is one more than the position of the
      example in its suite, and reads back as that number. */
  lemma HeaderIndexIsOneBased(suiteName: string, index: nat)
    ensures var line := IndexLine(suiteName, index);
      var digits := line[|"| " + suiteName + " - "|..|line| - 1];
      && (forall i :: 0 <= i < |digits| ==> IsDigit(digits[i]))
      && ParseNat(digits) == index + 1
  {
    var line := IndexLine(suiteName, index);
    assert line[|"| " + suiteName + " - "|..|line| - 1] == NatToString(index + 1);
    ParseNatToString(index + 1);
  }

  // ---------------------------------------------------------------------------
  // Walking the suites
  // ---------------------------------------------------------------------------

  /** One interactive session: the suite, the 0-based position of the
      example in it, the example, and the header shown above the prompt. */
  datatype Visit = Visit(suite: string, index: nat, example: Example, header: string)

  /** The sessions a walk opened, and the error that ended it early, if
      any. */
  datatype Run = Run(visits: seq<Visit>, error: Option<KeyError>)

  /** The walk over one suite: one session per example, in list order.
      Every header looks up the suite's `'sources'`, so a suite that has
      examples but no sources stops before its first session. */
  function SuiteRun(suiteName: string, suite: Suite): Run
  {
    var n := |suite.examples|;
    if n > 0 && suite.sources.None? then Run([], Some(KeyError("sources")))
    else
      Run(seq(n, i requires 0 <= i < n =>
            Visit(suiteName, i, suite.examples[i], CreateHeader(suiteName, suite, i, suite.examples[i]).value)),
          None)
  }

  /** The walk over the named suites one after another, stopping at the
      first error. */
  function SuitesRun(names: seq<string>, suites: map<string, Suite>): Run
    requires forall k :: k in names ==> k in suites
  {
    if |names| == 0 then Run([], None)
    else
      var before := SuitesRun(names[..|names| - 1], suites);
      if before.error.Some? then before
      else
        var last := names[|names| - 1];
        var here := SuiteRun(last, suites[last]);
        Run(before.visits + here.visits, here.error)
  }

  /** `_run_suite`: one shell session per example of the suite, with the
      example's header. */
  method RunSuite(suiteName: string, suite: Suite) returns (visits: seq<Visit>, err: Option<KeyError>)
    ensures err.Some? <==> |suite.examples| > 0 && suite.sources.None?
    ensures err.Some? ==> err.value == KeyError("sources") && visits == []
    ensures err.None? ==> |visits| == |suite.examples|
    ensures forall i :: 0 <= i < |visits| ==>
      && visits[i].suite == suiteName
      && visits[i].index == i
      && visits[i].example == suite.examples[i]
      && CreateHeader(suiteName, suite, i, suite.examples[i]) == Ok(visits[i].header)
    ensures Run(visits, err) == SuiteRun(suiteName, suite)
  {
    visits, err := [], None;
    var index := 0;
    while index < |suite.examples|
      invariant 0 <= index <= |suite.examples|
      invariant |visits| == index
      invariant index > 0 ==> suite.sources.Some?
      invariant forall i :: 0 <= i < index ==>
        visits[i] == Visit(suiteName, i, suite.examples[i],
                           CreateHeader(suiteName, suite, i, suite.examples[i]).value)
        && CreateHeader(suiteName, suite, i, suite.examples[i]).Ok?
    {
      var example := suite.examples[index];
      var header := CreateHeader(suiteName, suite, index, example);
      if header.Err? {
        err := Some(header.error);
        return;
      }
      visits := visits + [Visit(suiteName, index, example, header.value)];
      index := index + 1;
    }
  }

  /** `_run_all`: every suite of `talk_map`, in the table's insertion
      order. An error (a suite without sources) ends the walk; the sessions
      already held stay held. */
  method RunAll(talk: TalkMap) returns (visits: seq<Visit>, err: Option<KeyError>)
    requires talk.Valid()
    ensures Run(visits, err) == SuitesRun(talk.order, talk.suites)
  {
    visits, err := [], None;
    var p := 0;
    while p < |talk.order|
      invariant 0 <= p <= |talk.order|
      invariant Run(visits, err) == SuitesRun(talk.order[..p], talk.suites)
      invariant err.None?
    {
      var name := talk.order[p];
      assert talk.order[..p + 1][..p] == talk.order[..p];
      var more, e := RunSuite(name, talk.suites[name]);
      visits := visits + more;
      p := p + 1;
      if e.Some? {
        err := e;
        SuitesRunStops(talk.order, talk.suites, p);
        return;
      }
    }
    assert talk.order[..p] == talk.order;
  }

  /** The command line naming one suite: `talk_map[name]` raises the
      `KeyError` for a name that is not registered, before any session. */
  method RunNamed(talk: TalkMap, name: string) returns (visits: seq<Visit>, err: Option<KeyError>)
    requires talk.Valid()
    ensures name !in talk.suites ==> visits == [] && err == Some(KeyError(name))
    ensures name in talk.suites ==> Run(visits, err) == SuiteRun(name, talk.suites[name])
  {
    if name !in talk.suites {
      return [], Some(KeyError(name));
    }
    visits, err := RunSuite(name, talk.suites[name]);
  }

  /** Once a walk has stopped on an error, the remaining suites are not
      visited. */
  lemma {:induction false} SuitesRunStops(names: seq<string>, suites: map<string, Suite>, n: nat)
    requires forall k :: k in names ==> k in suites
    requires n <= |names|
    requires SuitesRun(names[..n], suites).error.Some?
    ensures SuitesRun(names, suites) == SuitesRun(names[..n], suites)
  {
    if n < |names| {
      assert names[..|names| - 1][..n] == names[..n];
      SuitesRunStops(names[..|names| - 1], suites, n);
    } else {
      assert names[..n] == names;
    }
  }

  // ---------------------------------------------------------------------------
  // Properties of the walk
  // ---------------------------------------------------------------------------

  /** The sessions of a walk that belong to the suite `name`. */
  function VisitsOf(visits: seq<Visit>, name: string): (r: seq<Visit>)
    ensures |r| <= |visits|
  {
    if |visits| == 0 then []
    else
      VisitsOf(visits[..|visits| - 1], name)
      + (if visits[|visits| - 1].suite == name then [visits[|visits| - 1]] else [])
  }

  lemma {:induction false} VisitsOfConcat(xs: seq<Visit>, ys: seq<Visit>, name: string)
    ensures VisitsOf(xs + ys, name) == VisitsOf(xs, name) + VisitsOf(ys, name)
  {
    if |ys| > 0 {
      VisitsOfConcat(xs, ys[..|ys| - 1], name);
      assert (xs + ys)[..|xs + ys| - 1] == xs + ys[..|ys| - 1];
    } else {
      assert xs + ys == xs;
    }
  }

  lemma {:induction false} VisitsOfAll(visits: seq<Visit>, name: string)
    requires forall i :: 0 <= i < |visits| ==> visits[i].suite == name
    ensures VisitsOf(visits, name) == visits
  {
    if |visits| > 0 {
      VisitsOfAll(visits[..|visits| - 1], name);
    }
  }

  lemma {:induction false} VisitsOfNone(visits: seq<Visit>, name: string)
    requires forall i :: 0 <= i < |visits| ==> visits[i].suite != name
    ensures VisitsOf(visits, name) == []
  {
    if |visits| > 0 {
      VisitsOfNone(visits[..|visits| - 1], name);
    }
  }

  /** Every session of a walk over `names` belongs to one of them. */
  lemma {:induction false} SuitesRunFrom(names: seq<string>, suites: map<string, Suite>)
    requires forall k :: k in names ==> k in suites
    ensures forall i :: 0 <= i < |SuitesRun(names, suites).visits| ==>
      SuitesRun(names, suites).visits[i].suite in names
  {
    if |names| > 0 {
      var init := names[..|names| - 1];
      SuitesRunFrom(init, suites);
      forall k | k in init ensures k in names {
        var j :| 0 <= j < |init| && init[j] == k;
        assert names[j] == k;
      }
    }
  }

  /** All sessions of a suite's walk belong to that suite. */
  lemma SuiteRunBelongs(name: string, suite: Suite)
    ensures VisitsOf(SuiteRun(name, suite).visits, name) == SuiteRun(name, suite).visits
  {
    var vs := SuiteRun(name, suite).visits;
    assert forall i :: 0 <= i < |vs| ==> vs[i].suite == name;
    VisitsOfAll(vs, name);
  }

  /** A suite's walk holds no session of another suite. */
  lemma SuiteRunExcludes(name: string, suite: Suite, other: string)
    requires other != name
    ensures VisitsOf(SuiteRun(name, suite).visits, other) == []
  {
    var vs := SuiteRun(name, suite).visits;
    assert forall i :: 0 <= i < |vs| ==> vs[i].suite == name;
    VisitsOfNone(vs, other);
  }

  /** A walk that ends without error shows each listed suite exactly
      once: the sessions of suite `names[p]` are exactly that suite's own
      sessions, every example once, in list order. */
  lemma {:induction false} EachSuiteOnce(names: seq<string>, suites: map<string, Suite>, p: nat)
    requires forall k :: k in names ==> k in suites
    requires forall i, j :: 0 <= i < j < |names| ==> names[i] != names[j]
    requires p < |names|
    requires SuitesRun(names, suites).error.None?
    ensures VisitsOf(SuitesRun(names, suites).visits, names[p]) == SuiteRun(names[p], suites[names[p]]).visits
  {
    var init, last := names[..|names| - 1], names[|names| - 1];
    var before := SuitesRun(init, suites);
    var here := SuiteRun(last, suites[last]);
    assert before.error.None?;
    assert SuitesRun(names, suites).visits == before.visits + here.visits;
    VisitsOfConcat(before.visits, here.visits, names[p]);
    if p == |names| - 1 {
      SuitesRunFrom(init, suites);
      forall i | 0 <= i < |before.visits| ensures before.visits[i].suite != last {
        var j :| 0 <= j < |init| && init[j] == before.visits[i].suite;
        assert names[j] == init[j];
      }
      VisitsOfNone(before.visits, last);
      SuiteRunBelongs(last, suites[last]);
    } else {
      PrefixKeepsNames(names, init, suites);
      EachSuiteOnce(init, suites, p);
      assert init[p] == names[p];
      SuiteRunExcludes(last, suites[last], names[p]);
    }
  }

  /** The position of `name` among `names` (the first one). */
  function IndexOf(names: seq<string>, name: string): (r: nat)
    requires name in names
    ensures r < |names| && names[r] == name
    ensures forall j :: 0 <= j < r ==> names[j] != name
  {
    if names[0] == name then 0 else 1 + IndexOf(names[1..], name)
  }

  lemma IndexOfPrefix(names: seq<string>, n: nat, name: string)
    requires n <= |names| && name in names[..n]
    ensures IndexOf(names[..n], name) == IndexOf(names, name)
  {
    var r := IndexOf(names[..n], name);
    assert names[r] == name;
  }

  /** Suites are shown in the order of `names`: a session of an earlier
      suite never comes after a session of a later one. */
  lemma {:induction false} SuitesInOrder(names: seq<string>, suites: map<string, Suite>, i: nat, j: nat)
    requires forall k :: k in names ==> k in suites
    requires forall a, b :: 0 <= a < b < |names| ==> names[a] != names[b]
    requires i <= j < |SuitesRun(names, suites).visits|
    ensures SuitesRun(names, suites).visits[i].suite in names
    ensures SuitesRun(names, suites).visits[j].suite in names
    ensures IndexOf(names, SuitesRun(names, suites).visits[i].suite)
         <= IndexOf(names, SuitesRun(names, suites).visits[j].suite)
  {
    SuitesRunFrom(names, suites);
    var init, last := names[..|names| - 1], names[|names| - 1];
    var before := SuitesRun(init, suites);
    var vs := SuitesRun(names, suites).visits;
    if before.error.Some? || j < |before.visits| {
      PrefixKeepsNames(names, init, suites);
      SuitesInOrder(init, suites, i, j);
      IndexOfPrefix(names, |names| - 1, vs[i].suite);
      IndexOfPrefix(names, |names| - 1, vs[j].suite);
    } else {
      var here := SuiteRun(last, suites[last]);
      assert vs[j] == here.visits[j - |before.visits|];
      assert IndexOf(names, vs[j].suite) == |names| - 1;
    }
  }

  /** The suite names before the last one still name suites of the map,
      and are still distinct. */
  lemma PrefixKeepsNames(names: seq<string>, init: seq<string>, suites: map<string, Suite>)
    requires |names| > 0 && init == names[..|names| - 1]
    requires forall k :: k in names ==> k in suites
    requires forall a, b :: 0 <= a < b < |names| ==> names[a] != names[b]
    ensures forall k :: k in init ==> k in suites
    ensures forall a, b :: 0 <= a < b < |init| ==> init[a] != init[b]
  {
    forall k | k in init ensures k in suites {
      var j :| 0 <= j < |init| && init[j] == k;
      assert names[j] == k;
    }
  }
}
