/**
 The items themselves: what a failed test, a diagnostic and an unused export are
 reported as, how copies are numbered, and what a file of items holds.
 */
module Reports {
  import opened Common
  import Numerals
  import opened Text
  import opened Ordinals
  import opened Baseline
  import opened Collect

  // ---------------------------------------------------------------------------- text

  /** White space: the characters that `trim` takes off. */
  lemma SpacesAre(u: unit)
    ensures IsSpace(u) <==>
            u in {0x09, 0x0A, 0x0B, 0x0C, 0x0D, 0x20, 0xA0, 0x1680, 0x2000, 0x2001, 0x2002, 0x2003, 0x2004, 0x2005, 0x2006,
                  0x2007, 0x2008, 0x2009, 0x200A, 0x2028, 0x2029, 0x202F, 0x205F, 0x3000, 0xFEFF}
  {
  }

  ghost predicate IsBlank(t: text) { forall u :: u in t ==> IsSpace(u) }

  lemma TrimsTheStart(t: text) returns (before: text)
    ensures t == before + TrimStart(t) && IsBlank(before)
  {
    TrimStartKeeps(t);
    before := t[..|t| - |TrimStart(t)|];
  }

  lemma TrimsTheEnd(t: text) returns (behind: text)
    ensures t == TrimEnd(t) + behind && IsBlank(behind)
  {
    TrimEndKeeps(t);
    behind := t[|TrimEnd(t)|..];
  }

  /** Trimming takes the white space off both ends, and nothing else. */
  lemma TrimsTheEnds(t: text) returns (before: text, behind: text)
    ensures t == before + Trim(t) + behind && IsBlank(before) && IsBlank(behind) && IsTrimmed(Trim(t))
  {
    before := TrimsTheStart(t);
    behind := TrimsTheEnd(TrimStart(t));
    TrimIsTrimmed(t);
  }

  /** Collapsing makes one blank of every run of white space, and nothing else of a text that is trimmed. */
  lemma {:induction false} SqueezesEveryRun(a: text, gap: text, b: text)
    requires gap != [] && IsBlank(gap) && a != [] && !IsSpace(a[|a| - 1]) && b != [] && !IsSpace(b[0])
    ensures Squeeze(a + gap + b) == Squeeze(a) + [0x20] + Squeeze(b)
    decreases |a|
  {
    var x, rest, tail := a[0], a[1..], a[1..] + gap + b;
    assert a == [x] + rest;
    assert a + gap + b == [x] + tail;
    if rest == [] {
      assert tail == gap + b;
      SqueezesLast(x, gap, b);
    } else {
      SqueezesEveryRun(rest, gap, b);
      SqueezesOneMore(x, rest, tail, Squeeze(b));
    }
  }

  lemma SqueezesLast(x: unit, gap: text, b: text)
    requires gap != [] && IsBlank(gap) && b != [] && !IsSpace(b[0]) && !IsSpace(x)
    ensures Squeeze([x] + (gap + b)) == Squeeze([x]) + [0x20] + Squeeze(b)
  {
    SqueezesGap(gap, b);
    SqueezesFirst(x, gap + b);
    SqueezesNothing([x]);
  }

  lemma SqueezesOneMore(x: unit, rest: text, tail: text, squeezed: text)
    requires rest != [] && tail != [] && tail[0] == rest[0] && Squeeze(tail) == Squeeze(rest) + [0x20] + squeezed
    ensures Squeeze([x] + tail) == Squeeze([x] + rest) + [0x20] + squeezed
  {
    SqueezesFirst(x, rest);
    SqueezesFirst(x, tail);
    Regrouped(FirstOf(x, rest[0]), Squeeze(rest), squeezed);
  }

  lemma Regrouped(a: text, b: text, c: text)
    ensures a + (b + [0x20] + c) == a + b + [0x20] + c
  {
  }

  /** What is left of a unit in front of another. */
  function FirstOf(x: unit, next: unit): text { if !IsSpace(x) then [x] else if IsSpace(next) then [] else [BLANK] }

  lemma SqueezesFirst(x: unit, rest: text)
    requires rest != []
    ensures Squeeze([x] + rest) == FirstOf(x, rest[0]) + Squeeze(rest)
  {
    assert ([x] + rest)[1..] == rest;
  }

  lemma {:induction false} SqueezesGap(gap: text, b: text)
    requires gap != [] && IsBlank(gap) && b != [] && !IsSpace(b[0])
    ensures Squeeze(gap + b) == [0x20] + Squeeze(b)
  {
    assert gap[0] in gap;
    assert (gap + b)[1..] == gap[1..] + b;
    if |gap| > 1 {
      assert gap[1] in gap;
      SqueezesGap(gap[1..], b);
    } else {
      assert gap[1..] + b == b;
    }
  }

  lemma {:induction false} SqueezesNothing(t: text)
    requires forall u :: u in t ==> !IsSpace(u)
    ensures Squeeze(t) == t
  {
    if t != [] {
      assert t[0] in t;
      SqueezesNothing(t[1..]);
    }
  }

  /** What is kept is the first 120 code units. */
  lemma CutsAt120(t: text)
    ensures Collapse(t) <= Squeeze(Trim(t)) && |Collapse(t)| <= 120
    ensures |Collapse(t)| < 120 ==> Collapse(t) == Squeeze(Trim(t))
  {
  }

  /** A file keeps U+FFFD of a surrogate that is not one of a pair. */
  lemma ReplacesLoneSurrogates(t: text)
    ensures t != [] && 0xD800 <= t[0] < 0xE000 && !(t[0] < 0xDC00 && |t| > 1 && 0xDC00 <= t[1] < 0xE000) ==>
              Scalars(t) == ['\U{FFFD}'] + Scalars(t[1..])
  {
  }

  // --------------------------------------------------------------------------- files

  function Broken(items: seq<text>): seq<text> { seq(|items|, i requires 0 <= i < |items| => items[i] + [0x0A]) }

  lemma BreaksFirst(first: text, rest: seq<text>)
    ensures Concat(Broken([first] + rest)) == first + [0x0A] + Concat(Broken(rest))
  {
    assert Broken([first] + rest) == [first + [0x0A]] + Broken(rest);
    ConcatFirst(first + [0x0A], Broken(rest));
  }

  /** The file of some items is each of them on a line of its own. */
  lemma {:induction false} WritesLines(items: seq<text>)
    ensures Lines(items) == Concat(Broken(items))
  {
    if items != [] {
      WritesLines(items[1..]);
      LinesGrow(items);
      BreaksFirst(items[0], items[1..]);
      assert items == [items[0]] + items[1..];
    }
  }

  lemma {:induction false} SplitsApart(t: text, at: unit)
    ensures Join(Text.Split(t, at), [at]) == t
    ensures forall part :: part in Text.Split(t, at) ==> at !in part
  {
    if t != [] {
      SplitsApart(t[1..], at);
      var parts := Text.Split(t[1..], at);
      JoinsInFront(t[0], parts, at);
      assert t == [t[0]] + t[1..];
      forall part | part in Text.Split(t, at)
        ensures at !in part
      {
        if t[0] != at && part !in parts {
          assert part == [t[0]] + parts[0] && parts[0] in parts;
        }
      }
    }
  }

  lemma JoinsInFront(x: unit, parts: seq<text>, at: unit)
    requires parts != []
    ensures Join(InFront(x, parts, at), [at]) == [x] + Join(parts, [at])
  {
    if x == at {
      assert ([[]] + parts)[1..] == parts;
    } else {
      var more := [[x] + parts[0]] + parts[1..];
      assert more[1..] == parts[1..];
    }
  }

  function Trimmed(lines: seq<text>): seq<text> { seq(|lines|, i requires 0 <= i < |lines| => Trim(lines[i])) }

  lemma {:induction false} KeptAre(lines: seq<text>)
    ensures Kept(lines) == Only(Trimmed(lines), (line: text) => line != [])
  {
    if lines != [] {
      KeptAre(lines[1..]);
      assert Trimmed(lines) == [Trim(lines[0])] + Trimmed(lines[1..]);
      OnlyFirst(Trim(lines[0]), Trimmed(lines[1..]), (line: text) => line != []);
    }
  }

  /** The items of a file are its lines, trimmed, without the empty ones. */
  lemma ReadsLines(content: string) returns (lines: seq<text>)
    ensures Join(lines, [0x0A]) == Units(content) && forall line :: line in lines ==> 0x0A !in line
    ensures Read(content) == Only(Trimmed(lines), (line: text) => line != [])
  {
    lines := Text.Split(Units(content), BREAK);
    SplitsApart(Units(content), BREAK);
    KeptAre(lines);
  }

  // ------------------------------------------------------------------------- ordinals

  /** Texts stand in the order of the first code unit in which they differ; a text stands before what it begins. */
  lemma {:induction false} OrdersByUnits(a: text, b: text, i: nat)
    requires i <= |a| && i <= |b| && a[..i] == b[..i]
    ensures i == |a| ==> AtMost(a, b)
    ensures i < |a| && i < |b| && a[i] < b[i] ==> AtMost(a, b) && !AtMost(b, a)
    ensures i < |a| && i == |b| ==> !AtMost(a, b)
    decreases i
  {
    if i > 0 {
      assert a[0] == a[..i][0] == b[..i][0] == b[0];
      assert a[1..][..i - 1] == a[..i][1..] && b[1..][..i - 1] == b[..i][1..];
      OrdersByUnits(a[1..], b[1..], i - 1);
    }
  }

  lemma LabelIs(key: text, n: nat)
    ensures Label(key, n) == if n == 1 then key else key + [0x20, 0x23] + Units(Numerals.Show(n, 10))
  {
  }

  lemma RankIs(keys: seq<text>, i: nat)
    requires i < |keys|
    ensures Rank(keys, i) == multiset(keys[..i])[keys[i]] + 1
  {
    assert keys[..i + 1] == keys[..i] + [keys[i]];
  }

  /** The first copy of a key keeps it; another one has a blank, a hash and its number behind it. */
  lemma NumbersCopies(keys: seq<text>, i: nat)
    requires i < |keys|
    ensures |Sorted(keys)| == |WithOrdinals(keys)| == |keys|
    ensures var key, n := Sorted(keys)[i], multiset(Sorted(keys)[..i])[Sorted(keys)[i]] + 1;
            WithOrdinals(keys)[i] == if n == 1 then key else key + [0x20, 0x23] + Units(Numerals.Show(n, 10))
  {
    var sorted := Sorted(keys);
    SortedSorts(keys);
    NumberedAt(sorted, i);
    RankIs(sorted, i);
    LabelIs(sorted[i], Rank(sorted, i));
  }

  // --------------------------------------------------------------------------- items

  /** Parts set apart by two colons between blanks. */
  function Apart(a: text, b: text): text { a + [0x20, 0x3A, 0x3A, 0x20] + b }

  function FailedNames(assertions: seq<Assertion>): seq<text> {
    var failed := Only(assertions, (a: Assertion) => a.failed);
    seq(|failed|, i requires 0 <= i < |failed| => failed[i].fullName)
  }

  function Behind(head: text, tails: seq<text>): seq<text> {
    seq(|tails|, i requires 0 <= i < |tails| => Apart(head, tails[i]))
  }

  lemma {:induction false} NamedAre(head: text, assertions: seq<Assertion>)
    ensures Named(head, assertions) == Behind(head, FailedNames(assertions))
  {
    if assertions != [] {
      var first, rest := assertions[0], assertions[1..];
      NamedAre(head, rest);
      OnlyFirst(first, rest, (a: Assertion) => a.failed);
      assert assertions == [first] + rest;
      assert FailedNames(assertions) == (if first.failed then [first.fullName] else []) + FailedNames(rest);
    }
  }

  /**
   A file is reported by suite, path and name of each failed test, in their order; a file
   that failed without one, by its message collapsed; and no other file.
   */
  lemma ReportsFailures(suite: text, file: TestFile)
    ensures var head, names := Apart(suite, file.path), FailedNames(file.assertions);
            var message := if file.message.Some? then file.message.value else Units("failed without a message");
            FailuresIn(suite, file)
            == if names != [] then Behind(head, names) else if file.failed then [Apart(head, Collapse(message))] else []
  {
    NamedAre(suite + COLONS + file.path, file.assertions);
  }

  /** A suite reports its files one after the other. */
  lemma {:induction false} ReportsEveryFile(suite: text, files: seq<TestFile>)
    ensures VitestFailures(suite, files)
         == Concat(seq(|files|, i requires 0 <= i < |files| => FailuresIn(suite, files[i])))
  {
    if files != [] {
      var first, rest := FailuresIn(suite, files[0]), files[1..];
      ReportsEveryFile(suite, rest);
      var parts := seq(|rest|, i requires 0 <= i < |rest| => FailuresIn(suite, rest[i]));
      ConcatFirst(first, parts);
      assert seq(|files|, i requires 0 <= i < |files| => FailuresIn(suite, files[i])) == [first] + parts;
    }
  }

  /** Line n of a source, counted from 1, collapsed; nothing for a file or a line that is not there. */
  lemma ShowsTheLine(source: text -> Option<string>, path: text, line: nat, lines: seq<text>)
    requires source(path).Some? ==> Units(source(path).value) == Join(lines, [0x0A])
    requires lines != [] && forall l :: l in lines ==> 0x0A !in l
    ensures SourceLine(source, path, line)
         == if source(path).Some? && 1 <= line <= |lines| then Collapse(lines[line - 1]) else []
  {
    SplitsJoined(lines);
  }

  /** A diagnostic is reported by category, path and the line it is at. */
  lemma ShowsTheDiagnostic(source: text -> Option<string>, d: Diagnostic)
    ensures var path := if d.path.Some? then d.path.value else Units("<unknown>");
            DiagnosticItem(source, d) == Apart(Apart(d.category, path), SourceLine(source, path, d.line))
  {
  }

  lemma {:induction false} SplitsJoined(lines: seq<text>)
    requires lines != [] && forall line :: line in lines ==> 0x0A !in line
    ensures Text.Split(Join(lines, [0x0A]), BREAK) == lines
  {
    if |lines| == 1 {
      OnePart(lines[0], BREAK);
    } else {
      var rest := Join(lines[1..], [0x0A]);
      SplitsJoined(lines[1..]);
      SplitJoins(lines[0], rest, BREAK);
      OnePart(lines[0], BREAK);
    }
  }

  /** An unused file is named once, anything else behind its file. */
  lemma ShowsTheFinding(f: Finding)
    ensures FindingItem(f) == if f.name == f.file then Apart(f.kind, f.file) else Apart(Apart(f.kind, f.file), f.name)
  {
  }

  // -------------------------------------------------------------------------- scopes

  /** The suites that failed with nothing to show for it. */
  function Silent(outcomes: seq<SuiteOutcome>): seq<SuiteOutcome> {
    Only(outcomes, (o: SuiteOutcome) => o.red && |o.items| == 0)
  }

  function NamesOf(outcomes: seq<SuiteOutcome>): seq<text> {
    seq(|outcomes|, i requires 0 <= i < |outcomes| => outcomes[i].suite)
  }

  function ItemsOf(outcomes: seq<SuiteOutcome>): seq<seq<text>> {
    seq(|outcomes|, i requires 0 <= i < |outcomes| => outcomes[i].items)
  }

  lemma {:induction false} UnattributedAre(outcomes: seq<SuiteOutcome>)
    ensures Unattributed(outcomes) == NamesOf(Silent(outcomes))
  {
    if outcomes != [] {
      var first, rest := outcomes[0], outcomes[1..];
      UnattributedAre(rest);
      assert outcomes == [first] + rest;
      OnlyFirst(first, rest, (o: SuiteOutcome) => o.red && |o.items| == 0);
      if first.red && |first.items| == 0 {
        assert Silent(outcomes) == [first] + Silent(rest);
        assert NamesOf([first] + Silent(rest)) == [first.suite] + NamesOf(Silent(rest));
      } else {
        assert Silent(outcomes) == Silent(rest);
      }
    }
  }

  lemma {:induction false} AllItemsAre(outcomes: seq<SuiteOutcome>)
    ensures AllItems(outcomes) == Concat(ItemsOf(outcomes))
  {
    if outcomes != [] {
      var first, rest := outcomes[0], outcomes[1..];
      AllItemsAre(rest);
      ConcatFirst(first.items, ItemsOf(rest));
      assert ItemsOf(outcomes) == [first.items] + ItemsOf(rest);
    }
  }

  /** The items of all suites in their order, or an error that names the suites that show nothing. */
  lemma AttributesEvery(outcomes: seq<SuiteOutcome>)
    ensures Attributed(outcomes)
         == if Silent(outcomes) == [] then Ok(Concat(ItemsOf(outcomes)))
            else Err(Units("red with no attributable failure: ") + Join(NamesOf(Silent(outcomes)), [0x2C, 0x20]))
  {
    UnattributedAre(outcomes);
    AllItemsAre(outcomes);
  }

  function Outcome(suite: string, run: SuiteRun): SuiteOutcome {
    SuiteOutcome(Units(suite), run.red, VitestFailures(Units(suite), run.files))
  }

  function Run(world: World, suite: string): SuiteOutcome { Outcome(suite, world.suite(Units(suite))) }

  function SidecarRun(world: World): SuiteOutcome {
    SuiteOutcome(Units("sidecar"), world.isSidecarRed,
      seq(|world.sidecar|, i requires 0 <= i < |world.sidecar| =>
        Apart(Apart(Units("sidecar"), world.sidecar[i].path), world.sidecar[i].name)))
  }

  /** The unit suites some of whose test files changed. */
  function ChangedRuns(world: World): seq<SuiteOutcome> {
    var app, ui := world.changed(Units("app")), world.changed(Units("ui"));
    (if app.Some? then [Outcome("app", app.value)] else []) + (if ui.Some? then [Outcome("ui", ui.value)] else [])
  }

  /** The tests of some suites, if each that is red shows an item, and the stories there are. */
  function Tests(outcomes: seq<SuiteOutcome>, stories: Option<seq<text>>): Result<Live, text> {
    match Attributed(outcomes)
    case Ok(items) =>
      if stories.None? then Ok([AreaItems("tests", items)])
      else Ok([AreaItems("tests", items), AreaItems("stories", stories.value)])
    case Err(message) => Err(message)
  }

  lemma OneRan(world: World, ran: text -> Option<SuiteRun>, suite: string)
    requires ran == Ran(world)
    ensures ran(Units(suite)).Some? && OutcomeOf(Units(suite), ran(Units(suite)).value) == Run(world, suite)
  {
  }

  lemma RunsAre(world: World, ran: text -> Option<SuiteRun>, suites: seq<text>)
    requires ran == Ran(world) && suites == VITEST_SUITES
    ensures Outcomes(suites, ran) == [Run(world, "app"), Run(world, "ui"), Run(world, "website")]
  {
    OneRan(world, ran, "app");
    OneRan(world, ran, "ui");
    OneRan(world, ran, "website");
    OutcomesAre(suites, ran);
  }

  lemma StorybookRan(world: World, ran: text -> Option<SuiteRun>, suites: seq<text>)
    requires ran == Ran(world) && suites == [STORYBOOK]
    ensures Outcomes(suites, ran) == [Run(world, "storybook")]
  {
    OneRan(world, ran, "storybook");
    OutcomesAre(suites, ran);
  }

  lemma {:induction false} OutcomesAre(suites: seq<text>, run: text -> Option<SuiteRun>)
    requires forall suite :: suite in suites ==> run(suite).Some?
    ensures Outcomes(suites, run) == seq(|suites|, i requires 0 <= i < |suites| => OutcomeOf(suites[i], run(suites[i]).value))
  {
    if suites != [] {
      OutcomesAre(suites[1..], run);
      assert suites[0] in suites;
    }
  }

  /** What each scope reports, and of which suites. */
  lemma ScopesReport(world: World)
    ensures CollectScope(Vitest, world)
         == Tests([Run(world, "app"), Run(world, "ui"), Run(world, "website"), SidecarRun(world)], Some(world.stories))
    ensures CollectScope(Storybook, world) == Tests([Run(world, "storybook")], None)
    ensures CollectScope(Changed, world) == Tests(ChangedRuns(world), None)
  {
    var ran := Ran(world);
    RunsAre(world, ran, VITEST_SUITES);
    StorybookRan(world, ran, [STORYBOOK]);
    VitestIs(world, ran);
    StorybookIs(world, ran);
    ChangedIs(world);
  }

  lemma VitestIs(world: World, ran: text -> Option<SuiteRun>)
    requires ran == Ran(world) && Outcomes(VITEST_SUITES, ran) == [Run(world, "app"), Run(world, "ui"), Run(world, "website")]
    ensures CollectScope(Vitest, world)
         == Tests([Run(world, "app"), Run(world, "ui"), Run(world, "website"), SidecarRun(world)], Some(world.stories))
  {
    var last := SidecarOutcome(world.sidecar, world.isSidecarRed);
    SidecarIs(world.sidecar, world.isSidecarRed);
    OneBehind(Run(world, "app"), Run(world, "ui"), Run(world, "website"), last);
    assert Outcomes(VITEST_SUITES, Ran(world)) + [last] == [Run(world, "app"), Run(world, "ui"), Run(world, "website"), last];
    assert last == SidecarRun(world);
  }

  lemma OneBehind<T>(a: T, b: T, c: T, d: T)
    ensures [a, b, c] + [d] == [a, b, c, d]
  {
  }

  lemma SidecarIs(cases: seq<TestCase>, red: bool)
    ensures SidecarOutcome(cases, red)
         == SuiteOutcome(Units("sidecar"), red,
              seq(|cases|, i requires 0 <= i < |cases| => Apart(Apart(Units("sidecar"), cases[i].path), cases[i].name)))
  {
    forall i | 0 <= i < |cases|
      ensures SidecarOutcome(cases, red).items[i] == Apart(Apart(Units("sidecar"), cases[i].path), cases[i].name)
    {
    }
  }

  lemma StorybookIs(world: World, ran: text -> Option<SuiteRun>)
    requires ran == Ran(world) && Outcomes([STORYBOOK], ran) == [Run(world, "storybook")]
    ensures CollectScope(Storybook, world) == Tests([Run(world, "storybook")], None)
  {
  }

  lemma ChangedIs(world: World)
    ensures CollectScope(Changed, world) == Tests(ChangedRuns(world), None)
  {
    TwoOutcomes(Units("app"), Units("ui"), UNIT_SUITES, world.changed);
  }

  lemma TwoOutcomes(a: text, b: text, suites: seq<text>, run: text -> Option<SuiteRun>)
    requires suites == [a, b]
    ensures Outcomes(suites, run)
         == (if run(a).Some? then [OutcomeOf(a, run(a).value)] else [])
            + (if run(b).Some? then [OutcomeOf(b, run(b).value)] else [])
  {
    var none: seq<text> := [];
    assert suites[1..] == [b] && [b][1..] == none;
    assert Outcomes(none, run) == [];
    assert Outcomes([b], run) == if run(b).Some? then [OutcomeOf(b, run(b).value)] else [];
  }

  lemma LintReports(world: World)
    ensures var ds, fs := world.diagnostics, world.findings;
            CollectScope(Lint, world)
            == Ok([AreaItems("biome", seq(|ds|, i requires 0 <= i < |ds| => DiagnosticItem(world.source, ds[i]))),
                   AreaItems("knip", seq(|fs|, i requires 0 <= i < |fs| => FindingItem(fs[i])))])
  {
  }

  lemma ScopesOwn()
    ensures SuitesOf(Vitest) == [Units("app"), Units("ui"), Units("website"), Units("sidecar")]
    ensures SuitesOf(Storybook) == [Units("storybook")] && SuitesOf(Lint) == []
    ensures SuitesOf(Changed) == [Units("app"), Units("ui")]
  {
  }

  // ---------------------------------------------------------------------- collecting

  function AreasOf(live: Live): seq<string> { seq(|live|, i requires 0 <= i < |live| => live[i].area) }

  /** The items of an area. */
  function ItemsIn(live: Live, area: string): seq<text> {
    Concat(seq(|live|, i requires 0 <= i < |live| => if live[i].area == area then live[i].items else []))
  }

  function NumberedOf(a: AreaItems, area: string): seq<text> { if a.area == area then WithOrdinals(a.items) else [] }

  function FoundParts(found: Live, area: string): seq<seq<text>> {
    seq(|found|, i requires 0 <= i < |found| => NumberedOf(found[i], area))
  }

  /** What a scope found of an area, its copies numbered. */
  function FoundIn(found: Live, area: string): seq<text> { Concat(FoundParts(found, area)) }

  lemma ItemsInFirst(first: AreaItems, rest: Live, area: string)
    ensures ItemsIn([first] + rest, area) == (if first.area == area then first.items else []) + ItemsIn(rest, area)
  {
    var items: seq<text> := if first.area == area then first.items else [];
    var parts := seq(|rest|, i requires 0 <= i < |rest| => if rest[i].area == area then rest[i].items else []);
    ConcatFirst(items, parts);
    var all := [first] + rest;
    assert seq(|all|, i requires 0 <= i < |all| => if all[i].area == area then all[i].items else []) == [items] + parts;
  }

  lemma {:induction false} NoneOf(live: Live, area: string)
    requires area !in AreasOf(live)
    ensures ItemsIn(live, area) == []
  {
    if live != [] {
      assert live == [live[0]] + live[1..] && AreasOf(live)[0] == live[0].area;
      assert AreasOf(live) == [live[0].area] + AreasOf(live[1..]);
      ItemsInFirst(live[0], live[1..], area);
      NoneOf(live[1..], area);
    }
  }

  lemma {:induction false} AddsItems(live: Live, area: string, items: seq<text>, other: string)
    requires HasDistinctAreas(live)
    ensures ItemsIn(Add(live, area, items), other) == ItemsIn(live, other) + (if other == area then items else [])
  {
    var more: seq<text> := if other == area then items else [];
    if live == [] {
      ItemsInFirst(AreaItems(area, items), [], other);
      assert Add(live, area, items) == [AreaItems(area, items)] + [];
    } else {
      var first, rest := live[0], live[1..];
      assert live == [first] + rest;
      ItemsInFirst(first, rest, other);
      if first.area == area {
        AreaIsFirst(first, rest);
        NoneOf(rest, area);
        ItemsInFirst(AreaItems(area, first.items + items), rest, other);
      } else {
        AddsItems(rest, area, items, other);
        ItemsInFirst(first, Add(rest, area, items), other);
        Associates(if first.area == other then first.items else [], ItemsIn(rest, other), more);
      }
    }
  }

  lemma AreaIsFirst(first: AreaItems, rest: Live)
    requires HasDistinctAreas([first] + rest)
    ensures first.area !in AreasOf(rest)
  {
    forall i | 0 <= i < |rest|
      ensures rest[i].area != first.area
    {
      assert ([first] + rest)[i + 1] == rest[i] && ([first] + rest)[0] == first;
    }
  }

  /** A new area comes last. */
  lemma {:induction false} AddsArea(live: Live, area: string, items: seq<text>)
    ensures AreasOf(Add(live, area, items)) == AreasOf(live) + (if area in AreasOf(live) then [] else [area])
  {
    if live != [] {
      var first, rest := live[0], live[1..];
      assert AreasOf(live) == [first.area] + AreasOf(rest);
      AddsArea(rest, area, items);
      if first.area != area {
        assert AreasOf([first] + Add(rest, area, items)) == [first.area] + AreasOf(Add(rest, area, items));
      }
    }
  }

  lemma ConcatLast(parts: seq<seq<text>>, last: seq<text>)
    ensures Concat(parts + [last]) == Concat(parts) + last
  {
    assert (parts + [last])[..|parts|] == parts;
  }

  lemma FoundInLast(init: Live, last: AreaItems, area: string)
    ensures FoundIn(init + [last], area) == FoundIn(init, area) + NumberedOf(last, area)
  {
    ConcatLast(FoundParts(init, area), NumberedOf(last, area));
    assert FoundParts(init + [last], area) == FoundParts(init, area) + [NumberedOf(last, area)];
  }

  /** What adding what was found does to an area. */
  predicate IsAdded(live: Live, found: Live, area: string) {
    ItemsIn(AddNumbered(live, found), area) == ItemsIn(live, area) + FoundIn(found, area)
  }

  lemma NothingIsAdded(live: Live, area: string)
    ensures IsAdded(live, [], area)
  {
    assert ItemsIn(live, area) + [] == ItemsIn(live, area);
  }

  lemma {:induction false} AddsUpTo(live: Live, found: Live, area: string, n: nat)
    requires HasDistinctAreas(live) && n <= |found|
    ensures IsAdded(live, found[..n], area)
  {
    if n == 0 {
      NothingIsAdded(live, area);
    } else {
      AddsUpTo(live, found, area, n - 1);
      var init, last := found[..n - 1], found[n - 1];
      AddsOneMore(live, init, last, area);
      assert found[..n] == init + [last];
    }
  }

  lemma AddsFound(live: Live, found: Live, area: string)
    requires HasDistinctAreas(live)
    ensures ItemsIn(AddNumbered(live, found), area) == ItemsIn(live, area) + FoundIn(found, area)
  {
    AddsUpTo(live, found, area, |found|);
    assert found[..|found|] == found;
  }

  lemma AddsLast(live: Live, init: Live, last: AreaItems)
    ensures AddNumbered(live, init + [last]) == Add(AddNumbered(live, init), last.area, WithOrdinals(last.items))
  {
    assert (init + [last])[..|init|] == init;
  }

  lemma AddsOneMore(live: Live, init: Live, last: AreaItems, area: string)
    requires HasDistinctAreas(live)
    requires IsAdded(live, init, area)
    ensures IsAdded(live, init + [last], area)
  {
    var before := AddNumbered(live, init);
    AddNumberedKeepsDistinct(live, init);
    AddsLast(live, init, last);
    AddsTheLast(before, last, area);
    FoundInLast(init, last, area);
    Regroups(ItemsIn(live, area), FoundIn(init, area), NumberedOf(last, area), ItemsIn(before, area));
  }

  lemma Regroups(a: seq<text>, b: seq<text>, c: seq<text>, both: seq<text>)
    requires both == a + b
    ensures both + c == a + (b + c)
  {
  }

  lemma AddsTheLast(live: Live, last: AreaItems, area: string)
    requires HasDistinctAreas(live)
    ensures ItemsIn(Add(live, last.area, WithOrdinals(last.items)), area) == ItemsIn(live, area) + NumberedOf(last, area)
  {
    AddsItems(live, last.area, WithOrdinals(last.items), area);
  }

  type Collector = Scope -> Result<Live, text>

  function Collecting(world: World): Collector { (scope: Scope) => CollectScope(scope, world) }

  /** A collection with one scope more. */
  function Next(before: Result<Collected, text>, scope: Scope, found: Result<Live, text>): Result<Collected, text> {
    match (before, found)
    case (Ok(c), Ok(live)) => Ok(Collected(AddNumbered(c.live, live), c.suites + SuitesOf(scope)))
    case (Ok(_), Err(message)) => Err(message)
    case (Err(message), _) => Err(message)
  }

  lemma GathersNext(scopes: seq<Scope>, world: World)
    requires scopes != []
    ensures var init, last := scopes[..|scopes| - 1], scopes[|scopes| - 1];
            Gather(scopes, world) == Next(Gather(init, world), last, Collecting(world)(last))
  {
  }

  /** What a scope found, or nothing when it threw. */
  function Found(collect: Collector, scope: Scope): Live {
    if collect(scope).Ok? then collect(scope).value else []
  }

  function FoundByAll(collect: Collector, scopes: seq<Scope>, area: string): seq<seq<text>> {
    seq(|scopes|, i requires 0 <= i < |scopes| => FoundIn(Found(collect, scopes[i]), area))
  }

  function SuitesOfAll(scopes: seq<Scope>): seq<seq<text>> {
    seq(|scopes|, i requires 0 <= i < |scopes| => SuitesOf(scopes[i]))
  }

  lemma FoundByAllLast(collect: Collector, init: seq<Scope>, last: Scope, area: string)
    ensures Concat(FoundByAll(collect, init + [last], area))
         == Concat(FoundByAll(collect, init, area)) + FoundIn(Found(collect, last), area)
  {
    ConcatLast(FoundByAll(collect, init, area), FoundIn(Found(collect, last), area));
    assert FoundByAll(collect, init + [last], area) == FoundByAll(collect, init, area) + [FoundIn(Found(collect, last), area)];
  }

  lemma SuitesOfAllLast(init: seq<Scope>, last: Scope)
    ensures Concat(SuitesOfAll(init + [last])) == Concat(SuitesOfAll(init)) + SuitesOf(last)
  {
    ConcatLast(SuitesOfAll(init), SuitesOf(last));
    assert SuitesOfAll(init + [last]) == SuitesOfAll(init) + [SuitesOf(last)];
  }

  type Gatherer = seq<Scope> -> Result<Collected, text>

  function Gathering(world: World): Gatherer { (scopes: seq<Scope>) => Gather(scopes, world) }

  /** Collecting one scope more is collecting it behind the others. */
  predicate GathersLast(gather: Gatherer, collect: Collector, scopes: seq<Scope>) {
    if scopes == [] then gather(scopes).Ok?
    else gather(scopes) == Next(gather(scopes[..|scopes| - 1]), scopes[|scopes| - 1], collect(scopes[|scopes| - 1]))
  }

  ghost predicate GathersBy(gather: Gatherer, collect: Collector) {
    forall scopes :: GathersLast(gather, collect, scopes)
  }

  lemma GathersByCollecting(world: World)
    ensures GathersBy(Gathering(world), Collecting(world))
  {
    var gather, collect := Gathering(world), Collecting(world);
    forall scopes
      ensures GathersLast(gather, collect, scopes)
    {
      if scopes != [] {
        GathersNext(scopes, world);
      }
    }
  }

  /** Of each area what every scope found, scope after scope, and the suites of all. */
  ghost predicate HoldsByArea(collect: Collector, scopes: seq<Scope>, area: string, c: Collected) {
    && HasDistinctAreas(c.live)
    && ItemsIn(c.live, area) == Concat(FoundByAll(collect, scopes, area))
    && c.suites == Concat(SuitesOfAll(scopes))
  }

  lemma HoldsOneMore(collect: Collector, init: seq<Scope>, last: Scope, area: string, before: Collected, found: Live)
    requires HoldsByArea(collect, init, area, before) && collect(last) == Ok(found)
    ensures HoldsByArea(collect, init + [last], area,
      Collected(AddNumbered(before.live, found), before.suites + SuitesOf(last)))
  {
    AddsFound(before.live, found, area);
    AddNumberedKeepsDistinct(before.live, found);
    FoundByAllLast(collect, init, last, area);
    SuitesOfAllLast(init, last);
  }

  lemma {:induction false} CollectsWith(gather: Gatherer, collect: Collector, scopes: seq<Scope>, area: string)
    requires GathersBy(gather, collect) && gather([]) == Ok(Collected([], [])) && gather(scopes).Ok?
    ensures HoldsByArea(collect, scopes, area, gather(scopes).value)
  {
    if scopes != [] {
      var init, last := scopes[..|scopes| - 1], scopes[|scopes| - 1];
      assert GathersLast(gather, collect, scopes);
      assert gather(init).Ok? && collect(last).Ok?;
      CollectsWith(gather, collect, init, area);
      var before, found := gather(init).value, collect(last).value;
      HoldsOneMore(collect, init, last, area, before, found);
      assert scopes == init + [last];
      assert gather(scopes).value == Collected(AddNumbered(before.live, found), before.suites + SuitesOf(last));
    }
  }

  /**
   A collection holds of each area what every scope found of it, scope after scope, each
   scope's copies numbered by themselves, and the suites of all scopes.
   */
  lemma CollectsByArea(scopes: seq<Scope>, world: World, area: string)
    requires Gather(scopes, world).Ok?
    ensures var c := Gather(scopes, world).value;
            && HasDistinctAreas(c.live)
            && ItemsIn(c.live, area) == Concat(FoundByAll(Collecting(world), scopes, area))
            && c.suites == Concat(SuitesOfAll(scopes))
  {
    var gather, collect := Gathering(world), Collecting(world);
    GathersByCollecting(world);
    assert gather(scopes) == Gather(scopes, world) && gather([]) == Ok(Collected([], []));
    CollectsWith(gather, collect, scopes, area);
  }

  lemma {:induction false} AllAreGathered(gather: Gatherer, collect: Collector, scopes: seq<Scope>)
    requires GathersBy(gather, collect) && forall j :: 0 <= j < |scopes| ==> collect(scopes[j]).Ok?
    ensures gather(scopes).Ok?
  {
    assert GathersLast(gather, collect, scopes);
    if scopes != [] {
      AllAreGathered(gather, collect, scopes[..|scopes| - 1]);
    }
  }

  lemma {:induction false} ThrowsWith(gather: Gatherer, collect: Collector, scopes: seq<Scope>, i: nat)
    requires GathersBy(gather, collect) && i < |scopes|
    requires collect(scopes[i]).Err? && forall j :: 0 <= j < i ==> collect(scopes[j]).Ok?
    ensures gather(scopes) == Err(collect(scopes[i]).error)
    decreases |scopes|
  {
    var init := scopes[..|scopes| - 1];
    assert GathersLast(gather, collect, scopes);
    if i < |init| {
      ThrowsWith(gather, collect, init, i);
    } else {
      AllAreGathered(gather, collect, init);
    }
  }

  /** It throws the message of the first scope that does, and only then. */
  lemma ThrowsTheFirst(scopes: seq<Scope>, world: World, i: nat)
    requires i <= |scopes| && forall j :: 0 <= j < i ==> Collecting(world)(scopes[j]).Ok?
    requires i < |scopes| ==> Collecting(world)(scopes[i]).Err?
    ensures if i < |scopes| then Gather(scopes, world) == Err(Collecting(world)(scopes[i]).error)
            else Gather(scopes, world).Ok?
  {
    var gather, collect := Gathering(world), Collecting(world);
    GathersByCollecting(world);
    assert gather(scopes) == Gather(scopes, world);
    if i < |scopes| {
      ThrowsWith(gather, collect, scopes, i);
    } else {
      AllAreGathered(gather, collect, scopes);
    }
  }
}
