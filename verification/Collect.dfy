/**
 What a run of some scopes reports: the failures of its suites, the stories, the
 diagnostics and the unused exports, as items of the baseline's areas.
 */
module Collect {
  import opened Common
  import opened Ordinals
  import opened Baseline
  import Numerals
  import opened Text

  datatype Scope = Vitest | Storybook | Lint | Changed

  datatype Assertion = Assertion(fullName: text, failed: bool)

  datatype TestFile = TestFile(path: text, failed: bool, message: Option<text>, assertions: seq<Assertion>)

  datatype SuiteRun = SuiteRun(files: seq<TestFile>, red: bool)

  datatype TestCase = TestCase(path: text, name: text)

  datatype SuiteOutcome = SuiteOutcome(suite: text, red: bool, items: seq<text>)

  /** A diagnostic; line 0 stands for one without a place in its file. */
  datatype Diagnostic = Diagnostic(category: text, path: Option<text>, line: nat)

  datatype Finding = Finding(kind: text, file: text, name: text)

  /** What the tools answer. `changed` has no run of a suite none of whose test files changed. */
  datatype World = World(
    suite: text -> SuiteRun, changed: text -> Option<SuiteRun>, sidecar: seq<TestCase>, isSidecarRed: bool,
    stories: seq<text>, diagnostics: seq<Diagnostic>, source: text -> Option<string>, findings: seq<Finding>)

  const APP := Units("app")
  const UI := Units("ui")
  const WEBSITE := Units("website")
  const STORYBOOK := Units("storybook")
  const SIDECAR := Units("sidecar")
  const VITEST_SUITES := [APP, UI, WEBSITE]
  const UNIT_SUITES := [APP, UI]

  function SuitesOf(scope: Scope): seq<text> {
    match scope
    case Vitest => VITEST_SUITES + [SIDECAR]
    case Storybook => [STORYBOOK]
    case Lint => []
    case Changed => UNIT_SUITES
  }

  // ------------------------------------------------------------------------ items

  function Named(head: text, assertions: seq<Assertion>): seq<text> {
    if assertions == [] then []
    else
      (if assertions[0].failed then [head + COLONS + assertions[0].fullName] else [])
      + Named(head, assertions[1..])
  }

  const NO_MESSAGE := Units("failed without a message")

  function FailuresIn(suite: text, file: TestFile): seq<text> {
    var head := suite + COLONS + file.path;
    var named := Named(head, file.assertions);
    if named != [] then named
    else if !file.failed then []
    else [head + COLONS + Collapse(if file.message.Some? then file.message.value else NO_MESSAGE)]
  }

  function VitestFailures(suite: text, files: seq<TestFile>): seq<text> {
    if files == [] then [] else FailuresIn(suite, files[0]) + VitestFailures(suite, files[1..])
  }

  function OutcomeOf(suite: text, run: SuiteRun): SuiteOutcome {
    SuiteOutcome(suite, run.red, VitestFailures(suite, run.files))
  }

  function SidecarOutcome(cases: seq<TestCase>, red: bool): SuiteOutcome {
    SuiteOutcome(SIDECAR, red,
                 seq(|cases|, i requires 0 <= i < |cases| => SIDECAR + COLONS + cases[i].path + COLONS + cases[i].name))
  }

  function SourceLine(source: text -> Option<string>, path: text, line: nat): text {
    match source(path)
    case None => []
    case Some(content) =>
      var lines := Text.Split(Units(content), BREAK);
      if 1 <= line <= |lines| then Collapse(lines[line - 1]) else []
  }

  const UNKNOWN_PATH := Units("<unknown>")

  function DiagnosticItem(source: text -> Option<string>, d: Diagnostic): text {
    var path := if d.path.Some? then d.path.value else UNKNOWN_PATH;
    d.category + COLONS + path + COLONS + SourceLine(source, path, d.line)
  }

  function FindingItem(f: Finding): text {
    if f.name == f.file then f.kind + COLONS + f.file else f.kind + COLONS + f.file + COLONS + f.name
  }

  // ----------------------------------------------------------------------- scopes

  /** The suites that are red without an item to show for it. */
  function Unattributed(outcomes: seq<SuiteOutcome>): seq<text> {
    if outcomes == [] then []
    else (if outcomes[0].red && outcomes[0].items == [] then [outcomes[0].suite] else []) + Unattributed(outcomes[1..])
  }

  function AllItems(outcomes: seq<SuiteOutcome>): seq<text> {
    if outcomes == [] then [] else outcomes[0].items + AllItems(outcomes[1..])
  }

  const COMMA: text := [0x2C, BLANK]

  function Attributed(outcomes: seq<SuiteOutcome>): Result<seq<text>, text> {
    var unattributed := Unattributed(outcomes);
    if unattributed == [] then Ok(AllItems(outcomes))
    else Err(Units("red with no attributable failure: ") + Join(unattributed, COMMA))
  }

  function Outcomes(suites: seq<text>, run: text -> Option<SuiteRun>): seq<SuiteOutcome> {
    if suites == [] then []
    else
      (match run(suites[0]) case None => [] case Some(r) => [OutcomeOf(suites[0], r)]) + Outcomes(suites[1..], run)
  }

  /** Every suite has a run. */
  function Ran(world: World): text -> Option<SuiteRun> { (suite: text) => Some(world.suite(suite)) }

  function CollectScope(scope: Scope, world: World): Result<Live, text> {
    var ran := Ran(world);
    match scope
    case Vitest =>
      (match Attributed(Outcomes(VITEST_SUITES, ran) + [SidecarOutcome(world.sidecar, world.isSidecarRed)])
       case Err(message) => Err(message)
       case Ok(items) => Ok([AreaItems(TESTS, items), AreaItems(STORIES, world.stories)]))
    case Storybook =>
      (match Attributed(Outcomes([STORYBOOK], ran))
       case Err(message) => Err(message)
       case Ok(items) => Ok([AreaItems(TESTS, items)]))
    case Lint =>
      var ds, fs := world.diagnostics, world.findings;
      Ok([AreaItems("biome", seq(|ds|, i requires 0 <= i < |ds| => DiagnosticItem(world.source, ds[i]))),
          AreaItems("knip", seq(|fs|, i requires 0 <= i < |fs| => FindingItem(fs[i])))])
    case Changed =>
      (match Attributed(Outcomes(UNIT_SUITES, world.changed))
       case Err(message) => Err(message)
       case Ok(items) => Ok([AreaItems(TESTS, items)]))
  }

  // ------------------------------------------------------------------- collecting

  datatype Collected = Collected(live: Live, suites: seq<text>)

  /** Items added behind those an area already has; a new area comes last. */
  function Add(live: Live, area: string, items: seq<text>): Live {
    if live == [] then [AreaItems(area, items)]
    else if live[0].area == area then [AreaItems(area, live[0].items + items)] + live[1..]
    else [live[0]] + Add(live[1..], area, items)
  }

  function AddNumbered(live: Live, found: Live): Live {
    if found == [] then live
    else
      var a := found[|found| - 1];
      Add(AddNumbered(live, found[..|found| - 1]), a.area, WithOrdinals(a.items))
  }

  function Gather(scopes: seq<Scope>, world: World): Result<Collected, text> {
    if scopes == [] then Ok(Collected([], []))
    else
      match Gather(scopes[..|scopes| - 1], world)
      case Err(message) => Err(message)
      case Ok(c) =>
        var scope := scopes[|scopes| - 1];
        match CollectScope(scope, world)
        case Err(message) => Err(message)
        case Ok(found) => Ok(Collected(AddNumbered(c.live, found), c.suites + SuitesOf(scope)))
  }

  lemma {:induction false} GatherStops(scopes: seq<Scope>, world: World, i: nat)
    requires i <= |scopes| && Gather(scopes[..i], world).Err?
    ensures Gather(scopes, world) == Gather(scopes[..i], world)
  {
    if i < |scopes| {
      var init := scopes[..|scopes| - 1];
      assert init[..i] == scopes[..i];
      GatherStops(init, world, i);
    } else {
      assert scopes[..i] == scopes;
    }
  }

  method AddFound(live: Live, found: Live) returns (r: Live)
    ensures r == AddNumbered(live, found)
  {
    r := live;
    for i := 0 to |found|
      invariant r == AddNumbered(live, found[..i])
    {
      var numbered := NumberCopies(found[i].items);
      assert found[..i + 1][..i] == found[..i];
      r := Add(r, found[i].area, numbered);
    }
    assert found[..|found|] == found;
  }

  /** `collect`, or the message of the first scope that throws. */
  method CollectAll(scopes: seq<Scope>, world: World) returns (r: Result<Collected, text>)
    ensures r == Gather(scopes, world)
  {
    var live: Live, suites: seq<text> := [], [];
    for i := 0 to |scopes|
      invariant Gather(scopes[..i], world) == Ok(Collected(live, suites))
    {
      assert scopes[..i + 1][..i] == scopes[..i];
      match CollectScope(scopes[i], world) {
        case Err(message) =>
          GatherStops(scopes, world, i + 1);
          return Err(message);
        case Ok(found) =>
          live := AddFound(live, found);
          suites := suites + SuitesOf(scopes[i]);
      }
    }
    assert scopes[..|scopes|] == scopes;
    r := Ok(Collected(live, suites));
  }

  // ------------------------------------------------------------------- attribution

  predicate IsGreen(file: TestFile) {
    !file.failed && forall a :: a in file.assertions ==> !a.failed
  }

  lemma {:induction false} NamedAreTheFailed(head: text, assertions: seq<Assertion>)
    ensures Named(head, assertions) == [] <==> forall a :: a in assertions ==> !a.failed
    ensures forall a :: a in assertions && a.failed ==> head + COLONS + a.fullName in Named(head, assertions)
  {
    if assertions != [] {
      NamedAreTheFailed(head, assertions[1..]);
      assert assertions == [assertions[0]] + assertions[1..];
    }
  }

  lemma FileShows(suite: text, file: TestFile)
    ensures FailuresIn(suite, file) == [] <==> IsGreen(file)
  {
    NamedAreTheFailed(suite + COLONS + file.path, file.assertions);
  }

  /** A suite reports nothing exactly when all its files are green. */
  lemma {:induction false} SilentSuitesAreGreen(suite: text, files: seq<TestFile>)
    ensures VitestFailures(suite, files) == [] <==> forall file :: file in files ==> IsGreen(file)
  {
    if files != [] {
      SilentSuitesAreGreen(suite, files[1..]);
      FileShows(suite, files[0]);
      assert files == [files[0]] + files[1..];
    }
  }

  /** Every failed test is reported by suite, file and name. */
  lemma {:induction false} FailedTestsShow(suite: text, files: seq<TestFile>, file: TestFile, a: Assertion)
    requires file in files && a in file.assertions && a.failed
    ensures suite + COLONS + file.path + COLONS + a.fullName in VitestFailures(suite, files)
  {
    if file == files[0] {
      NamedAreTheFailed(suite + COLONS + file.path, file.assertions);
    } else {
      FailedTestsShow(suite, files[1..], file, a);
    }
  }

  lemma {:induction false} UnattributedAreRed(outcomes: seq<SuiteOutcome>)
    ensures Unattributed(outcomes) != [] <==> exists o :: o in outcomes && o.red && o.items == []
  {
    if outcomes != [] {
      UnattributedAreRed(outcomes[1..]);
      assert outcomes == [outcomes[0]] + outcomes[1..];
    }
  }

  lemma {:induction false} AllItemsHave(outcomes: seq<SuiteOutcome>, x: text)
    ensures x in AllItems(outcomes) <==> exists o :: o in outcomes && x in o.items
  {
    if outcomes != [] {
      AllItemsHave(outcomes[1..], x);
      assert outcomes == [outcomes[0]] + outcomes[1..];
    }
  }

  /** A collection throws exactly when a red suite has no item to show; otherwise it has every suite's items. */
  lemma RedSuitesAreAttributed(outcomes: seq<SuiteOutcome>)
    ensures Attributed(outcomes).Err? <==> exists o :: o in outcomes && o.red && o.items == []
    ensures Attributed(outcomes).Ok? ==>
              forall x :: x in Attributed(outcomes).value <==> exists o :: o in outcomes && x in o.items
  {
    UnattributedAreRed(outcomes);
    forall x
      ensures x in AllItems(outcomes) <==> exists o :: o in outcomes && x in o.items
    {
      AllItemsHave(outcomes, x);
    }
  }

  // --------------------------------------------------------------------- ownership

  predicate AllOwned(items: seq<text>, suites: seq<text>) {
    forall x :: x in items ==> IsOwned(x, suites)
  }

  /** Every test item is owned by a suite that ran. */
  predicate OwnsItsTests(live: Live, suites: seq<text>) {
    forall a :: a in live && a.area == TESTS ==> AllOwned(a.items, suites)
  }

  lemma Owns(suite: text, path: text, rest: text, suites: seq<text>)
    requires suite in suites
    ensures IsOwned(suite + COLONS + path + COLONS + rest, suites)
  {
    assert suite + COLONS + path + COLONS + rest == suite + COLONS + (path + COLONS + rest);
    assert suite + COLONS <= suite + COLONS + (path + COLONS + rest);
  }

  lemma {:induction false} NamedAreOwned(suite: text, path: text, assertions: seq<Assertion>, suites: seq<text>)
    requires suite in suites
    ensures AllOwned(Named(suite + COLONS + path, assertions), suites)
  {
    if assertions != [] {
      NamedAreOwned(suite, path, assertions[1..], suites);
      Owns(suite, path, assertions[0].fullName, suites);
    }
  }

  lemma FailuresAreOwned(suite: text, file: TestFile, suites: seq<text>)
    requires suite in suites
    ensures AllOwned(FailuresIn(suite, file), suites)
  {
    NamedAreOwned(suite, file.path, file.assertions, suites);
    Owns(suite, file.path, Collapse(if file.message.Some? then file.message.value else NO_MESSAGE), suites);
  }

  lemma {:induction false} SuiteIsOwned(suite: text, files: seq<TestFile>, suites: seq<text>)
    requires suite in suites
    ensures AllOwned(VitestFailures(suite, files), suites)
  {
    if files != [] {
      FailuresAreOwned(suite, files[0], suites);
      SuiteIsOwned(suite, files[1..], suites);
    }
  }

  lemma SidecarIsOwned(cases: seq<TestCase>, red: bool, suites: seq<text>)
    requires SIDECAR in suites
    ensures AllOwned(SidecarOutcome(cases, red).items, suites)
  {
    forall i | 0 <= i < |cases|
      ensures IsOwned(SIDECAR + COLONS + cases[i].path + COLONS + cases[i].name, suites)
    {
      Owns(SIDECAR, cases[i].path, cases[i].name, suites);
    }
  }

  lemma {:induction false} OutcomesAreOwned(ran: seq<text>, run: text -> Option<SuiteRun>, suites: seq<text>)
    requires forall s :: s in ran ==> s in suites
    ensures AllOwned(AllItems(Outcomes(ran, run)), suites)
  {
    if ran != [] {
      OutcomesAreOwned(ran[1..], run, suites);
      var rest := Outcomes(ran[1..], run);
      match run(ran[0]) {
        case None => assert [] + rest == rest;
        case Some(r) =>
          SuiteIsOwned(ran[0], r.files, suites);
          assert ([OutcomeOf(ran[0], r)] + rest)[1..] == rest;
      }
    }
  }

  lemma {:induction false} AllItemsOf(outcomes: seq<SuiteOutcome>, last: SuiteOutcome)
    ensures AllItems(outcomes + [last]) == AllItems(outcomes) + last.items
  {
    if outcomes == [] {
      assert [] + [last] == [last];
      assert [last][1..] == [];
    } else {
      AllItemsOf(outcomes[1..], last);
      assert (outcomes + [last])[1..] == outcomes[1..] + [last];
    }
  }

  lemma VitestIsOwned(world: World, ran: text -> Option<SuiteRun>)
    ensures AllOwned(AllItems(Outcomes(VITEST_SUITES, ran) + [SidecarOutcome(world.sidecar, world.isSidecarRed)]),
      SuitesOf(Vitest))
  {
    var suites := SuitesOf(Vitest);
    OutcomesAreOwned(VITEST_SUITES, ran, suites);
    SidecarIsOwned(world.sidecar, world.isSidecarRed, suites);
    AllItemsOf(Outcomes(VITEST_SUITES, ran), SidecarOutcome(world.sidecar, world.isSidecarRed));
  }

  lemma VitestOwnsItsTests(world: World)
    requires CollectScope(Vitest, world).Ok?
    ensures OwnsItsTests(CollectScope(Vitest, world).value, SuitesOf(Vitest))
  {
    VitestIsOwned(world, Ran(world));
  }

  lemma StorybookOwnsItsTests(world: World)
    requires CollectScope(Storybook, world).Ok?
    ensures OwnsItsTests(CollectScope(Storybook, world).value, SuitesOf(Storybook))
  {
    OutcomesAreOwned([STORYBOOK], Ran(world), SuitesOf(Storybook));
  }

  lemma ChangedOwnsItsTests(world: World)
    requires CollectScope(Changed, world).Ok?
    ensures OwnsItsTests(CollectScope(Changed, world).value, SuitesOf(Changed))
  {
    OutcomesAreOwned(UNIT_SUITES, world.changed, SuitesOf(Changed));
  }

  lemma LintOwnsNoTests(world: World)
    ensures OwnsItsTests(CollectScope(Lint, world).value, SuitesOf(Lint))
  {
  }

  lemma ScopeIsOwned(scope: Scope, world: World)
    requires CollectScope(scope, world).Ok?
    ensures OwnsItsTests(CollectScope(scope, world).value, SuitesOf(scope))
  {
    match scope {
      case Vitest => VitestOwnsItsTests(world);
      case Storybook => StorybookOwnsItsTests(world);
      case Lint => LintOwnsNoTests(world);
      case Changed => ChangedOwnsItsTests(world);
    }
  }

  lemma LabelStaysOwned(keys: seq<text>, suites: seq<text>)
    requires AllOwned(keys, suites)
    ensures AllOwned(WithOrdinals(keys), suites)
  {
    forall x | x in WithOrdinals(keys)
      ensures IsOwned(x, suites)
    {
      CopiesAreNumbered(keys, x);
      var key, n :| 1 <= n <= Count(key, keys) && x == Label(key, n);
      assert key in keys;
      var suite :| suite in suites && suite + COLONS <= key;
      assert key <= x;
    }
  }

  lemma {:induction false} AddKeepsOwned(live: Live, area: string, items: seq<text>, suites: seq<text>)
    requires OwnsItsTests(live, suites) && (area == TESTS ==> AllOwned(items, suites))
    ensures OwnsItsTests(Add(live, area, items), suites)
  {
    if live != [] {
      assert live[0] in live;
      assert forall a :: a in live[1..] ==> a in live;
      AddKeepsOwned(live[1..], area, items, suites);
    }
  }

  lemma {:induction false} AddNumberedKeepsOwned(live: Live, found: Live, suites: seq<text>)
    requires OwnsItsTests(live, suites) && OwnsItsTests(found, suites)
    ensures OwnsItsTests(AddNumbered(live, found), suites)
  {
    if found != [] {
      var init, a := found[..|found| - 1], found[|found| - 1];
      assert forall b :: b in init ==> b in found;
      AddNumberedKeepsOwned(live, init, suites);
      assert a in found;
      if a.area == TESTS {
        LabelStaysOwned(a.items, suites);
      }
      AddKeepsOwned(AddNumbered(live, init), a.area, WithOrdinals(a.items), suites);
    }
  }

  lemma MoreSuitesOwnMore(live: Live, suites: seq<text>, more: seq<text>)
    requires OwnsItsTests(live, suites) && forall s :: s in suites ==> s in more
    ensures OwnsItsTests(live, more)
  {
    forall a, x | a in live && a.area == TESTS && x in a.items
      ensures IsOwned(x, more)
    {
      assert IsOwned(x, suites);
    }
  }

  lemma {:induction false} AddsOneArea(live: Live, area: string, items: seq<text>, other: string)
    requires other != area && forall a :: a in live ==> a.area != other
    ensures forall a :: a in Add(live, area, items) ==> a.area != other
  {
    if live != [] {
      assert live[0] in live;
      AddsOneArea(live[1..], area, items, other);
    }
  }

  lemma DistinctInFront(a: AreaItems, live: Live)
    requires HasDistinctAreas(live) && forall b :: b in live ==> b.area != a.area
    ensures HasDistinctAreas([a] + live)
  {
  }

  lemma {:induction false} AddKeepsDistinct(live: Live, area: string, items: seq<text>)
    requires HasDistinctAreas(live)
    ensures HasDistinctAreas(Add(live, area, items))
  {
    if live != [] {
      var rest := live[1..];
      assert forall b :: b in rest ==> b.area != live[0].area;
      if live[0].area == area {
        DistinctInFront(AreaItems(area, live[0].items + items), rest);
      } else {
        AddKeepsDistinct(rest, area, items);
        AddsOneArea(rest, area, items, live[0].area);
        DistinctInFront(live[0], Add(rest, area, items));
      }
    }
  }

  lemma {:induction false} AddNumberedKeepsDistinct(live: Live, found: Live)
    requires HasDistinctAreas(live)
    ensures HasDistinctAreas(AddNumbered(live, found))
  {
    if found != [] {
      var init, a := found[..|found| - 1], found[|found| - 1];
      AddNumberedKeepsDistinct(live, init);
      AddKeepsDistinct(AddNumbered(live, init), a.area, WithOrdinals(a.items));
    }
  }

  /** Whatever the scopes, areas are reported once each and every test item belongs to a suite that ran. */
  lemma {:induction false} CollectedTestsAreOwned(scopes: seq<Scope>, world: World)
    requires Gather(scopes, world).Ok?
    ensures var c := Gather(scopes, world).value;
            HasDistinctAreas(c.live) && OwnsItsTests(c.live, c.suites)
  {
    if scopes != [] {
      var init, scope := scopes[..|scopes| - 1], scopes[|scopes| - 1];
      CollectedTestsAreOwned(init, world);
      ScopeIsOwned(scope, world);
      var c, found := Gather(init, world).value, CollectScope(scope, world).value;
      var suites := c.suites + SuitesOf(scope);
      MoreSuitesOwnMore(c.live, c.suites, suites);
      MoreSuitesOwnMore(found, SuitesOf(scope), suites);
      AddNumberedKeepsOwned(c.live, found, suites);
      AddNumberedKeepsDistinct(c.live, found);
    }
  }

  // ------------------------------------------------------------------ recordability

  predicate AllSafe(items: seq<text>) {
    forall x :: x in items ==> IsLineSafe(x)
  }

  predicate AreSafe(live: Live) {
    forall a :: a in live ==> AllSafe(a.items)
  }

  lemma HashKeepsWellFormed(key: text, x: text)
    requires IsWellFormed(key) && IsWellFormed(x)
    ensures IsWellFormed(key + HASH + x)
  {
    var front := key + [BLANK];
    WellFormedJoin(key, BLANK, []);
    assert key + [BLANK] + [] == front;
    WellFormedJoin(front, HASH[1], x);
    assert front + [HASH[1]] + x == key + HASH + x;
  }

  lemma LabelIsSafe(key: text, n: nat)
    requires n >= 1 && IsLineSafe(key)
    ensures IsLineSafe(Label(key, n))
  {
    if n > 1 {
      var x := Units(Numerals.Show(n, 10));
      RankUnits(n);
      HashKeepsWellFormed(key, x);
      EndsOnDigit(key, x);
    }
  }

  lemma EndsOnDigit(key: text, x: text)
    requires key != [] && !IsSpace(key[0]) && BREAK !in key
    requires x != [] && forall u :: u in x ==> 0x30 <= u <= 0x39
    ensures IsTrimmed(key + HASH + x) && BREAK !in key + HASH + x
  {
    var whole := key + HASH + x;
    assert whole[0] == key[0];
    assert whole[|whole| - 1] == x[|x| - 1] && x[|x| - 1] in x;
  }

  lemma NumberingKeepsSafe(keys: seq<text>)
    ensures AllSafe(WithOrdinals(keys)) <==> AllSafe(keys)
  {
    forall x | x in WithOrdinals(keys) && AllSafe(keys)
      ensures IsLineSafe(x)
    {
      CopiesAreNumbered(keys, x);
      var key, n :| 1 <= n <= Count(key, keys) && x == Label(key, n);
      assert key in keys;
      LabelIsSafe(key, n);
    }
    forall key | key in keys
      ensures key in WithOrdinals(keys)
    {
      CopiesAreNumbered(keys, key);
      assert 1 <= Count(key, keys) && key == Label(key, 1);
    }
  }

  lemma {:induction false} AddSafely(live: Live, area: string, items: seq<text>)
    ensures AreSafe(Add(live, area, items)) <==> AreSafe(live) && AllSafe(items)
  {
    if live == [] {
      var only := AreaItems(area, items);
      assert only in Add(live, area, items);
    } else {
      var rest, first := live[1..], live[0];
      AddSafely(rest, area, items);
      assert live == [first] + rest;
      if first.area == area {
        var joined := AreaItems(area, first.items + items);
        assert joined in [joined] + rest;
        assert AllSafe(joined.items) <==> AllSafe(first.items) && AllSafe(items) by {
          assert forall x :: x in first.items || x in items ==> x in joined.items;
        }
      }
    }
  }

  lemma SafeUpToTheLast(live: Live)
    requires live != []
    ensures AreSafe(live) <==> AreSafe(live[..|live| - 1]) && AllSafe(live[|live| - 1].items)
  {
    var last := live[|live| - 1];
    assert last in live;
    assert forall a :: a in live <==> a in live[..|live| - 1] || a == last;
  }

  lemma AddOneSafely(live: Live, a: AreaItems)
    ensures AreSafe(Add(live, a.area, WithOrdinals(a.items))) <==> AreSafe(live) && AllSafe(a.items)
  {
    AddSafely(live, a.area, WithOrdinals(a.items));
    NumberingKeepsSafe(a.items);
  }

  lemma {:induction false} AddNumberedSafely(live: Live, found: Live)
    ensures AreSafe(AddNumbered(live, found)) <==> AreSafe(live) && AreSafe(found)
  {
    if found != [] {
      var init, a := found[..|found| - 1], found[|found| - 1];
      AddNumberedSafely(live, init);
      AddOneSafely(AddNumbered(live, init), a);
      SafeUpToTheLast(found);
    }
  }

  predicate FindsSafely(scope: Scope, world: World) {
    CollectScope(scope, world).Ok? && AreSafe(CollectScope(scope, world).value)
  }

  /** Every key that every scope found fits a line. */
  predicate FindSafely(scopes: seq<Scope>, world: World) {
    scopes == [] || (FindSafely(scopes[..|scopes| - 1], world) && FindsSafely(scopes[|scopes| - 1], world))
  }

  lemma {:induction false} EachFindsSafely(scopes: seq<Scope>, world: World, scope: Scope)
    requires scope in scopes && FindSafely(scopes, world)
    ensures FindsSafely(scope, world)
  {
    var init := scopes[..|scopes| - 1];
    if scope in init {
      EachFindsSafely(init, world, scope);
    }
  }

  lemma {:induction false} CollectedSafely(scopes: seq<Scope>, world: World)
    requires Gather(scopes, world).Ok?
    ensures AreSafe(Gather(scopes, world).value.live) <==> FindSafely(scopes, world)
  {
    if scopes != [] {
      var init, scope := scopes[..|scopes| - 1], scopes[|scopes| - 1];
      CollectedSafely(init, world);
      AddNumberedSafely(Gather(init, world).value.live, CollectScope(scope, world).value);
    }
  }

  lemma SafeIsRecordable(live: Live, suites: seq<text>)
    requires OwnsItsTests(live, suites)
    ensures AreRecordable(live, suites) <==> AreSafe(live)
  {
    forall i | 0 <= i < |live|
      ensures IsRecordable(live[i], suites) <==> AllSafe(live[i].items)
    {
      assert live[i] in live;
    }
  }

  /**
   A report that was just recorded checks without a failure, and one that was just
   pruned without a notice, exactly when every key the scopes found fits a line.
   */
  lemma RecordsWhatWasFound(files: Files, scopes: seq<Scope>, world: World)
    requires Gather(scopes, world).Ok?
    ensures var c := Gather(scopes, world).value;
            var safe := FindSafely(scopes, world);
            && (Checked(Updated(files, c.live), c.live, c.suites).failures == [] <==> safe)
            && (Checked(Pruned(files, c.live, c.suites), c.live, c.suites) == Verdict([], []) <==> safe)
  {
    var c := Gather(scopes, world).value;
    CollectedTestsAreOwned(scopes, world);
    CollectedSafely(scopes, world);
    SafeIsRecordable(c.live, c.suites);
    UpdateThenCheck(files, c.live, c.suites);
    PruneThenCheck(files, c.live, c.suites);
  }

  /** A start an item can have on a line. */
  predicate IsHead(head: text) {
    head != [] && !IsSpace(head[0]) && BREAK !in head && IsWellFormed(head)
  }

  /** An end an item can have on a line. */
  predicate IsTail(tail: text) {
    tail != [] && !IsSpace(tail[|tail| - 1]) && BREAK !in tail && IsWellFormed(tail)
  }

  lemma ColonsKeepWellFormed(head: text, tail: text)
    ensures IsWellFormed(head + COLONS + tail) <==> IsWellFormed(head) && IsWellFormed(tail)
  {
    var colons: text := [0x3A, 0x3A];
    WellFormedJoin(head + [BLANK] + colons, BLANK, tail);
    WellFormedJoin(head, BLANK, colons);
    assert head + COLONS + tail == head + [BLANK] + colons + [BLANK] + tail;
    assert colons[1..] == [0x3A] && colons[1..][1..] == [];
  }

  lemma ItemIsSafe(head: text, tail: text)
    ensures IsLineSafe(head + COLONS + tail) <==> IsHead(head) && IsTail(tail)
  {
    var item := head + COLONS + tail;
    ColonsKeepWellFormed(head, tail);
    assert item[0] == if head == [] then BLANK else head[0];
    assert item[|item| - 1] == if tail == [] then BLANK else tail[|tail| - 1];
    assert BREAK in item <==> BREAK in head || BREAK in tail;
  }

  predicate IsVisible(t: text) { exists u :: u in t && !IsSpace(u) }

  /** Text that shows something, whose cut leaves it neither ending in a blank nor holding half a pair. */
  predicate FitsALine(t: text) {
    && IsVisible(t)
    && (|Squeezed(t)| > LONGEST ==> Squeezed(t)[LONGEST - 1] != BLANK)
    && IsWellFormed(Collapse(t))
  }

  lemma CollapsedIsSafe(head: text, t: text)
    ensures IsLineSafe(head + COLONS + Collapse(t)) <==> IsHead(head) && FitsALine(t)
  {
    ItemIsSafe(head, Collapse(t));
    CollapseEnds(t);
  }

  /** The last unit before the cut is neither a blank nor the first of a pair. */
  predicate IsCutClean(t: text) {
    |Squeezed(t)| > LONGEST ==> Squeezed(t)[LONGEST - 1] != BLANK && !IsHigh(Squeezed(t)[LONGEST - 1])
  }

  /** For text out of a file, the unit at the cut decides. */
  lemma FitsExactly(t: text)
    requires IsWellFormed(t)
    ensures FitsALine(t) <==> IsVisible(t) && IsCutClean(t)
  {
    CollapseEnds(t);
  }

  lemma {:induction false} NamedAreSafe(head: text, assertions: seq<Assertion>)
    ensures AllSafe(Named(head, assertions))
            <==> forall a :: a in assertions && a.failed ==> IsHead(head) && IsTail(a.fullName)
  {
    if assertions != [] {
      var first, rest := assertions[0], assertions[1..];
      NamedAreSafe(head, rest);
      ItemIsSafe(head, first.fullName);
      assert assertions == [first] + rest;
      if first.failed {
        assert Named(head, assertions)[0] == head + COLONS + first.fullName;
        assert forall x :: x in Named(head, rest) ==> x in Named(head, assertions);
      }
    }
  }

  /**
   A test file can be recorded exactly when it is green, or its suite and path start
   an item and the names of its failed tests end one, or, when none is named, the
   message it failed with does.
   */
  lemma TestFileIsRecordable(suite: text, file: TestFile)
    ensures AllSafe(FailuresIn(suite, file)) <==>
            && (IsGreen(file) || IsHead(suite + COLONS + file.path))
            && (forall a :: a in file.assertions && a.failed ==> IsTail(a.fullName))
            && (file.failed && file.message.Some? && (forall a :: a in file.assertions ==> !a.failed)
                ==> FitsALine(file.message.value))
  {
    var head := suite + COLONS + file.path;
    var message := if file.message.Some? then file.message.value else NO_MESSAGE;
    NamedAreSafe(head, file.assertions);
    NamedAreTheFailed(head, file.assertions);
    CollapsedIsSafe(head, message);
    NoMessageFits();
    if Named(head, file.assertions) == [] && file.failed {
      OneFailureIsSafe(suite, file, Collapse(message));
    }
  }

  lemma OneFailureIsSafe(suite: text, file: TestFile, tail: text)
    requires tail == Collapse(if file.message.Some? then file.message.value else NO_MESSAGE)
    requires Named(suite + COLONS + file.path, file.assertions) == [] && file.failed
    ensures AllSafe(FailuresIn(suite, file)) <==> IsLineSafe(suite + COLONS + file.path + COLONS + tail)
  {
    assert FailuresIn(suite, file) == [suite + COLONS + file.path + COLONS + tail];
  }

  lemma {:induction false} SqueezeShrinks(t: text)
    ensures |Squeeze(t)| <= |t|
  {
    if t != [] {
      SqueezeShrinks(t[1..]);
    }
  }

  lemma {:induction false} UnitsAreFew(s: string)
    ensures |Units(s)| <= 2 * |s|
  {
    if s != [] {
      UnitsAreFew(s[1..]);
    }
  }

  lemma ShortTextFits(s: string)
    requires s != [] && |s| <= 60 && s[0] as int < 0x1_0000 && !IsSpace(s[0] as int)
    ensures FitsALine(Units(s))
  {
    var t := Units(s);
    ReadTextIsWellFormed(s);
    UnitsAreFew(s);
    TrimStartKeeps(t);
    TrimEndKeeps(TrimStart(t));
    SqueezeShrinks(Trim(t));
    FitsExactly(t);
    assert t[0] == s[0] as int && t[0] in t;
  }

  lemma NoMessageFits()
    ensures FitsALine(NO_MESSAGE)
  {
    ShortTextFits("failed without a message");
  }

  /** The text of the source line a diagnostic is at, if there is one. */
  function LineAt(source: text -> Option<string>, path: text, line: nat): Option<text> {
    match source(path)
    case None => None
    case Some(content) =>
      var lines := Text.Split(Units(content), BREAK);
      if 1 <= line <= |lines| then Some(lines[line - 1]) else None
  }

  lemma LineAtIsWellFormed(source: text -> Option<string>, path: text, line: nat)
    requires LineAt(source, path, line).Some?
    ensures IsWellFormed(LineAt(source, path, line).value)
  {
    var content := source(path).value;
    ReadTextIsWellFormed(content);
    LinesAreApart(Units(content));
    var lines := Text.Split(Units(content), BREAK);
    assert lines[line - 1] in lines;
  }

  /**
   A diagnostic can be recorded exactly when its category and path start an item, and
   it is at a source line that shows something and is cut cleanly.
   */
  lemma DiagnosticIsRecordable(source: text -> Option<string>, d: Diagnostic)
    ensures var path := if d.path.Some? then d.path.value else UNKNOWN_PATH;
            var line := LineAt(source, path, d.line);
            IsLineSafe(DiagnosticItem(source, d)) <==>
            IsHead(d.category + COLONS + path) && line.Some? && IsVisible(line.value) && IsCutClean(line.value)
  {
    var path := if d.path.Some? then d.path.value else UNKNOWN_PATH;
    var head, line := d.category + COLONS + path, LineAt(source, path, d.line);
    if line.Some? {
      CollapsedIsSafe(head, line.value);
      LineAtIsWellFormed(source, path, d.line);
      FitsExactly(line.value);
    } else {
      ItemIsSafe(head, []);
    }
  }

  lemma {:induction false} RunUnits(c: char, n: nat)
    ensures var run := Units(seq(n, _ => c));
            && |run| == (if c as int < 0x1_0000 then n else 2 * n)
            && forall u :: u in run ==> u in UnitsOf(c)
  {
    if n > 0 {
      RunUnits(c, n - 1);
      assert seq(n, _ => c)[1..] == seq(n - 1, _ => c);
    }
  }

  const GRIN: char := '\U{1F600}'

  /** A line of 119 letters, a character outside the basic plane, and more: the cut splits its pair. */
  lemma SplitPairNeverFits()
    ensures var line := Units(seq(119, _ => 'x') + [GRIN] + seq(10, _ => 'x'));
            IsWellFormed(line) && !FitsALine(line)
  {
    var xs, rest := seq(119, _ => 'x'), seq(10, _ => 'x');
    ReadTextIsWellFormed(xs + [GRIN] + rest);
    RunUnits('x', 119);
    RunUnits('x', 10);
    UnitsAppend(xs + [GRIN], rest);
    UnitsAppend(xs, [GRIN]);
    assert Units([GRIN]) == UnitsOf(GRIN) + Units([]);
    assert UnitsOf('x') == [0x78] && UnitsOf(GRIN) == [0xD83D, 0xDE00];
    assert Units(xs + [GRIN] + rest) == Units(xs) + [0xD83D, 0xDE00] + Units(rest);
    CutSplitsPair(Units(xs), Units(rest));
  }

  lemma CutSplitsPair(a: text, b: text)
    requires |a| == 119 && forall u :: u in a || u in b ==> u == 0x78
    requires IsWellFormed(a + [0xD83D, 0xDE00] + b)
    ensures !FitsALine(a + [0xD83D, 0xDE00] + b)
  {
    var line := a + [0xD83D, 0xDE00] + b;
    assert forall u :: u in line ==> !IsSpace(u);
    SqueezedIsLeft(line);
    FitsExactly(line);
  }

  /** A line of 59 such characters, a letter, a blank, and more: the cut falls behind the blank. */
  lemma BlankBehindPairsNeverFits()
    ensures var line := Units(seq(59, _ => GRIN) + "x yyy");
            IsWellFormed(line) && !FitsALine(line)
  {
    var grins := seq(59, _ => GRIN);
    ReadTextIsWellFormed(grins + "x yyy");
    RunUnits(GRIN, 59);
    UnitsAppend(grins, "x yyy");
    EndOfLine();
    assert Units(grins) + [0x78, BLANK, 0x79, 0x79, 0x79] == Units(grins) + [0x78] + [BLANK] + [0x79, 0x79, 0x79];
    CutBehindBlank(Units(grins) + [0x78], [0x79, 0x79, 0x79]);
  }

  lemma CutBehindBlank(a: text, b: text)
    requires |a| == 119 && b != [] && forall u :: u in a || u in b ==> !IsSpace(u)
    ensures !FitsALine(a + [BLANK] + b)
  {
    var line := a + [BLANK] + b;
    forall i | 0 <= i < |line|
      ensures IsSpace(line[i]) <==> i == 119
    {
      assert line[i] == if i < 119 then a[i] else if i == 119 then BLANK else b[i - 120];
    }
    assert line[119] == BLANK;
    SqueezedIsLeft(line);
  }

  lemma EndOfLine()
    ensures Units("x yyy") == [0x78, BLANK, 0x79, 0x79, 0x79]
  {
    UnitsAppend("x ", "yyy");
    UnitsAppend("x", " ");
    RunUnits('y', 3);
    assert "x yyy" == "x " + "yyy" && "x " == "x" + " " && "yyy" == seq(3, _ => 'y');
    assert "x"[1..] == [] && " "[1..] == [];
    assert Units("x") == [0x78] + Units([]) && Units(" ") == [BLANK] + Units([]);
  }

  /** A diagnostic whose item fits no line fails every check, also right after an update or a prune. */
  lemma UnsafeDiagnosticNeverPasses(files: Files, scopes: seq<Scope>, world: World, d: Diagnostic)
    requires Lint in scopes && Gather(scopes, world).Ok?
    requires d in world.diagnostics && !IsLineSafe(DiagnosticItem(world.source, d))
    ensures var c := Gather(scopes, world).value;
            && Checked(Updated(files, c.live), c.live, c.suites).failures != []
            && Checked(Pruned(files, c.live, c.suites), c.live, c.suites) != Verdict([], [])
  {
    var i :| 0 <= i < |world.diagnostics| && world.diagnostics[i] == d;
    var biome := CollectScope(Lint, world).value[0];
    assert biome.items[i] == DiagnosticItem(world.source, d) && biome.items[i] in biome.items;
    assert biome in CollectScope(Lint, world).value;
    assert !FindsSafely(Lint, world);
    if FindSafely(scopes, world) {
      EachFindsSafely(scopes, world, Lint);
    }
    RecordsWhatWasFound(files, scopes, world);
  }

  /** So does one without a place in its file, and one at either of those two source lines. */
  lemma DiagnosticsThatNeverPass(files: Files, scopes: seq<Scope>, world: World, d: Diagnostic)
    requires Lint in scopes && Gather(scopes, world).Ok? && d in world.diagnostics
    requires var line := LineAt(world.source, if d.path.Some? then d.path.value else UNKNOWN_PATH, d.line);
             || d.line == 0
             || line == Some(Units(seq(119, _ => 'x') + [GRIN] + seq(10, _ => 'x')))
             || line == Some(Units(seq(59, _ => GRIN) + "x yyy"))
    ensures var c := Gather(scopes, world).value;
            && Checked(Updated(files, c.live), c.live, c.suites).failures != []
            && Checked(Pruned(files, c.live, c.suites), c.live, c.suites) != Verdict([], [])
  {
    DiagnosticIsRecordable(world.source, d);
    var line := LineAt(world.source, if d.path.Some? then d.path.value else UNKNOWN_PATH, d.line);
    if line.Some? {
      SplitPairNeverFits();
      BlankBehindPairsNeverFits();
      FitsExactly(line.value);
    }
    UnsafeDiagnosticNeverPasses(files, scopes, world, d);
  }

  /**
   Fixing copies of an item never makes a passing area fail, except for stories, where
   it does exactly when a numbered item is gone by it.
   */
  lemma FewerCopiesFewerFailures(files: Files, area: string, fewer: seq<text>, more: seq<text>, suites: seq<text>)
    requires multiset(fewer) <= multiset(more)
    requires AreaVerdict(files, AreaItems(area, WithOrdinals(more)), suites).failures == []
    ensures AreaVerdict(files, AreaItems(area, WithOrdinals(fewer)), suites).failures == []
            <==> area != STORIES || forall x :: x in WithOrdinals(more) ==> x in WithOrdinals(fewer)
  {
    var committed := ReadItems(files, area);
    AreaPassesExactly(committed, AreaItems(area, WithOrdinals(more)), suites);
    AreaPassesExactly(committed, AreaItems(area, WithOrdinals(fewer)), suites);
    forall x | x in WithOrdinals(fewer)
      ensures x in WithOrdinals(more)
    {
      FewerCopiesFewerItems(fewer, more, x);
    }
  }
}
