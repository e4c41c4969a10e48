/**
 The scope of the tests that changed, beside the scope of all tests: why it may be
 checked on its own, and why it must not be pruned.
 */
module ChangedScope {
  import opened Common
  import opened Ordinals
  import opened Baseline
  import opened Collect
  import opened Text

  /** What a scope with tests finds of them, not yet numbered. */
  function FoundTests(scope: Scope, world: World): seq<text>
    requires scope != Lint && CollectScope(scope, world).Ok?
  {
    CollectScope(scope, world).value[0].items
  }

  lemma GathersOne(scope: Scope, world: World)
    requires CollectScope(scope, world).Ok?
    ensures Gather([scope], world)
            == Ok(Collected(AddNumbered([], CollectScope(scope, world).value), SuitesOf(scope)))
  {
    assert [scope][..0] == [];
    assert [] + SuitesOf(scope) == SuitesOf(scope);
  }

  lemma AddsLast(live: Live, found: Live, a: AreaItems)
    ensures AddNumbered(live, found + [a]) == Add(AddNumbered(live, found), a.area, WithOrdinals(a.items))
  {
    assert (found + [a])[..|found|] == found;
  }

  lemma AddsOne(a: AreaItems)
    ensures AddNumbered([], [a]) == [AreaItems(a.area, WithOrdinals(a.items))]
  {
    AddsLast([], [], a);
    assert [] + [a] == [a];
  }

  lemma AddsTwo(a: AreaItems, b: AreaItems)
    requires a.area != b.area
    ensures AddNumbered([], [a, b])
            == [AreaItems(a.area, WithOrdinals(a.items)), AreaItems(b.area, WithOrdinals(b.items))]
  {
    AddsOne(a);
    AddsLast([], [a], b);
    assert [a] + [b] == [a, b];
    var one := [AreaItems(a.area, WithOrdinals(a.items))];
    assert one[1..] == [];
  }

  lemma GathersChanged(world: World)
    requires CollectScope(Changed, world).Ok?
    ensures Gather([Changed], world)
            == Ok(Collected([AreaItems(TESTS, WithOrdinals(FoundTests(Changed, world)))], UNIT_SUITES))
  {
    GathersOne(Changed, world);
    AddsOne(AreaItems(TESTS, FoundTests(Changed, world)));
  }

  lemma GathersVitest(world: World)
    requires CollectScope(Vitest, world).Ok?
    ensures Gather([Vitest], world)
            == Ok(Collected([AreaItems(TESTS, WithOrdinals(FoundTests(Vitest, world))),
                             AreaItems(STORIES, WithOrdinals(world.stories))], SuitesOf(Vitest)))
  {
    GathersOne(Vitest, world);
    AddsTwo(AreaItems(TESTS, FoundTests(Vitest, world)), AreaItems(STORIES, world.stories));
  }

  // ---------------------------------------------------------------- a part of the tests

  /** The files that changed are files of their suites, with the same results. */
  predicate RunsSome(world: World) {
    forall suite :: suite in UNIT_SUITES && world.changed(suite).Some? ==>
      multiset(world.changed(suite).value.files) <= multiset(world.suite(suite).files)
  }

  /** What each of them yields, one after the other. */
  function Flat<T>(f: T -> seq<text>, s: seq<T>): seq<text> {
    if s == [] then [] else f(s[0]) + Flat(f, s[1..])
  }

  lemma {:induction false} FlatAppend<T>(f: T -> seq<text>, a: seq<T>, b: seq<T>)
    ensures Flat(f, a + b) == Flat(f, a) + Flat(f, b)
  {
    if a == [] {
      assert a + b == b;
    } else {
      FlatAppend(f, a[1..], b);
      assert (a + b)[1..] == a[1..] + b;
      Associates(f(a[0]), Flat(f, a[1..]), Flat(f, b));
    }
  }

  lemma FlatThree<T>(f: T -> seq<text>, front: seq<T>, x: T, rest: seq<T>)
    ensures Flat(f, front + [x] + rest) == Flat(f, front) + f(x) + Flat(f, rest)
  {
    FlatAppend(f, front + [x], rest);
    FlatAppend(f, front, [x]);
    assert [x][1..] == [];
    assert f(x) + [] == f(x);
  }

  lemma WithoutMiddle<T>(a: seq<T>, b: seq<T>, c: seq<T>)
    ensures multiset(a + b + c) == multiset(b) + multiset(a + c)
  {
  }

  function Failing(suite: text): TestFile -> seq<text> { (file: TestFile) => FailuresIn(suite, file) }

  lemma {:induction false} FailuresAreFlat(suite: text, files: seq<TestFile>)
    ensures VitestFailures(suite, files) == Flat(Failing(suite), files)
  {
    if files != [] {
      FailuresAreFlat(suite, files[1..]);
    }
  }

  lemma OneLess(a: multiset<TestFile>, b: multiset<TestFile>, c: multiset<TestFile>, d: multiset<TestFile>, x: TestFile)
    requires a <= b && a == c + multiset{x} && b == d + multiset{x}
    ensures c <= d
  {
    forall y | y in c
      ensures c[y] <= d[y]
    {
      assert a[y] <= b[y];
    }
  }

  lemma {:induction false} FewerYieldFewer(f: TestFile -> seq<text>, fewer: seq<TestFile>, more: seq<TestFile>)
    requires multiset(fewer) <= multiset(more)
    ensures multiset(Flat(f, fewer)) <= multiset(Flat(f, more))
  {
    if fewer != [] {
      var file, rest := fewer[0], fewer[1..];
      assert fewer == [file] + rest;
      assert file in multiset(more);
      var i :| 0 <= i < |more| && more[i] == file;
      var front, back := more[..i], more[i + 1..];
      assert more == front + [file] + back;
      WithoutMiddle(front, [file], back);
      OneLess(multiset(fewer), multiset(more), multiset(rest), multiset(front + back), file);
      FewerYieldFewer(f, rest, front + back);
      FlatThree(f, front, file, back);
      FlatAppend(f, front, back);
      WithoutMiddle(Flat(f, front), f(file), Flat(f, back));
    }
  }

  function Finding(run: text -> Option<SuiteRun>): text -> seq<text> {
    (suite: text) => if run(suite).Some? then VitestFailures(suite, run(suite).value.files) else []
  }

  lemma {:induction false} OutcomesAreFlat(suites: seq<text>, run: text -> Option<SuiteRun>)
    ensures AllItems(Outcomes(suites, run)) == Flat(Finding(run), suites)
  {
    if suites != [] {
      var first, rest := run(suites[0]), Outcomes(suites[1..], run);
      OutcomesAreFlat(suites[1..], run);
      if first.Some? {
        assert ([OutcomeOf(suites[0], first.value)] + rest)[1..] == rest;
      } else {
        assert [] + rest == rest && [] + AllItems(rest) == AllItems(rest);
      }
    }
  }

  lemma {:induction false} LessYieldsLess(f: text -> seq<text>, g: text -> seq<text>, suites: seq<text>)
    requires forall suite :: suite in suites ==> multiset(f(suite)) <= multiset(g(suite))
    ensures multiset(Flat(f, suites)) <= multiset(Flat(g, suites))
  {
    if suites != [] {
      LessYieldsLess(f, g, suites[1..]);
    }
  }

  lemma ChangedFindsLess(world: World, suite: text)
    requires RunsSome(world) && suite in UNIT_SUITES
    ensures multiset(Finding(world.changed)(suite)) <= multiset(Finding(Ran(world))(suite))
  {
    if world.changed(suite).Some? {
      var fewer, more := world.changed(suite).value.files, world.suite(suite).files;
      FailuresAreFlat(suite, fewer);
      FailuresAreFlat(suite, more);
      FewerYieldFewer(Failing(suite), fewer, more);
    }
  }

  lemma PartOf(some: seq<text>, more: seq<text>, others: seq<text>, last: seq<text>)
    requires multiset(some) <= multiset(more)
    ensures multiset(some) <= multiset(more + others + last)
  {
  }

  lemma SomeOfAll(units: seq<text>, others: seq<text>, last: SuiteOutcome, world: World)
    requires RunsSome(world) && forall suite :: suite in units ==> suite in UNIT_SUITES
    ensures multiset(AllItems(Outcomes(units, world.changed)))
            <= multiset(AllItems(Outcomes(units + others, Ran(world)) + [last]))
  {
    var some, all := Finding(world.changed), Finding(Ran(world));
    forall suite | suite in units
      ensures multiset(some(suite)) <= multiset(all(suite))
    {
      ChangedFindsLess(world, suite);
    }
    LessYieldsLess(some, all, units);
    OutcomesAreFlat(units, world.changed);
    OutcomesAreFlat(units + others, Ran(world));
    FlatAppend(all, units, others);
    AllItemsOf(Outcomes(units + others, Ran(world)), last);
    PartOf(Flat(some, units), Flat(all, units), Flat(all, others), last.items);
  }

  lemma FoundInVitest(world: World)
    requires CollectScope(Vitest, world).Ok?
    ensures FoundTests(Vitest, world)
            == AllItems(Outcomes(VITEST_SUITES, Ran(world)) + [SidecarOutcome(world.sidecar, world.isSidecarRed)])
  {
  }

  lemma FoundInChanged(world: World)
    requires CollectScope(Changed, world).Ok?
    ensures FoundTests(Changed, world) == AllItems(Outcomes(UNIT_SUITES, world.changed))
  {
  }

  lemma VitestHasUnits()
    ensures VITEST_SUITES == UNIT_SUITES + [WEBSITE]
  {
  }

  lemma UnitsAreSome(world: World, some: seq<text>, all: seq<text>, units: seq<text>, suites: seq<text>)
    requires RunsSome(world) && units == UNIT_SUITES && suites == units + [WEBSITE]
    requires some == AllItems(Outcomes(units, world.changed))
    requires all == AllItems(Outcomes(suites, Ran(world)) + [SidecarOutcome(world.sidecar, world.isSidecarRed)])
    ensures multiset(some) <= multiset(all)
  {
    SomeOfAll(units, [WEBSITE], SidecarOutcome(world.sidecar, world.isSidecarRed), world);
  }

  /** What the changed tests find is among what all tests find. */
  lemma ChangedIsWithin(world: World)
    requires RunsSome(world) && CollectScope(Changed, world).Ok? && CollectScope(Vitest, world).Ok?
    ensures multiset(FoundTests(Changed, world)) <= multiset(FoundTests(Vitest, world))
  {
    var some, all := FoundTests(Changed, world), FoundTests(Vitest, world);
    FoundInVitest(world);
    FoundInChanged(world);
    VitestHasUnits();
    UnitsAreSome(world, some, all, UNIT_SUITES, VITEST_SUITES);
  }

  // ------------------------------------------------------------------------- checking

  lemma SomePass(committed: seq<text>, some: seq<text>, all: seq<text>, suites: seq<text>, more: seq<text>)
    requires multiset(some) <= multiset(all) && AllOwned(WithOrdinals(some), suites)
    requires CompareArea(committed, AreaItems(TESTS, WithOrdinals(all)), more).failures == []
    ensures CompareArea(committed, AreaItems(TESTS, WithOrdinals(some)), suites).failures == []
  {
    AreaPassesExactly(committed, AreaItems(TESTS, WithOrdinals(some)), suites);
    AreaPassesExactly(committed, AreaItems(TESTS, WithOrdinals(all)), more);
    forall x | x in WithOrdinals(some)
      ensures x in WithOrdinals(all)
    {
      FewerCopiesFewerItems(some, all, x);
    }
  }

  lemma ChangedIsOwned(world: World)
    requires CollectScope(Changed, world).Ok?
    ensures AllOwned(WithOrdinals(FoundTests(Changed, world)), UNIT_SUITES)
  {
    ScopeIsOwned(Changed, world);
    var found := CollectScope(Changed, world).value;
    assert found[0] in found;
    LabelStaysOwned(FoundTests(Changed, world), UNIT_SUITES);
  }

  /** Tests that pass the check of all pass that of the changed ones, when these find nothing else. */
  lemma ChangedPassesWithVitest(files: Files, world: World)
    requires CollectScope(Changed, world).Ok? && CollectScope(Vitest, world).Ok?
    requires multiset(FoundTests(Changed, world)) <= multiset(FoundTests(Vitest, world))
    requires var v := Gather([Vitest], world);
             v.Ok? && Checked(files, v.value.live, v.value.suites).failures == []
    ensures var c := Gather([Changed], world);
            c.Ok? && Checked(files, c.value.live, c.value.suites).failures == []
  {
    GathersChanged(world);
    GathersVitest(world);
    var c, v := Gather([Changed], world).value, Gather([Vitest], world).value;
    ChecksEveryArea(files, c.live, c.suites);
    ChecksEveryArea(files, v.live, v.suites);
    assert AreaVerdict(files, v.live[0], v.suites).failures == [];
    ChangedIsOwned(world);
    SomePass(ReadItems(files, TESTS), FoundTests(Changed, world), FoundTests(Vitest, world), c.suites, v.suites);
  }

  // -------------------------------------------------------------------------- pruning

  /** What a prune by the changed tests leaves of the record. */
  function PrunedByChanged(files: Files, world: World): Files
    requires CollectScope(Changed, world).Ok?
  {
    Pruned(files, [AreaItems(TESTS, WithOrdinals(FoundTests(Changed, world)))], UNIT_SUITES)
  }

  /** An entry stands on a line of what the changed tests report. */
  predicate IsReportedAgain(x: text, world: World)
    requires CollectScope(Changed, world).Ok?
  {
    exists item :: item in WithOrdinals(FoundTests(Changed, world)) && x in ReadBack(item)
  }

  /** Of the recorded tests it drops exactly those of the unit suites that it does not report again. */
  lemma PruneOfChangedDrops(files: Files, world: World, x: text)
    requires CollectScope(Changed, world).Ok? && x in ReadItems(files, TESTS)
    ensures x !in ReadItems(PrunedByChanged(files, world), TESTS)
            <==> IsOwned(x, UNIT_SUITES) && !IsReportedAgain(x, world)
  {
    var a := AreaItems(TESTS, WithOrdinals(FoundTests(Changed, world)));
    var committed := ReadItems(files, TESTS);
    var kept := Those(committed, UNIT_SUITES, false);
    RewrittenAt(files, [a], PruneKeeps(UNIT_SUITES), 0);
    CommittedAreSafe(files, TESTS);
    ThoseHave(committed, UNIT_SUITES, false);
    AreaHolds(kept, a.items, x);
  }

  /** A passing area still passes exactly when no item of it is gone. */
  lemma PassesStill(before: seq<text>, after: seq<text>, a: AreaItems, suites: seq<text>)
    requires a.area == TESTS && CompareArea(before, a, suites).failures == []
    ensures forall x :: x in a.items ==> x in before
    ensures CompareArea(after, a, suites).failures == [] <==> forall x :: x in a.items ==> x in after
  {
    AreaPassesExactly(before, a, suites);
    AreaPassesExactly(after, a, suites);
  }

  lemma ChecksTwo(files: Files, a: AreaItems, b: AreaItems, suites: seq<text>)
    ensures Checked(files, [a, b], suites).failures == []
            <==> AreaVerdict(files, a, suites).failures == [] && AreaVerdict(files, b, suites).failures == []
  {
    ChecksEveryArea(files, [a, b], suites);
    assert [a, b][0] == a && [a, b][1] == b;
  }

  /** So after it the check of all tests passes exactly when the unit suites' failures were all reported again. */
  lemma PruneOfChangedBreaksVitest(files: Files, world: World)
    requires CollectScope(Changed, world).Ok? && CollectScope(Vitest, world).Ok?
    requires var v := Gather([Vitest], world);
             v.Ok? && Checked(files, v.value.live, v.value.suites).failures == []
    ensures var v := Gather([Vitest], world).value;
            Checked(PrunedByChanged(files, world), v.live, v.suites).failures == []
            <==> forall x :: x in WithOrdinals(FoundTests(Vitest, world)) && IsOwned(x, UNIT_SUITES)
                   ==> IsReportedAgain(x, world)
  {
    GathersVitest(world);
    var v, after := Gather([Vitest], world).value, PrunedByChanged(files, world);
    var tests, stories := v.live[0], v.live[1];
    ChecksTwo(files, tests, stories, v.suites);
    ChecksTwo(after, tests, stories, v.suites);
    PassesStill(ReadItems(files, TESTS), ReadItems(after, TESTS), tests, v.suites);
    StoriesStay(files, world);
    forall x | x in tests.items
      ensures x in ReadItems(after, TESTS) <==> !IsOwned(x, UNIT_SUITES) || IsReportedAgain(x, world)
    {
      PruneOfChangedDrops(files, world, x);
    }
  }

  lemma StoriesStay(files: Files, world: World)
    requires CollectScope(Changed, world).Ok?
    ensures ReadItems(PrunedByChanged(files, world), STORIES) == ReadItems(files, STORIES)
  {
    RewrittenElsewhere(files, [AreaItems(TESTS, WithOrdinals(FoundTests(Changed, world)))],
      PruneKeeps(UNIT_SUITES), STORIES);
  }
}
