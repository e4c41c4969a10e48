/**
 What a check prints: which notices, in which words, and in which order, for any files,
 any report and any suites.
 */
module Verdicts {
  import opened Common
  import opened Baseline
  import Text

  type text = Text.text

  function Worded(words: string, items: seq<text>): seq<text> {
    seq(|items|, i requires 0 <= i < |items| => Text.Units(words) + items[i])
  }

  /** The items recorded of an area. */
  function Recorded(files: Files, area: string): seq<text> { if area in files then Text.Read(files[area]) else [] }

  /** Of a test, that a suite that ran is named in front of it. */
  predicate IsOfSuites(area: string, suites: seq<text>, x: text) {
    area == "tests" ==> exists suite :: suite in suites && suite + [0x20, 0x3A, 0x3A, 0x20] <= x
  }

  /** The items reported that are not recorded, or not of a suite that ran. */
  function NewItems(files: Files, a: AreaItems, suites: seq<text>): seq<text> {
    Only(a.items, (x: text) => !(x in Recorded(files, a.area) && IsOfSuites(a.area, suites, x)))
  }

  /** The items recorded, of a suite that ran, that are not reported. */
  function GoneItems(files: Files, a: AreaItems, suites: seq<text>): seq<text> {
    Only(Recorded(files, a.area), (x: text) => IsOfSuites(a.area, suites, x) && x !in a.items)
  }

  function FailuresOf(files: Files, a: AreaItems, suites: seq<text>): seq<text> {
    Worded(a.area + ": reported but not in the baseline: ", NewItems(files, a, suites))
    + if a.area == "stories" then
        Worded(a.area + ": in the baseline but no longer reported: ", GoneItems(files, a, suites))
      else []
  }

  function WarningsOf(files: Files, a: AreaItems, suites: seq<text>): seq<text> {
    if a.area == "stories" then []
    else Worded(a.area + ": baselined but no longer reported: ", GoneItems(files, a, suites))
  }

  lemma WordedFirst(words: string, first: text, items: seq<text>)
    ensures Worded(words, [first] + items) == [Text.Units(words) + first] + Worded(words, items)
  {
  }

  lemma {:induction false} NoticesAre(words: string, items: seq<text>, known: seq<text>, holds: text -> bool)
    requires forall x :: x in items ==> (holds(x) <==> x !in known)
    ensures Notices(Text.Units(words), items, known) == Worded(words, Only(items, holds))
    decreases |items|
  {
    if items != [] {
      var first, rest := items[0], items[1..];
      assert items == [first] + rest;
      NoticesAre(words, rest, known, holds);
      OnlyFirst(first, rest, holds);
      WordedFirst(words, first, Only(rest, holds));
    }
  }

  lemma OwnedNotices(prefix: text, first: text, rest: seq<text>, suites: seq<text>, known: seq<text>)
    ensures Notices(prefix, Those([first] + rest, suites, true), known)
         == (if IsOwned(first, suites) && first !in known then [prefix + first] else [])
            + Notices(prefix, Those(rest, suites, true), known)
  {
    var those := Those(rest, suites, true);
    assert ([first] + rest)[1..] == rest;
    if IsOwned(first, suites) {
      assert ([first] + those)[1..] == those;
    } else {
      assert [] + those == those;
    }
  }

  lemma {:induction false} NoticesOfThose(words: string, items: seq<text>, suites: seq<text>, known: seq<text>,
      holds: text -> bool)
    requires forall x :: x in items ==> (holds(x) <==> IsOwned(x, suites) && x !in known)
    ensures Notices(Text.Units(words), Those(items, suites, true), known) == Worded(words, Only(items, holds))
    decreases |items|
  {
    if items != [] {
      var first, rest := items[0], items[1..];
      assert items == [first] + rest;
      NoticesOfThose(words, rest, suites, known, holds);
      OnlyFirst(first, rest, holds);
      WordedFirst(words, first, Only(rest, holds));
      OwnedNotices(Text.Units(words), first, rest, suites, known);
    }
  }

  lemma NewNotices(files: Files, a: AreaItems, suites: seq<text>, words: string)
    ensures Notices(Text.Units(words), a.items, SplitByOwner(a.area, ReadItems(files, a.area), suites).owned)
         == Worded(words, NewItems(files, a, suites))
  {
    var committed := ReadItems(files, a.area);
    var known := SplitByOwner(a.area, committed, suites).owned;
    ThoseHave(committed, suites, true);
    NoticesAre(words, a.items, known, (x: text) => !(x in Recorded(files, a.area) && IsOfSuites(a.area, suites, x)));
  }

  lemma GoneNotices(files: Files, a: AreaItems, suites: seq<text>, words: string)
    ensures Notices(Text.Units(words), SplitByOwner(a.area, ReadItems(files, a.area), suites).owned, a.items)
         == Worded(words, GoneItems(files, a, suites))
  {
    var committed := ReadItems(files, a.area);
    var holds := (x: text) => IsOfSuites(a.area, suites, x) && x !in a.items;
    if a.area == TESTS {
      NoticesOfThose(words, committed, suites, a.items, holds);
    } else {
      NoticesAre(words, committed, a.items, holds);
    }
  }

  lemma StoriesPrint(files: Files, a: AreaItems, suites: seq<text>)
    requires a.area == STORIES
    ensures AreaVerdict(files, a, suites) == Verdict(FailuresOf(files, a, suites), [])
  {
    NewNotices(files, a, suites, STORIES + MISSING);
    GoneNotices(files, a, suites, STORIES + GONE);
  }

  lemma OthersPrint(files: Files, a: AreaItems, suites: seq<text>)
    requires a.area != STORIES
    ensures AreaVerdict(files, a, suites) == Verdict(FailuresOf(files, a, suites), WarningsOf(files, a, suites))
  {
    NewNotices(files, a, suites, a.area + MISSING);
    GoneNotices(files, a, suites, a.area + STALE);
  }

  lemma AreaPrints(files: Files, a: AreaItems, suites: seq<text>)
    ensures AreaVerdict(files, a, suites) == Verdict(FailuresOf(files, a, suites), WarningsOf(files, a, suites))
  {
    if a.area == STORIES {
      StoriesPrint(files, a, suites);
    } else {
      OthersPrint(files, a, suites);
    }
  }

  function Failures(verdicts: seq<Verdict>): seq<seq<text>> {
    seq(|verdicts|, i requires 0 <= i < |verdicts| => verdicts[i].failures)
  }

  function Warnings(verdicts: seq<Verdict>): seq<seq<text>> {
    seq(|verdicts|, i requires 0 <= i < |verdicts| => verdicts[i].warnings)
  }

  lemma {:induction false} MergesInOrder(verdicts: seq<Verdict>)
    ensures MergeVerdicts(verdicts) == Verdict(Concat(Failures(verdicts)), Concat(Warnings(verdicts)))
  {
    if verdicts != [] {
      var first, rest := verdicts[0], verdicts[1..];
      MergesInOrder(rest);
      ConcatFirst(first.failures, Failures(rest));
      ConcatFirst(first.warnings, Warnings(rest));
      assert Failures(verdicts) == [first.failures] + Failures(rest);
      assert Warnings(verdicts) == [first.warnings] + Warnings(rest);
    }
  }

  lemma FailsInOrder(files: Files, live: Live, suites: seq<text>)
    ensures Failures(AreaVerdicts(files, live, suites))
         == seq(|live|, i requires 0 <= i < |live| => FailuresOf(files, live[i], suites))
  {
    forall i | 0 <= i < |live|
      ensures AreaVerdicts(files, live, suites)[i].failures == FailuresOf(files, live[i], suites)
    {
      AreaPrints(files, live[i], suites);
    }
  }

  lemma WarnsInOrder(files: Files, live: Live, suites: seq<text>)
    ensures Warnings(AreaVerdicts(files, live, suites))
         == seq(|live|, i requires 0 <= i < |live| => WarningsOf(files, live[i], suites))
  {
    forall i | 0 <= i < |live|
      ensures AreaVerdicts(files, live, suites)[i].warnings == WarningsOf(files, live[i], suites)
    {
      AreaPrints(files, live[i], suites);
    }
  }

  /**
   The failures of a check are those of each area, area after area: its new items in
   their order, and for stories the ones gone. The warnings are the other areas' items
   that are gone.
   */
  lemma CheckPrints(files: Files, live: Live, suites: seq<text>)
    ensures Checked(files, live, suites).failures
         == Concat(seq(|live|, i requires 0 <= i < |live| => FailuresOf(files, live[i], suites)))
    ensures Checked(files, live, suites).warnings
         == Concat(seq(|live|, i requires 0 <= i < |live| => WarningsOf(files, live[i], suites)))
  {
    MergesInOrder(AreaVerdicts(files, live, suites));
    FailsInOrder(files, live, suites);
    WarnsInOrder(files, live, suites);
  }

  /** Reported of an area, and not recorded there by a suite that ran. */
  predicate IsNewItem(files: Files, a: AreaItems, suites: seq<text>, x: text) {
    x in a.items && !(x in Recorded(files, a.area) && IsOfSuites(a.area, suites, x))
  }

  /** Recorded of an area by a suite that ran, and not reported. */
  predicate IsGoneItem(files: Files, a: AreaItems, suites: seq<text>, x: text) {
    x !in a.items && x in Recorded(files, a.area) && IsOfSuites(a.area, suites, x)
  }

  /** A line about a new item, or about a story that is gone. */
  ghost predicate IsFailure(files: Files, a: AreaItems, suites: seq<text>, line: text) {
    || (exists x :: IsNewItem(files, a, suites, x)
                    && line == Text.Units(a.area + ": reported but not in the baseline: ") + x)
    || (a.area == "stories"
        && exists x :: IsGoneItem(files, a, suites, x)
                       && line == Text.Units(a.area + ": in the baseline but no longer reported: ") + x)
  }

  /** A line about an item of another area that is gone. */
  ghost predicate IsWarning(files: Files, a: AreaItems, suites: seq<text>, line: text) {
    && a.area != "stories"
    && exists x :: IsGoneItem(files, a, suites, x)
                   && line == Text.Units(a.area + ": baselined but no longer reported: ") + x
  }

  lemma WordedHas(words: string, items: seq<text>, line: text)
    ensures line in Worded(words, items) <==> exists x :: x in items && line == Text.Units(words) + x
  {
    if x :| x in items && line == Text.Units(words) + x {
      var i :| 0 <= i < |items| && items[i] == x;
      assert Worded(words, items)[i] == line;
    }
  }

  lemma WordedOnlyHas(words: string, items: seq<text>, holds: text -> bool, line: text)
    ensures line in Worded(words, Only(items, holds)) <==>
            exists x :: x in items && holds(x) && line == Text.Units(words) + x
  {
    WordedHas(words, Only(items, holds), line);
    forall x
      ensures x in Only(items, holds) <==> x in items && holds(x)
    {
      OnlyHas(items, holds, x);
    }
  }

  lemma NewLines(files: Files, a: AreaItems, suites: seq<text>, words: string, line: text)
    ensures line in Worded(words, NewItems(files, a, suites)) <==>
            exists x :: IsNewItem(files, a, suites, x) && line == Text.Units(words) + x
  {
    WordedOnlyHas(words, a.items, (x: text) => !(x in Recorded(files, a.area) && IsOfSuites(a.area, suites, x)), line);
  }

  lemma GoneLines(files: Files, a: AreaItems, suites: seq<text>, words: string, line: text)
    ensures line in Worded(words, GoneItems(files, a, suites)) <==>
            exists x :: IsGoneItem(files, a, suites, x) && line == Text.Units(words) + x
  {
    WordedOnlyHas(words, Recorded(files, a.area), (x: text) => IsOfSuites(a.area, suites, x) && x !in a.items, line);
  }

  lemma AreaFails(files: Files, a: AreaItems, suites: seq<text>, line: text)
    ensures line in FailuresOf(files, a, suites) <==> IsFailure(files, a, suites, line)
    ensures line in WarningsOf(files, a, suites) <==> IsWarning(files, a, suites, line)
  {
    NewLines(files, a, suites, a.area + ": reported but not in the baseline: ", line);
    GoneLines(files, a, suites, a.area + ": in the baseline but no longer reported: ", line);
    GoneLines(files, a, suites, a.area + ": baselined but no longer reported: ", line);
  }

  /**
   A check fails with exactly the lines about items reported of an area and not recorded
   there, tests by a suite that ran, and about stories recorded and gone; it warns with
   exactly those about the other items recorded and gone.
   */
  lemma CheckNotices(files: Files, live: Live, suites: seq<text>, line: text)
    ensures line in Checked(files, live, suites).failures <==>
            exists i :: 0 <= i < |live| && IsFailure(files, live[i], suites, line)
    ensures line in Checked(files, live, suites).warnings <==>
            exists i :: 0 <= i < |live| && IsWarning(files, live[i], suites, line)
  {
    CheckPrints(files, live, suites);
    FailsSomewhere(files, live, suites, line);
    WarnsSomewhere(files, live, suites, line);
  }

  lemma FailsSomewhere(files: Files, live: Live, suites: seq<text>, line: text)
    ensures line in Concat(seq(|live|, i requires 0 <= i < |live| => FailuresOf(files, live[i], suites))) <==>
            exists i :: 0 <= i < |live| && IsFailure(files, live[i], suites, line)
  {
    var parts := seq(|live|, i requires 0 <= i < |live| => FailuresOf(files, live[i], suites));
    forall i | 0 <= i < |live|
      ensures line in parts[i] <==> IsFailure(files, live[i], suites, line)
    {
      AreaFails(files, live[i], suites, line);
    }
    ConcatHas(parts, line);
  }

  lemma WarnsSomewhere(files: Files, live: Live, suites: seq<text>, line: text)
    ensures line in Concat(seq(|live|, i requires 0 <= i < |live| => WarningsOf(files, live[i], suites))) <==>
            exists i :: 0 <= i < |live| && IsWarning(files, live[i], suites, line)
  {
    var parts := seq(|live|, i requires 0 <= i < |live| => WarningsOf(files, live[i], suites));
    forall i | 0 <= i < |live|
      ensures line in parts[i] <==> IsWarning(files, live[i], suites, line)
    {
      AreaFails(files, live[i], suites, line);
    }
    ConcatHas(parts, line);
  }
}
