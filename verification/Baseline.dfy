/**
 The baseline ratchet: files of recorded items, one for each area, that a check
 compares with what is reported now, an update adds to, and a prune brings up to date.
 */
module Baseline {
  import opened Common
  import opened Ordinals
  import opened Text

  const STORIES := "stories"
  const TESTS := "tests"

  datatype Verdict = Verdict(failures: seq<text>, warnings: seq<text>)

  datatype AreaItems = AreaItems(area: string, items: seq<text>)

  /** What is reported, area after area. */
  type Live = seq<AreaItems>

  /** The characters each area's file holds. */
  type Files = map<string, string>

  ghost predicate HasDistinctAreas(live: Live) {
    forall i, j :: 0 <= i < j < |live| ==> live[i].area != live[j].area
  }

  // -------------------------------------------------------------------- comparing

  /** One notice for each item that is not among the known ones. */
  function Notices(prefix: text, items: seq<text>, known: seq<text>): seq<text> {
    if items == [] then []
    else (if items[0] in known then [] else [prefix + items[0]]) + Notices(prefix, items[1..], known)
  }

  lemma {:induction false} NoNotices(prefix: text, items: seq<text>, known: seq<text>)
    ensures Notices(prefix, items, known) == [] <==> forall x :: x in items ==> x in known
    ensures forall x :: x in items && x !in known ==> prefix + x in Notices(prefix, items, known)
  {
    if items != [] {
      NoNotices(prefix, items[1..], known);
      assert items == [items[0]] + items[1..];
    }
  }

  const MISSING := ": reported but not in the baseline: "
  const STALE := ": baselined but no longer reported: "
  const GONE := ": in the baseline but no longer reported: "

  function CompareItems(area: string, committed: seq<text>, live: seq<text>): Verdict {
    Verdict(Notices(Units(area + MISSING), live, committed), Notices(Units(area + STALE), committed, live))
  }

  function CompareStories(committed: seq<text>, live: seq<text>): Verdict {
    Verdict(
      Notices(Units(STORIES + MISSING), live, committed) + Notices(Units(STORIES + GONE), committed, live), [])
  }

  /** What sets the parts of an item apart: two colons between blanks. */
  const COLONS: text := [BLANK, 0x3A, 0x3A, BLANK]

  predicate IsOwned(entry: text, suites: seq<text>) {
    exists suite :: suite in suites && suite + COLONS <= entry
  }

  /** The entries that some suite owns, or those that none does. */
  function Those(entries: seq<text>, suites: seq<text>, owned: bool): seq<text> {
    if entries == [] then []
    else (if IsOwned(entries[0], suites) == owned then [entries[0]] else []) + Those(entries[1..], suites, owned)
  }

  lemma {:induction false} ThoseHave(entries: seq<text>, suites: seq<text>, owned: bool)
    ensures forall x :: x in Those(entries, suites, owned) <==> x in entries && IsOwned(x, suites) == owned
  {
    if entries != [] {
      ThoseHave(entries[1..], suites, owned);
      assert entries == [entries[0]] + entries[1..];
    }
  }

  datatype Split = Split(owned: seq<text>, others: seq<text>)

  function SplitByOwner(area: string, committed: seq<text>, suites: seq<text>): Split {
    if area != TESTS then Split(committed, [])
    else Split(Those(committed, suites, true), Those(committed, suites, false))
  }

  function CompareArea(committed: seq<text>, a: AreaItems, suites: seq<text>): Verdict {
    var owned := SplitByOwner(a.area, committed, suites).owned;
    if a.area == STORIES then CompareStories(owned, a.items) else CompareItems(a.area, owned, a.items)
  }

  /** An area passes when everything reported is recorded, and for stories also the other way round. */
  lemma AreaPassesExactly(committed: seq<text>, a: AreaItems, suites: seq<text>)
    ensures var v := CompareArea(committed, a, suites);
            var isOwned := x => a.area == TESTS ==> IsOwned(x, suites);
            && (v.failures == [] <==>
                && (forall x :: x in a.items ==> x in committed && isOwned(x))
                && (a.area == STORIES ==> forall x :: x in committed ==> x in a.items))
            && (v.warnings == [] <==> a.area == STORIES || forall x :: x in committed && isOwned(x) ==> x in a.items)
  {
    var owned := SplitByOwner(a.area, committed, suites).owned;
    ThoseHave(committed, suites, true);
    NoNotices(Units(a.area + MISSING), a.items, owned);
    NoNotices(Units(a.area + STALE), owned, a.items);
    NoNotices(Units(STORIES + MISSING), a.items, owned);
    NoNotices(Units(STORIES + GONE), owned, a.items);
  }

  // ------------------------------------------------------------------------ files

  function ReadItems(files: Files, area: string): seq<text> {
    if area in files then Read(files[area]) else []
  }

  /** What a file of these items holds. */
  function Written(items: seq<text>): string { FileOf(Sorted(Unique(items))) }

  /** Line-safe items are read back as they were written: each once, in order. */
  lemma ReadsWhatWasWritten(files: Files, area: string, items: seq<text>)
    requires forall x :: x in items ==> IsLineSafe(x)
    ensures ReadItems(files[area := Written(items)], area) == Sorted(Unique(items))
    ensures forall x :: x in Sorted(Unique(items)) <==> x in items
  {
    SortedUniqueKeeps(items);
    ReadsBackSafeItems(Sorted(Unique(items)));
  }

  /** What a file of any items holds: all that their lines read as. */
  lemma WrittenHolds(items: seq<text>, x: text)
    ensures x in Read(Written(items)) <==> exists item :: item in items && x in ReadBack(item)
  {
    var sorted := Sorted(Unique(items));
    SortedUniqueKeeps(items);
    ReadsEachItem(sorted);
    ReadEachHas(sorted, x);
  }

  // ---------------------------------------------------------------- update, prune

  /** What a rewrite keeps of an area's recorded items. */
  type Keeper = (string, seq<text>) -> seq<text>

  function UpdateKeeps(): Keeper { (area, committed) => if area == STORIES then [] else committed }

  function PruneKeeps(suites: seq<text>): Keeper {
    (area, committed) => SplitByOwner(area, committed, suites).others
  }

  /** What an area's file becomes. */
  type Rewriter = (Files, AreaItems) -> string

  function Rewriting(keep: Keeper): Rewriter {
    (files: Files, a: AreaItems) => Written(keep(a.area, ReadItems(files, a.area)) + a.items)
  }

  /** Every area reported rewritten, one after the other. */
  function RewriteAll(rewrite: Rewriter, files: Files, live: Live): Files {
    if live == [] then files
    else
      var before, a := RewriteAll(rewrite, files, live[..|live| - 1]), live[|live| - 1];
      before[a.area := rewrite(before, a)]
  }

  function Rewritten(files: Files, live: Live, keep: Keeper): Files { RewriteAll(Rewriting(keep), files, live) }

  function Updated(files: Files, live: Live): Files { Rewritten(files, live, UpdateKeeps()) }

  function Pruned(files: Files, live: Live, suites: seq<text>): Files { Rewritten(files, live, PruneKeeps(suites)) }

  /** The verdict on one area against its file. */
  function AreaVerdict(files: Files, a: AreaItems, suites: seq<text>): Verdict {
    CompareArea(ReadItems(files, a.area), a, suites)
  }

  function MergeVerdicts(verdicts: seq<Verdict>): Verdict {
    if verdicts == [] then Verdict([], [])
    else
      var rest := MergeVerdicts(verdicts[1..]);
      Verdict(verdicts[0].failures + rest.failures, verdicts[0].warnings + rest.warnings)
  }

  function AreaVerdicts(files: Files, live: Live, suites: seq<text>): seq<Verdict> {
    seq(|live|, i requires 0 <= i < |live| => AreaVerdict(files, live[i], suites))
  }

  function Checked(files: Files, live: Live, suites: seq<text>): Verdict {
    MergeVerdicts(AreaVerdicts(files, live, suites))
  }

  /** The folder of baselines. */
  class Baselines {
    var files: Files

    method WriteItems(area: string, items: seq<text>)
      modifies this
      ensures files == old(files)[area := Written(items)]
    {
      var sorted := Sorted(Unique(items));
      files := files[area := Scalars(if |sorted| == 0 then [] else Join(sorted, [BREAK]) + [BREAK])];
    }

    method Update(live: Live)
      modifies this
      ensures files == Updated(old(files), live)
    {
      for i := 0 to |live|
        invariant files == Updated(old(files), live[..i])
      {
        var a := live[i];
        var kept := if a.area == STORIES then [] else ReadItems(files, a.area);
        assert live[..i + 1][..i] == live[..i];
        WriteItems(a.area, kept + a.items);
      }
      assert live[..|live|] == live;
    }

    method Prune(live: Live, suites: seq<text>)
      modifies this
      ensures files == Pruned(old(files), live, suites)
    {
      for i := 0 to |live|
        invariant files == Pruned(old(files), live[..i], suites)
      {
        var a := live[i];
        var others := SplitByOwner(a.area, ReadItems(files, a.area), suites).others;
        assert live[..i + 1][..i] == live[..i];
        WriteItems(a.area, others + a.items);
      }
      assert live[..|live|] == live;
    }

    /** The exit code, and the notices printed. */
    method Check(live: Live, suites: seq<text>) returns (code: nat, verdict: Verdict)
      ensures verdict == Checked(files, live, suites)
      ensures code == if verdict.failures == [] then 0 else 1
    {
      verdict := MergeVerdicts(AreaVerdicts(files, live, suites));
      code := if verdict.failures == [] then 0 else 1;
    }
  }

  // ------------------------------------------------------------ what a rewrite does

  /** The same file, or none. */
  predicate IsSameFile(f: Files, g: Files, area: string) {
    (area in f <==> area in g) && (area in f ==> f[area] == g[area])
  }

  lemma {:induction false} RewriteAllElsewhere(rewrite: Rewriter, files: Files, live: Live, area: string)
    requires forall i :: 0 <= i < |live| ==> live[i].area != area
    ensures IsSameFile(RewriteAll(rewrite, files, live), files, area)
  {
    if live != [] {
      RewriteAllElsewhere(rewrite, files, live[..|live| - 1], area);
    }
  }

  lemma RewrittenElsewhere(files: Files, live: Live, keep: Keeper, area: string)
    requires forall i :: 0 <= i < |live| ==> live[i].area != area
    ensures IsSameFile(Rewritten(files, live, keep), files, area)
  {
    RewriteAllElsewhere(Rewriting(keep), files, live, area);
  }

  lemma FrontAreas(live: Live, i: nat)
    requires HasDistinctAreas(live) && i < |live| - 1
    ensures var init := live[..|live| - 1];
            HasDistinctAreas(init) && init[i] == live[i] && live[i].area != live[|live| - 1].area
  {
  }

  /** What an area's file becomes depends on that file alone. */
  ghost predicate IsLocal(rewrite: Rewriter) {
    forall f: Files, g: Files, a: AreaItems {:trigger rewrite(f, a), rewrite(g, a)} ::
      IsSameFile(f, g, a.area) ==> rewrite(f, a) == rewrite(g, a)
  }

  lemma {:induction false} RewriteAllAt(rewrite: Rewriter, files: Files, live: Live, i: nat)
    requires HasDistinctAreas(live) && i < |live| && IsLocal(rewrite)
    ensures var after, a := RewriteAll(rewrite, files, live), live[i];
            a.area in after && after[a.area] == rewrite(files, a)
  {
    var init, last := live[..|live| - 1], live[|live| - 1];
    if i < |init| {
      FrontAreas(live, i);
      RewriteAllAt(rewrite, files, init, i);
    } else {
      RewriteAllElsewhere(rewrite, files, init, last.area);
    }
  }

  /** Each area reported gets one rewrite of what its file held at the start. */
  lemma RewrittenAt(files: Files, live: Live, keep: Keeper, i: nat)
    requires HasDistinctAreas(live) && i < |live|
    ensures var after, a := Rewritten(files, live, keep), live[i];
            && a.area in after
            && after[a.area] == Written(keep(a.area, ReadItems(files, a.area)) + a.items)
  {
    RewritingIsLocal(keep);
    RewriteAllAt(Rewriting(keep), files, live, i);
  }

  lemma RewritingIsLocal(keep: Keeper)
    ensures IsLocal(Rewriting(keep))
  {
    forall f: Files, g: Files, a: AreaItems | IsSameFile(f, g, a.area)
      ensures Rewriting(keep)(f, a) == Rewriting(keep)(g, a)
    {
      assert ReadItems(f, a.area) == ReadItems(g, a.area);
    }
  }

  lemma {:induction false} MergesEvery(verdicts: seq<Verdict>)
    ensures MergeVerdicts(verdicts).failures == []
            <==> forall i :: 0 <= i < |verdicts| ==> verdicts[i].failures == []
    ensures MergeVerdicts(verdicts).warnings == []
            <==> forall i :: 0 <= i < |verdicts| ==> verdicts[i].warnings == []
  {
    if verdicts != [] {
      var rest := verdicts[1..];
      MergesEvery(rest);
      assert forall i :: 1 <= i < |verdicts| ==> verdicts[i] == rest[i - 1];
      assert forall i :: 0 <= i < |rest| ==> rest[i] == verdicts[i + 1];
    }
  }

  /** A check passes, or is silent, when it is so on every area. */
  lemma ChecksEveryArea(files: Files, live: Live, suites: seq<text>)
    ensures Checked(files, live, suites).failures == []
            <==> forall i :: 0 <= i < |live| ==> AreaVerdict(files, live[i], suites).failures == []
    ensures Checked(files, live, suites).warnings == []
            <==> forall i :: 0 <= i < |live| ==> AreaVerdict(files, live[i], suites).warnings == []
  {
    var verdicts := AreaVerdicts(files, live, suites);
    MergesEvery(verdicts);
    assert forall i :: 0 <= i < |live| ==> verdicts[i] == AreaVerdict(files, live[i], suites);
  }

  /** Items a file line can hold, tests also owned by a suite that ran. */
  predicate IsRecordable(a: AreaItems, suites: seq<text>) {
    forall x :: x in a.items ==> IsLineSafe(x) && (a.area == TESTS ==> IsOwned(x, suites))
  }

  predicate AreRecordable(live: Live, suites: seq<text>) {
    forall i :: 0 <= i < |live| ==> IsRecordable(live[i], suites)
  }

  lemma CommittedAreSafe(files: Files, area: string)
    ensures forall x :: x in ReadItems(files, area) ==> IsLineSafe(x)
  {
    if area in files {
      ReadsOnlySafeItems(files[area]);
    }
  }

  /** An area's file after a rewrite: what was kept, and every line of what is reported. */
  lemma AreaHolds(kept: seq<text>, items: seq<text>, x: text)
    requires forall y :: y in kept ==> IsLineSafe(y)
    ensures x in Read(Written(kept + items)) ==> IsLineSafe(x)
    ensures x in Read(Written(kept + items))
            <==> x in kept || exists item :: item in items && x in ReadBack(item)
  {
    ReadsOnlySafeItems(Written(kept + items));
    WrittenHolds(kept + items, x);
    if x in kept {
      ReadsBackExactly(x);
      assert x in kept + items;
    }
    if item :| item in items && x in ReadBack(item) {
      assert item in kept + items;
    }
    if item :| item in kept + items && x in ReadBack(item) && item in kept {
      ReadsBackExactly(item);
    }
  }

  /** With recordable items only, that is what was kept and what is reported. */
  lemma AreaHoldsExactly(kept: seq<text>, items: seq<text>)
    requires forall y :: y in kept || y in items ==> IsLineSafe(y)
    ensures forall x :: x in Read(Written(kept + items)) <==> x in kept || x in items
  {
    ReadsWhatWasWritten(map[], "", kept + items);
  }

  /** Checking an area just rewritten passes exactly when its items are recordable. */
  lemma RewrittenAreaPasses(kept: seq<text>, a: AreaItems, suites: seq<text>)
    requires forall y :: y in kept ==> IsLineSafe(y)
    requires a.area == STORIES ==> kept == []
    ensures CompareArea(Read(Written(kept + a.items)), a, suites).failures == [] <==> IsRecordable(a, suites)
  {
    var committed := Read(Written(kept + a.items));
    AreaPassesExactly(committed, a, suites);
    if IsRecordable(a, suites) {
      AreaHoldsExactly(kept, a.items);
    } else if CompareArea(committed, a, suites).failures == [] {
      ReadsOnlySafeItems(Written(kept + a.items));
    }
  }

  /** After an update the same report checks without a failure exactly when all of it is recordable. */
  lemma UpdateThenCheck(files: Files, live: Live, suites: seq<text>)
    requires HasDistinctAreas(live)
    ensures Checked(Updated(files, live), live, suites).failures == [] <==> AreRecordable(live, suites)
  {
    var after := Updated(files, live);
    ChecksEveryArea(after, live, suites);
    forall i | 0 <= i < |live|
      ensures AreaVerdict(after, live[i], suites).failures == [] <==> IsRecordable(live[i], suites)
    {
      var a := live[i];
      RewrittenAt(files, live, UpdateKeeps(), i);
      CommittedAreSafe(files, a.area);
      RewrittenAreaPasses(UpdateKeeps()(a.area, ReadItems(files, a.area)), a, suites);
    }
  }

  /**
   An update keeps every recorded item but the stories; with line-safe items an area
   holds those and what is reported, nothing else; other areas keep their file.
   */
  lemma UpdateOnlyAdds(files: Files, live: Live, i: nat)
    requires HasDistinctAreas(live) && i < |live|
    ensures var a, after := live[i], ReadItems(Updated(files, live), live[i].area);
            var kept := if a.area == STORIES then [] else ReadItems(files, a.area);
            && (forall x :: x in kept ==> x in after)
            && ((forall x :: x in a.items ==> IsLineSafe(x)) ==>
                forall x :: x in after <==> x in kept || x in a.items)
    ensures forall area ::
              (forall j :: 0 <= j < |live| ==> live[j].area != area)
              ==> ReadItems(Updated(files, live), area) == ReadItems(files, area)
  {
    var a := live[i];
    var kept := if a.area == STORIES then [] else ReadItems(files, a.area);
    RewrittenAt(files, live, UpdateKeeps(), i);
    CommittedAreSafe(files, a.area);
    forall x | x in kept
      ensures x in Read(Written(kept + a.items))
    {
      AreaHolds(kept, a.items, x);
    }
    if forall x :: x in a.items ==> IsLineSafe(x) {
      AreaHoldsExactly(kept, a.items);
    }
    forall area | forall j :: 0 <= j < |live| ==> live[j].area != area
      ensures ReadItems(Updated(files, live), area) == ReadItems(files, area)
    {
      RewrittenElsewhere(files, live, UpdateKeeps(), area);
    }
  }

  lemma PrunedAreaIsClean(committed: seq<text>, a: AreaItems, suites: seq<text>)
    requires forall y :: y in committed ==> IsLineSafe(y)
    requires IsRecordable(a, suites)
    ensures var kept := SplitByOwner(a.area, committed, suites).others;
            CompareArea(Read(Written(kept + a.items)), a, suites).warnings == []
  {
    var kept := SplitByOwner(a.area, committed, suites).others;
    ThoseHave(committed, suites, false);
    AreaHoldsExactly(kept, a.items);
    AreaPassesExactly(Read(Written(kept + a.items)), a, suites);
  }

  /** After a prune the same report checks with no notice at all exactly when all of it is recordable. */
  lemma PruneThenCheck(files: Files, live: Live, suites: seq<text>)
    requires HasDistinctAreas(live)
    ensures Checked(Pruned(files, live, suites), live, suites) == Verdict([], []) <==> AreRecordable(live, suites)
    ensures Checked(Pruned(files, live, suites), live, suites).failures == [] <==> AreRecordable(live, suites)
  {
    var after := Pruned(files, live, suites);
    ChecksEveryArea(after, live, suites);
    forall i | 0 <= i < |live|
      ensures var v := AreaVerdict(after, live[i], suites);
              && (v.failures == [] <==> IsRecordable(live[i], suites))
              && (IsRecordable(live[i], suites) ==> v.warnings == [])
    {
      var a := live[i];
      var committed := ReadItems(files, a.area);
      RewrittenAt(files, live, PruneKeeps(suites), i);
      CommittedAreSafe(files, a.area);
      ThoseHave(committed, suites, false);
      RewrittenAreaPasses(SplitByOwner(a.area, committed, suites).others, a, suites);
      if IsRecordable(a, suites) {
        PrunedAreaIsClean(committed, a, suites);
      }
    }
  }

  /**
   A prune keeps every test entry of a suite that did not run; with recordable items
   an area holds those and what is reported, nothing else; other areas keep their file.
   */
  lemma PruneKeepsOthers(files: Files, live: Live, suites: seq<text>, i: nat)
    requires HasDistinctAreas(live) && i < |live|
    ensures var before, after := ReadItems(files, live[i].area), ReadItems(Pruned(files, live, suites), live[i].area);
            && (live[i].area == TESTS ==> forall x :: x in before && !IsOwned(x, suites) ==> x in after)
            && (IsRecordable(live[i], suites) ==>
                forall x :: x in after <==>
                  x in live[i].items || (live[i].area == TESTS && x in before && !IsOwned(x, suites)))
    ensures forall area ::
              (forall j :: 0 <= j < |live| ==> live[j].area != area)
              ==> ReadItems(Pruned(files, live, suites), area) == ReadItems(files, area)
  {
    var a := live[i];
    var committed := ReadItems(files, a.area);
    var kept := SplitByOwner(a.area, committed, suites).others;
    RewrittenAt(files, live, PruneKeeps(suites), i);
    CommittedAreSafe(files, a.area);
    ThoseHave(committed, suites, false);
    forall x | x in kept
      ensures x in Read(Written(kept + a.items))
    {
      AreaHolds(kept, a.items, x);
    }
    if IsRecordable(a, suites) {
      AreaHoldsExactly(kept, a.items);
    }
    forall area | forall j :: 0 <= j < |live| ==> live[j].area != area
      ensures ReadItems(Pruned(files, live, suites), area) == ReadItems(files, area)
    {
      RewrittenElsewhere(files, live, PruneKeeps(suites), area);
    }
  }

  // ------------------------------------------------------------------ rewriting twice

  /** The same items are kept and reported of an area. */
  ghost predicate KeepsAlike(f: Files, g: Files, a: AreaItems, keep: Keeper) {
    forall x :: x in keep(a.area, ReadItems(f, a.area)) + a.items <==> x in keep(a.area, ReadItems(g, a.area)) + a.items
  }

  lemma AgreeAt(f: Files, g: Files, live: Live, keep: Keeper, i: nat)
    requires HasDistinctAreas(live) && i < |live| && KeepsAlike(f, g, live[i], keep)
    ensures var x, y, area := Rewritten(f, live, keep), Rewritten(g, live, keep), live[i].area;
            area in x && area in y && x[area] == y[area]
  {
    var a := live[i];
    RewrittenAt(f, live, keep, i);
    RewrittenAt(g, live, keep, i);
    SameItemsSortAlike(keep(a.area, ReadItems(f, a.area)) + a.items, keep(a.area, ReadItems(g, a.area)) + a.items);
  }

  lemma SameFiles(f: Files, g: Files)
    requires forall area :: IsSameFile(f, g, area)
    ensures f == g
  {
    forall area
      ensures (area in f <==> area in g) && (area in f ==> f[area] == g[area])
    {
      assert IsSameFile(f, g, area);
    }
  }

  /** Two sets of files that rewrite alike: the same areas, and the same kept items and text behind each. */
  lemma RewritesAgree(f: Files, g: Files, live: Live, keep: Keeper)
    requires HasDistinctAreas(live)
    requires forall i :: 0 <= i < |live| ==> KeepsAlike(f, g, live[i], keep)
    requires forall area :: (forall i :: 0 <= i < |live| ==> live[i].area != area) ==> IsSameFile(f, g, area)
    ensures Rewritten(f, live, keep) == Rewritten(g, live, keep)
  {
    var x, y := Rewritten(f, live, keep), Rewritten(g, live, keep);
    forall area
      ensures IsSameFile(x, y, area)
    {
      if i :| 0 <= i < |live| && live[i].area == area {
        AgreeAt(f, g, live, keep, i);
      } else {
        assert IsSameFile(f, g, area);
        RewrittenElsewhere(f, live, keep, area);
        RewrittenElsewhere(g, live, keep, area);
      }
    }
    SameFiles(x, y);
  }

  /** How long a file of these items is. */
  function Size(items: seq<text>): nat {
    if items == [] then 0 else |Scalars(items[0])| + 1 + Size(items[1..])
  }

  lemma {:induction false} FileSize(items: seq<text>)
    ensures |FileOf(items)| == Size(items)
  {
    if items != [] {
      FileSize(items[1..]);
      LinesGrow(items);
      ScalarsJoin(items[0], BREAK, Lines(items[1..]));
    }
  }

  lemma {:induction false} SizeWithout(items: seq<text>, i: nat)
    requires i < |items|
    ensures Size(items) == Size(items[..i] + items[i + 1..]) + |Scalars(items[i])| + 1
  {
    var rest := items[..i] + items[i + 1..];
    if i == 0 {
      assert rest == items[1..];
    } else {
      SizeWithout(items[1..], i - 1);
      assert rest[1..] == items[1..][..i - 1] + items[1..][i..];
    }
  }

  /** A file of more items is longer. */
  lemma {:induction false} MoreIsLonger(few: seq<text>, many: seq<text>)
    requires Distinct(few) && forall x :: x in few ==> x in many
    ensures Size(few) <= Size(many)
    ensures (exists x :: x in many && x !in few) ==> Size(few) < Size(many)
    decreases |few|
  {
    if few != [] {
      assert few[0] in few;
      var i :| 0 <= i < |many| && many[i] == few[0];
      var rest := many[..i] + many[i + 1..];
      forall x | x in few[1..]
        ensures x in rest
      {
        assert x in many && x != few[0];
      }
      MoreIsLonger(few[1..], rest);
      SizeWithout(many, i);
      if x :| x in many && x !in few {
        assert x in rest;
      }
    }
  }

  lemma {:induction false} UniqueIsDistinct(items: seq<text>)
    requires forall x :: multiset(items)[x] <= 1
    ensures Distinct(items)
  {
    forall i, j | 0 <= i < j < |items|
      ensures items[i] != items[j]
    {
      assert items == items[..j] + [items[j]] + items[j + 1..];
      assert multiset(items) == multiset(items[..j]) + multiset{items[j]} + multiset(items[j + 1..]);
      assert items[i] in items[..j];
      assert multiset(items)[items[j]] <= 1;
    }
  }

  /** Files of a set of items and of a larger one are never the same. */
  lemma SameFileSameItems(few: seq<text>, many: seq<text>)
    requires (forall x :: x in few ==> x in many) && Written(few) == Written(many)
    ensures forall x :: x in many ==> x in few
  {
    var a, b := Sorted(Unique(few)), Sorted(Unique(many));
    SortedUniqueKeeps(few);
    SortedUniqueKeeps(many);
    UniqueKeeps(few);
    SortedSorts(Unique(few));
    UniqueIsDistinct(a);
    FileSize(a);
    FileSize(b);
    MoreIsLonger(a, b);
  }

  /** The test entries a report leaves behind that belong to no suite that ran: lines of its items. */
  predicate LeavesNothing(committed: seq<text>, a: AreaItems, suites: seq<text>) {
    a.area == TESTS ==>
      forall item, x :: item in a.items && x in ReadBack(item) && !IsOwned(x, suites) ==> x in a.items || x in committed
  }

  predicate LeaveNothing(files: Files, live: Live, suites: seq<text>) {
    forall i :: 0 <= i < |live| ==> LeavesNothing(ReadItems(files, live[i].area), live[i], suites)
  }

  /** What a prune keeps of an area's file, once rewritten by an update or a prune. */
  lemma PruneKeepsAfter(committed: seq<text>, kept: seq<text>, a: AreaItems, suites: seq<text>, x: text)
    requires forall y :: y in committed ==> IsLineSafe(y)
    requires forall y :: y in kept ==> y in committed
    requires a.area == TESTS ==> forall y :: y in committed && !IsOwned(y, suites) ==> y in kept
    ensures x in SplitByOwner(a.area, Read(Written(kept + a.items)), suites).others <==>
            || x in SplitByOwner(a.area, committed, suites).others
            || (a.area == TESTS && !IsOwned(x, suites) && exists item :: item in a.items && x in ReadBack(item))
  {
    ThoseHave(committed, suites, false);
    ThoseHave(Read(Written(kept + a.items)), suites, false);
    AreaHolds(kept, a.items, x);
  }

  /** One area is pruned alike, before and after that, exactly when nothing is left behind. */
  lemma AreaPrunesAlike(committed: seq<text>, kept: seq<text>, a: AreaItems, suites: seq<text>)
    requires forall y :: y in committed ==> IsLineSafe(y)
    requires forall y :: y in kept ==> y in committed
    requires a.area == TESTS ==> forall y :: y in committed && !IsOwned(y, suites) ==> y in kept
    ensures var before := SplitByOwner(a.area, committed, suites).others + a.items;
            var after := SplitByOwner(a.area, Read(Written(kept + a.items)), suites).others + a.items;
            && (LeavesNothing(committed, a, suites) <==> forall x :: x in after <==> x in before)
            && (LeavesNothing(committed, a, suites) <==> Written(after) == Written(before))
  {
    var before := SplitByOwner(a.area, committed, suites).others + a.items;
    var after := SplitByOwner(a.area, Read(Written(kept + a.items)), suites).others + a.items;
    ThoseHave(committed, suites, false);
    forall x
      ensures x in after <==>
              x in before
              || (a.area == TESTS && !IsOwned(x, suites) && exists item :: item in a.items && x in ReadBack(item))
    {
      PruneKeepsAfter(committed, kept, a, suites, x);
    }
    if forall x :: x in after <==> x in before {
      SameItemsSortAlike(after, before);
    } else if Written(after) == Written(before) {
      SameFileSameItems(before, after);
    }
  }

  /** A rewrite that drops no test entry of a suite that did not run, and adds none. */
  ghost predicate KeepsOthers(keep: Keeper, suites: seq<text>) {
    forall area, committed ::
      && (forall y :: y in keep(area, committed) ==> y in committed)
      && (area == TESTS ==> forall y :: y in committed && !IsOwned(y, suites) ==> y in keep(area, committed))
  }

  lemma BothKeepOthers(suites: seq<text>)
    ensures KeepsOthers(UpdateKeeps(), suites) && KeepsOthers(PruneKeeps(suites), suites)
  {
    forall area, committed
      ensures var kept := PruneKeeps(suites)(area, committed);
              && (forall y :: y in kept ==> y in committed)
              && (area == TESTS ==> forall y :: y in committed && !IsOwned(y, suites) ==> y in kept)
    {
      ThoseHave(committed, suites, false);
    }
  }

  lemma PrunedAreaAfter(files: Files, live: Live, suites: seq<text>, keep: Keeper, i: nat)
    requires HasDistinctAreas(live) && KeepsOthers(keep, suites) && i < |live|
    ensures var area, items, prune := live[i].area, live[i].items, PruneKeeps(suites);
            var before := prune(area, ReadItems(files, area)) + items;
            var after := prune(area, ReadItems(Rewritten(files, live, keep), area)) + items;
            && (LeavesNothing(ReadItems(files, area), live[i], suites) <==> forall x :: x in after <==> x in before)
            && (LeavesNothing(ReadItems(files, area), live[i], suites) <==> Written(after) == Written(before))
  {
    var a, committed := live[i], ReadItems(files, live[i].area);
    RewrittenAt(files, live, keep, i);
    CommittedAreSafe(files, a.area);
    assert ReadItems(Rewritten(files, live, keep), a.area) == Read(Written(keep(a.area, committed) + a.items));
    AreaPrunesAlike(committed, keep(a.area, committed), a, suites);
  }

  lemma PruneForgets(files: Files, live: Live, suites: seq<text>, keep: Keeper)
    requires HasDistinctAreas(live) && KeepsOthers(keep, suites) && LeaveNothing(files, live, suites)
    ensures Pruned(Rewritten(files, live, keep), live, suites) == Pruned(files, live, suites)
  {
    var after, prune := Rewritten(files, live, keep), PruneKeeps(suites);
    forall i | 0 <= i < |live|
      ensures KeepsAlike(after, files, live[i], prune)
    {
      PrunedAreaAfter(files, live, suites, keep, i);
    }
    forall area | forall i :: 0 <= i < |live| ==> live[i].area != area
      ensures IsSameFile(after, files, area)
    {
      RewrittenElsewhere(files, live, keep, area);
    }
    RewritesAgree(after, files, live, prune);
  }

  /** A prune after an update, or after a prune, is a prune alone exactly when nothing is left behind. */
  lemma PruneAfter(files: Files, live: Live, suites: seq<text>, keep: Keeper)
    requires HasDistinctAreas(live) && KeepsOthers(keep, suites)
    ensures Pruned(Rewritten(files, live, keep), live, suites) == Pruned(files, live, suites)
            <==> LeaveNothing(files, live, suites)
  {
    if LeaveNothing(files, live, suites) {
      PruneForgets(files, live, suites, keep);
    } else {
      var i :| 0 <= i < |live| && !LeavesNothing(ReadItems(files, live[i].area), live[i], suites);
      PrunedAreaAfter(files, live, suites, keep, i);
      RewrittenAt(Rewritten(files, live, keep), live, PruneKeeps(suites), i);
      RewrittenAt(files, live, PruneKeeps(suites), i);
    }
  }

  /**
   A second prune changes nothing, and an update before a prune leaves no trace,
   exactly when no line of a reported test stays behind: an unowned one that is
   neither recorded nor reported.
   */
  lemma PruneSettlesExactly(files: Files, live: Live, suites: seq<text>)
    requires HasDistinctAreas(live)
    ensures Pruned(Pruned(files, live, suites), live, suites) == Pruned(files, live, suites)
            <==> LeaveNothing(files, live, suites)
    ensures Pruned(Updated(files, live), live, suites) == Pruned(files, live, suites)
            <==> LeaveNothing(files, live, suites)
  {
    BothKeepOthers(suites);
    PruneAfter(files, live, suites, PruneKeeps(suites));
    PruneAfter(files, live, suites, UpdateKeeps());
  }

  lemma RecordableAreaLeavesNothing(committed: seq<text>, a: AreaItems, suites: seq<text>)
    requires IsRecordable(a, suites)
    ensures LeavesNothing(committed, a, suites)
  {
    forall item | item in a.items
      ensures ReadBack(item) == [item]
    {
      ReadsBackExactly(item);
    }
  }

  /** A recordable report leaves nothing behind. */
  lemma RecordableLeavesNothing(files: Files, live: Live, suites: seq<text>)
    requires AreRecordable(live, suites)
    ensures LeaveNothing(files, live, suites)
  {
    forall i | 0 <= i < |live|
      ensures LeavesNothing(ReadItems(files, live[i].area), live[i], suites)
    {
      RecordableAreaLeavesNothing(ReadItems(files, live[i].area), live[i], suites);
    }
  }

  /** The line behind a break in a reported name stays behind, unless it is owned, recorded or reported itself. */
  lemma BrokenNameStaysBehind(committed: seq<text>, a: AreaItems, suites: seq<text>, head: text, tail: text)
    requires a.area == TESTS && head + [BREAK] + tail in a.items
    requires IsLineSafe(tail) && !IsOwned(tail, suites) && tail !in a.items && tail !in committed
    ensures !LeavesNothing(committed, a, suites)
  {
    ScalarsJoin(head, BREAK, tail);
    ReadsJoined(Scalars(head), Scalars(tail));
    ReadsBackExactly(tail);
    assert tail in ReadBack(head + [BREAK] + tail);
  }

  /** A third prune never changes anything, whatever was left behind. */
  lemma TwoPrunesSettle(files: Files, live: Live, suites: seq<text>)
    requires HasDistinctAreas(live)
    ensures var twice := Pruned(Pruned(files, live, suites), live, suites);
            Pruned(twice, live, suites) == twice
  {
    var once := Pruned(files, live, suites);
    forall i, item, x | 0 <= i < |live| && item in live[i].items && x in ReadBack(item)
      ensures x in ReadItems(once, live[i].area)
    {
      RewrittenAt(files, live, PruneKeeps(suites), i);
      WrittenHolds(PruneKeeps(suites)(live[i].area, ReadItems(files, live[i].area)) + live[i].items, x);
      assert item in PruneKeeps(suites)(live[i].area, ReadItems(files, live[i].area)) + live[i].items;
    }
    PruneSettlesExactly(once, live, suites);
  }
}
