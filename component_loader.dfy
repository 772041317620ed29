/**
 * state-management/component-loader.ts: a reference-counting table of the loaders
 * and screen blockers registered under string ids, and the loader state it publishes.
 * The counting rules are stated as pure steps on a `Table`; the `ComponentLoader`
 * class updates its fields as those steps say.
 */
module ComponentLoading {

  /** One id's entry: how many loads are open and whether it blocks the screen. */
  datatype Entry = Entry(count: int, blocks: bool)

  /** The counters and the table of entries. */
  datatype Table = Table(isBlockedCount: int, loadersCount: int, loaders: map<string, Entry>)

  /** The state the loader publishes (`ComponentLoaderState`). */
  datatype LoaderState = LoaderState(isLoading: bool, isBlocked: bool)

  const EmptyTable := Table(0, 0, map[])

  /** The sum of the counts of all entries. */
  ghost function SumCounts(m: map<string, Entry>): int
    decreases |m|
  {
    if m == map[] then 0
    else
      var k :| k in m;
      m[k].count + SumCounts(m - {k})
  }

  /** The ids whose entry blocks the screen. */
  ghost function BlockingIds(m: map<string, Entry>): set<string> {
    set k | k in m && m[k].blocks
  }

  /** The counting invariant: `loadersCount` is the sum of the counts and
      `isBlockedCount` the number of blocking entries. */
  ghost predicate Counted(t: Table) {
    t.loadersCount == SumCounts(t.loaders) && t.isBlockedCount == |BlockingIds(t.loaders)|
  }

  /** The published flags (the `isLoading` and `isBlocked` getters). */
  function Flags(t: Table): LoaderState {
    LoaderState(t.loadersCount > 0, t.isBlockedCount > 0)
  }

  /** Any entry's count can be taken out of the sum. */
  lemma {:induction false} SumCountsRemove(m: map<string, Entry>, k: string)
    requires k in m
    ensures SumCounts(m) == m[k].count + SumCounts(m - {k})
    decreases |m|
  {
    var j :| j in m && SumCounts(m) == m[j].count + SumCounts(m - {j});
    if j != k {
      SumCountsRemove(m - {j}, k);
      SumCountsRemove(m - {k}, j);
      assert m - {j} - {k} == m - {k} - {j};
    }
  }

  /** Replacing (or adding) one entry changes the sum by the difference of counts. */
  lemma SumCountsUpdate(m: map<string, Entry>, k: string, e: Entry)
    ensures SumCounts(m[k := e]) == SumCounts(m) - (if k in m then m[k].count else 0) + e.count
  {
    SumCountsRemove(m[k := e], k);
    assert m[k := e] - {k} == m - {k};
    if k in m {
      SumCountsRemove(m, k);
    } else {
      assert m - {k} == m;
    }
  }

  /** Replacing (or adding) one entry changes the blocking set only at that id. */
  lemma BlockingIdsUpdate(m: map<string, Entry>, k: string, e: Entry)
    ensures |BlockingIds(m[k := e])| == |BlockingIds(m)|
      - (if k in m && m[k].blocks then 1 else 0) + (if e.blocks then 1 else 0)
  {
    var others := BlockingIds(m) - {k};
    assert k !in others;
    assert BlockingIds(m[k := e]) - {k} == others;
    if e.blocks {
      assert BlockingIds(m[k := e]) == others + {k};
    } else {
      assert BlockingIds(m[k := e]) == others;
    }
    if k in m && m[k].blocks {
      assert BlockingIds(m) == others + {k};
    } else {
      assert BlockingIds(m) == others;
    }
  }

  /** `markLoading(id, shouldBlockScreen)`: a missing entry is created; its count and
      `loadersCount` grow by one; a blocking request on an entry that does not block
      yet makes it block and counts it once. */
  function MarkLoadingStep(t: Table, id: string, shouldBlockScreen: bool): (r: Table)
    ensures id in r.loaders && r.loaders.Keys == t.loaders.Keys + {id}
    ensures forall k :: k in t.loaders && k != id ==> r.loaders[k] == t.loaders[k]
    ensures r.loaders[id].count == (if id in t.loaders then t.loaders[id].count else 0) + 1
    ensures r.loadersCount == t.loadersCount + 1
    ensures r.loaders[id].blocks <==> (id in t.loaders && t.loaders[id].blocks) || shouldBlockScreen
    ensures r.isBlockedCount == t.isBlockedCount
      + (if shouldBlockScreen && !(id in t.loaders && t.loaders[id].blocks) then 1 else 0)
  {
    var e := if id in t.loaders then t.loaders[id] else Entry(0, false);
    var blocksNow := !e.blocks && shouldBlockScreen;
    Table(if blocksNow then t.isBlockedCount + 1 else t.isBlockedCount,
          t.loadersCount + 1,
          t.loaders[id := Entry(e.count + 1, e.blocks || blocksNow)])
  }

  /** `markNotLoading(id, unblockNow)` as the code reads: the second branch clears the
      block and decrements `isBlockedCount` whether or not the entry blocked. */
  function MarkNotLoadingAsWritten(t: Table, id: string, unblockNow: bool): (r: Table)
    ensures id !in t.loaders ==> r == t
    ensures id in t.loaders ==>
      var e := t.loaders[id];
      var released := (e.blocks && e.count - 1 <= 0) || unblockNow;
      && r.loadersCount == t.loadersCount - 1
      && r.loaders == t.loaders[id := Entry(e.count - 1, e.blocks && !released)]
      && r.isBlockedCount == t.isBlockedCount - (if released then 1 else 0)
    ensures id in t.loaders && unblockNow ==>
      r.isBlockedCount == t.isBlockedCount - 1 && !r.loaders[id].blocks
  {
    if id !in t.loaders then t
    else
      var e := t.loaders[id];
      var count := e.count - 1;
      if e.blocks && count <= 0 then
        Table(t.isBlockedCount - 1, t.loadersCount - 1, t.loaders[id := Entry(count, false)])
      else if unblockNow then
        Table(t.isBlockedCount - 1, t.loadersCount - 1, t.loaders[id := Entry(count, false)])
      else
        Table(t.isBlockedCount, t.loadersCount - 1, t.loaders[id := Entry(count, e.blocks)])
  }

  /** `markNotLoading(id, unblockNow)` with the block released only from an entry that
      blocks: an unknown id changes nothing; otherwise the count and `loadersCount`
      drop by one, and the block is released when the count reaches zero or on
      `unblockNow`. */
  function MarkNotLoadingStep(t: Table, id: string, unblockNow: bool): (r: Table)
    ensures id !in t.loaders ==> r == t
    ensures id in t.loaders ==>
      var e := t.loaders[id];
      var released := e.blocks && (e.count - 1 <= 0 || unblockNow);
      && r.loadersCount == t.loadersCount - 1
      && r.loaders == t.loaders[id := Entry(e.count - 1, e.blocks && !released)]
      && r.isBlockedCount == t.isBlockedCount - (if released then 1 else 0)
  {
    if id !in t.loaders then t
    else
      var e := t.loaders[id];
      var count := e.count - 1;
      if e.blocks && count <= 0 then
        Table(t.isBlockedCount - 1, t.loadersCount - 1, t.loaders[id := Entry(count, false)])
      else if unblockNow && e.blocks then
        Table(t.isBlockedCount - 1, t.loadersCount - 1, t.loaders[id := Entry(count, false)])
      else
        Table(t.isBlockedCount, t.loadersCount - 1, t.loaders[id := Entry(count, e.blocks)])
  }

  /** `detachLoader(trackingId)`: an unknown id changes nothing; otherwise the entry's
      whole count leaves `loadersCount`, its block is released once, and the entry is
      reset to a zero count that does not block. */
  function DetachStep(t: Table, id: string): (r: Table)
    ensures id !in t.loaders ==> r == t
    ensures id in t.loaders ==>
      && r.loadersCount == t.loadersCount - t.loaders[id].count
      && r.isBlockedCount == t.isBlockedCount - (if t.loaders[id].blocks then 1 else 0)
      && r.loaders == t.loaders[id := Entry(0, false)]
  {
    if id !in t.loaders then t
    else
      var e := t.loaders[id];
      Table(if e.blocks then t.isBlockedCount - 1 else t.isBlockedCount,
            t.loadersCount - e.count,
            t.loaders[id := Entry(0, false)])
  }

  /** The empty table is counted. */
  lemma EmptyTableCounted()
    ensures Counted(EmptyTable) && Flags(EmptyTable) == LoaderState(false, false)
  {
    assert BlockingIds(map[]) == {};
  }

  /** `markLoading` keeps the counting invariant. */
  lemma MarkLoadingKeepsCounted(t: Table, id: string, shouldBlockScreen: bool)
    requires Counted(t)
    ensures Counted(MarkLoadingStep(t, id, shouldBlockScreen))
  {
    var e := if id in t.loaders then t.loaders[id] else Entry(0, false);
    var e' := MarkLoadingStep(t, id, shouldBlockScreen).loaders[id];
    assert MarkLoadingStep(t, id, shouldBlockScreen).loaders == t.loaders[id := e'];
    SumCountsUpdate(t.loaders, id, e');
    BlockingIdsUpdate(t.loaders, id, e');
  }

  /** `markNotLoading` keeps the counting invariant. */
  lemma MarkNotLoadingKeepsCounted(t: Table, id: string, unblockNow: bool)
    requires Counted(t)
    ensures Counted(MarkNotLoadingStep(t, id, unblockNow))
  {
    if id in t.loaders {
      var e' := MarkNotLoadingStep(t, id, unblockNow).loaders[id];
      SumCountsUpdate(t.loaders, id, e');
      BlockingIdsUpdate(t.loaders, id, e');
    }
  }

  /** `detachLoader` keeps the counting invariant. */
  lemma DetachKeepsCounted(t: Table, id: string)
    requires Counted(t)
    ensures Counted(DetachStep(t, id))
  {
    if id in t.loaders {
      SumCountsUpdate(t.loaders, id, Entry(0, false));
      BlockingIdsUpdate(t.loaders, id, Entry(0, false));
    }
  }

  /** Under the counting invariant, the screen is blocked exactly when some entry
      blocks it. */
  lemma BlockedIffSomeEntryBlocks(t: Table)
    requires Counted(t)
    ensures Flags(t).isBlocked <==> exists k :: k in t.loaders && t.loaders[k].blocks
  {
    if exists k :: k in t.loaders && t.loaders[k].blocks {
      var k :| k in t.loaders && t.loaders[k].blocks;
      assert k in BlockingIds(t.loaders);
    } else {
      assert BlockingIds(t.loaders) == {};
    }
  }

  lemma BlockedIfCounted(t: Table)
    ensures Counted(t) ==> (t.isBlockedCount > 0 <==> exists k :: k in t.loaders && t.loaders[k].blocks)
  {
    if Counted(t) {
      BlockedIffSomeEntryBlocks(t);
    }
  }

  /** As written, `markNotLoading(id, true)` on an entry that does not block still
      decrements `isBlockedCount`: after `markLoading("a")` and
      `markNotLoading("a", true)` the counter is -1, and a later blocking
      `markLoading("b", true)` leaves the screen unblocked. */
  lemma MarkNotLoadingAsWrittenLosesBlock()
    ensures var t1 := MarkNotLoadingAsWritten(MarkLoadingStep(EmptyTable, "a", false), "a", true);
      var t2 := MarkLoadingStep(t1, "b", true);
      && t1.isBlockedCount == -1
      && !Counted(t1)
      && t2.loaders["b"].blocks
      && !Flags(t2).isBlocked
  {
    var t1 := MarkNotLoadingAsWritten(MarkLoadingStep(EmptyTable, "a", false), "a", true);
    assert t1.loaders == map["a" := Entry(0, false)];
    assert BlockingIds(t1.loaders) == {};
  }

  /** Neither step guards against releasing more loads than were started: a second
      `markNotLoading("a")` drives the count below zero, and a later
      `markLoading("b")` then leaves the loader not loading. */
  lemma OverReleaseHidesLoader()
    ensures var t1 := MarkNotLoadingStep(MarkLoadingStep(EmptyTable, "a", false), "a", false);
      var t2 := MarkLoadingStep(MarkNotLoadingStep(t1, "a", false), "b", false);
      && t2.loaders["a"].count == -1
      && t2.loaders["b"].count == 1
      && !Flags(t2).isLoading
  {
  }

  /** The scenarios of component-loader.spec.ts for `markLoading`: one load makes the
      loader busy, and a blocking one also blocks the screen. */
  lemma ScenarioMarkLoading()
    ensures Flags(MarkLoadingStep(EmptyTable, "SOME_COMPONENT", false)) == LoaderState(true, false)
    ensures Flags(MarkLoadingStep(EmptyTable, "SOME_COMPONENT", true)) == LoaderState(true, true)
  {
  }

  /** Releasing one of two loaders keeps the loader busy. */
  lemma ScenarioOneOfTwoLoading()
    ensures var t := MarkLoadingStep(MarkLoadingStep(EmptyTable, "SOME_COMPONENT", false), "SOME_COMPONENT_2", false);
      Flags(MarkNotLoadingStep(t, "SOME_COMPONENT", false)).isLoading
  {
  }

  /** The scenario of component-loader.spec.ts "notLoading -> loading": marking an
      unknown id as not loading is harmless, and the later `markLoading` makes the
      loader busy. */
  lemma ScenarioNotLoadingThenLoading()
    ensures Flags(MarkLoadingStep(MarkNotLoadingStep(EmptyTable, "SOME_COMPONENT", false), "SOME_COMPONENT", false)).isLoading
  {
  }

  /** The scenario of component-loader.spec.ts "notLoading -> loading -> notLoading"
      ends not loading. */
  lemma ScenarioNotLoadingLoadingNotLoading()
    ensures var t := MarkNotLoadingStep(EmptyTable, "SOME_COMPONENT", false);
      !Flags(MarkNotLoadingStep(MarkLoadingStep(t, "SOME_COMPONENT", false), "SOME_COMPONENT", false)).isLoading
  {
  }

  /** Releasing one of two blocking loaders keeps the loader busy and the screen
      blocked; releasing both clears both flags. */
  lemma ScenarioTwoBlockingLoaders()
    ensures var t := MarkLoadingStep(MarkLoadingStep(EmptyTable, "SOME_COMPONENT", true), "SOME_COMPONENT_2", true);
      var one := MarkNotLoadingStep(t, "SOME_COMPONENT", false);
      var both := MarkNotLoadingStep(one, "SOME_COMPONENT_2", false);
      && Flags(one) == LoaderState(true, true)
      && Flags(both) == LoaderState(false, false)
  {
  }

  /** The component loader: the two counters, the table of entries and the last
      published state (the BehaviorSubject's value). */
  class ComponentLoader {
    var isBlockedCount: int
    var loadersCount: int
    var loaders: map<string, Entry>
    var loaderState: LoaderState

    /** The counters and the table as a value. */
    function Snapshot(): Table
      reads this
    {
      Table(isBlockedCount, loadersCount, loaders)
    }

    /** The counting invariant holds and the published state shows the current flags. */
    ghost predicate Valid()
      reads this
    {
      Counted(Snapshot()) && loaderState == Flags(Snapshot())
    }

    /** The `isLoading` getter: in a valid loader, some load is still open on
        balance over all entries. */
    function IsLoading(): (b: bool)
      reads this
      ensures Valid() ==> (b <==> SumCounts(loaders) > 0)
    {
      loadersCount > 0
    }

    /** The `isBlocked` getter: in a valid loader, some entry blocks the screen. */
    function IsBlocked(): (b: bool)
      reads this
      ensures Valid() ==> (b <==> exists k :: k in loaders && loaders[k].blocks)
    {
      BlockedIfCounted(Snapshot());
      isBlockedCount > 0
    }

    constructor()
      ensures Snapshot() == EmptyTable
      ensures loaderState == LoaderState(false, false)
      ensures Valid()
    {
      isBlockedCount := 0;
      loadersCount := 0;
      loaders := map[];
      loaderState := LoaderState(false, false);
      EmptyTableCounted();
    }

    /** `notifyLoaderChange()`: publishes the current flags when they differ from the
        last published state; `published` tells whether a state was published. */
    method NotifyLoaderChange() returns (published: bool)
      modifies this
      ensures Snapshot() == old(Snapshot())
      ensures published <==> Flags(Snapshot()) != old(loaderState)
      ensures loaderState == Flags(Snapshot())
    {
      var oldState := loaderState;
      var newState := LoaderState(IsLoading(), IsBlocked());
      published := false;
      if newState.isLoading != oldState.isLoading || newState.isBlocked != oldState.isBlocked {
        loaderState := newState;
        published := true;
      }
    }

    /** `markLoading(id, shouldBlockScreen)`. */
    method MarkLoading(id: string, shouldBlockScreen: bool) returns (published: bool)
      requires Valid()
      modifies this
      ensures Snapshot() == MarkLoadingStep(old(Snapshot()), id, shouldBlockScreen)
      ensures published <==> Flags(Snapshot()) != old(loaderState)
      ensures Valid()
    {
      MarkLoadingKeepsCounted(Snapshot(), id, shouldBlockScreen);
      var entry := if id in loaders then loaders[id] else Entry(0, false);
      entry := entry.(count := entry.count + 1);
      loadersCount := loadersCount + 1;
      if !entry.blocks && shouldBlockScreen {
        entry := entry.(blocks := true);
        isBlockedCount := isBlockedCount + 1;
      }
      loaders := loaders[id := entry];
      published := NotifyLoaderChange();
    }

    /** `markNotLoading(id, unblockNow)`, releasing a block only from an entry that
        blocks. */
    method MarkNotLoading(id: string, unblockNow: bool) returns (published: bool)
      requires Valid()
      modifies this
      ensures Snapshot() == MarkNotLoadingStep(old(Snapshot()), id, unblockNow)
      ensures published <==> Flags(Snapshot()) != old(loaderState)
      ensures Valid()
    {
      if id !in loaders {
        return false;
      }
      MarkNotLoadingKeepsCounted(Snapshot(), id, unblockNow);
      var entry := loaders[id];
      entry := entry.(count := entry.count - 1);
      loadersCount := loadersCount - 1;
      if entry.blocks && entry.count <= 0 {
        entry := entry.(blocks := false);
        isBlockedCount := isBlockedCount - 1;
      } else if unblockNow && entry.blocks {
        entry := entry.(blocks := false);
        isBlockedCount := isBlockedCount - 1;
      }
      loaders := loaders[id := entry];
      published := NotifyLoaderChange();
    }

    /** `detachLoader(trackingId)`. */
    method DetachLoader(trackingId: string) returns (published: bool)
      requires Valid()
      modifies this
      ensures Snapshot() == DetachStep(old(Snapshot()), trackingId)
      ensures published <==> Flags(Snapshot()) != old(loaderState)
      ensures Valid()
    {
      if trackingId !in loaders {
        return false;
      }
      DetachKeepsCounted(Snapshot(), trackingId);
      loadersCount := loadersCount - loaders[trackingId].count;
      if loaders[trackingId].blocks {
        isBlockedCount := isBlockedCount - 1;
      }
      loaders := loaders[trackingId := Entry(0, false)];
      published := NotifyLoaderChange();
    }
  }
}
