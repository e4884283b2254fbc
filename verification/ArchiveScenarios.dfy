/** Concrete runs in which the archive ends up with a gap, or with metadata that names a later block. */
module ArchiveScenarios {
  import opened ArchivePipeline
  import opened ArchiveLoop
  import opened ArchiveWrites

  const Works := Attempt(true, true, true)
  const NoFault := Faults(true, true, Done, Done, Done, Done)

  /** One round per block: execute it, archive it, compare. */
  function Rounds(faults: seq<Faults>): seq<Event> {
    if faults == [] then []
    else Rounds(faults[..|faults| - 1]) + [Execute(Works)] + [Archive(faults[|faults| - 1])] + [Compare]
  }

  lemma OneRound(w: World, s: State, n: nat, f: Faults)
    requires s.started && !s.executorHalted && s.execQ == [n] && s.compQ == [] && s.archQ == [] && !s.archiverHalted
    requires n < s.best && f.metadataKnown
    ensures Step(w, Step(w, Step(w, s, Execute(Works)), Archive(f)), Compare) ==
            s.(execQ := [n + 1], db := StoreMessage(s.db, Message(n, RowOf(w, n, true)), f).0)
  {
    var m := Message(n, RowOf(w, n, true));
    var t := Step(w, s, Execute(Works));
    assert t == s.(execQ := [], compQ := [n], archQ := [m]);
    assert Step(w, t, Archive(f)) == t.(archQ := [], db := StoreMessage(s.db, m, f).0);
  }

  function StoreAll(w: World, d: Store, faults: seq<Faults>): Store {
    if faults == [] then d
    else
      var n := |faults| - 1;
      StoreMessage(StoreAll(w, d, faults[..n]), Message(n, RowOf(w, n, true)), faults[n]).0
  }

  lemma {:induction false} RoundsRun(w: World, s: State, faults: seq<Faults>)
    requires s.started && !s.executorHalted && s.execQ == [0] && s.compQ == [] && s.archQ == [] && !s.archiverHalted
    requires |faults| <= s.best && forall i :: 0 <= i < |faults| ==> faults[i].metadataKnown
    ensures Run(w, s, Rounds(faults)) == s.(execQ := [|faults|], db := StoreAll(w, s.db, faults))
  {
    if faults != [] {
      var n := |faults| - 1;
      RoundsRun(w, s, faults[..n]);
      var r := Rounds(faults[..n]);
      RunNext(w, s, r, Execute(Works));
      RunNext(w, s, r + [Execute(Works)], Archive(faults[n]));
      RunNext(w, s, r + [Execute(Works)] + [Archive(faults[n])], Compare);
      OneRound(w, Run(w, s, r), n, faults[n]);
    }
  }

  lemma StoreAllNext(w: World, d: Store, faults: seq<Faults>, f: Faults)
    ensures StoreAll(w, d, faults + [f]) ==
            StoreMessage(StoreAll(w, d, faults), Message(|faults|, RowOf(w, |faults|, true)), f).0
  {
    assert (faults + [f])[..|faults|] == faults;
  }

  /** No insert has to fail for a gap to open: when a new version starts at block 1 and publishing
      its metadata fails, block 1 is passed over and block 2 is archived. */
  lemma PublishFailureLeavesGap(w: World, s: State)
    requires s.started && !s.executorHalted && s.execQ == [0] && s.compQ == [] && s.archQ == [] && !s.archiverHalted
    requires s.db == Store(map[], map[], []) && s.best >= 3
    requires w.block(0).spec != w.block(1).spec && w.block(2).spec == w.block(1).spec
    ensures var unsent := NoFault.(sendMeta := Failed);
            Run(w, s, Rounds([] + [NoFault] + [unsent] + [NoFault])).db.blocks.Keys == {0, 2}
  {
    var unsent := NoFault.(sendMeta := Failed);
    RoundsRun(w, s, [] + [NoFault] + [unsent] + [NoFault]);
    StoreAllNext(w, s.db, [], NoFault);
    StoreAllNext(w, s.db, [] + [NoFault], unsent);
    StoreAllNext(w, s.db, [] + [NoFault] + [unsent], NoFault);
    var d1 := StoreAll(w, s.db, [] + [NoFault]);
    assert d1.blocks.Keys == {0} && d1.metas.Keys == {w.block(0).spec};
    var d2 := StoreAll(w, s.db, [] + [NoFault] + [unsent]);
    assert d2.blocks == d1.blocks && d2.metas.Keys == {w.block(0).spec, w.block(1).spec};
  }

  lemma {:induction false} RunAppend(w: World, s: State, first: seq<Event>, second: seq<Event>)
    ensures Run(w, s, first + second) == Run(w, Run(w, s, first), second)
    decreases |second|
  {
    if second == [] {
      assert first + second == first;
    } else {
      var front, e := second[..|second| - 1], second[|second| - 1];
      assert first + second == (first + front) + [e];
      RunAppend(w, s, first, front);
      assert Run(w, s, first + second) == Step(w, Run(w, s, first + front), e) by {
        RunNext(w, s, first + front, e);
      }
      assert Run(w, Run(w, s, first), second) == Step(w, Run(w, Run(w, s, first), front), e);
    }
  }

  /** A start, some rounds, and a crash. */
  function LifeOf(faults: seq<Faults>): seq<Event> {
    [Start] + Rounds(faults) + [Crash]
  }

  lemma LifeRun(w: World, s: State, faults: seq<Faults>)
    requires Fresh(s) && StartNumber(s.db) == 0
    requires |faults| <= s.best && forall i :: 0 <= i < |faults| ==> faults[i].metadataKnown
    ensures Run(w, s, LifeOf(faults)) == s.(db := StoreAll(w, s.db, faults))
  {
    var t := s.(started := true, execQ := [0]);
    assert [] + [Start] == [Start];
    RunNext(w, s, [], Start);
    assert Run(w, s, [Start]) == t;
    RunAppend(w, s, [Start], Rounds(faults));
    RoundsRun(w, t, faults);
    RunNext(w, s, [Start] + Rounds(faults), Crash);
  }

  const Unchecked := NoFault.(checkWorks := false)
  const Refused := NoFault.(insertBlock := Failed)

  /** Versions change at block 1. The check for block 1's version fails, so its metadata is written
      for block 2, whose own insert fails. */
  lemma FirstLifeTables(w: World)
    requires w.block(0).spec != w.block(1).spec && w.block(2).spec == w.block(1).spec
    ensures var d := StoreAll(w, Store(map[], map[], []), [] + [NoFault] + [Unchecked] + [Refused]);
            && d.blocks == map[0 := RowOf(w, 0, true)]
            && d.metas.Keys == {w.block(0).spec, w.block(1).spec} && d.metas[w.block(1).spec].number == 2
  {
    var empty := Store(map[], map[], []);
    StoreAllNext(w, empty, [], NoFault);
    StoreAllNext(w, empty, [] + [NoFault], Unchecked);
    StoreAllNext(w, empty, [] + [NoFault] + [Unchecked], Refused);
  }

  /** After a restart blocks 0 and 1 are archived without new metadata. */
  lemma SecondLifeTables(w: World, d: Store)
    requires d.blocks == map[0 := RowOf(w, 0, true)] && w.block(0).spec in d.metas && w.block(1).spec in d.metas
    ensures var e := StoreAll(w, d, [] + [NoFault] + [NoFault]);
            e.blocks == map[0 := RowOf(w, 0, true), 1 := RowOf(w, 1, true)] && e.metas == d.metas
  {
    StoreAllNext(w, d, [], NoFault);
    StoreAllNext(w, d, [] + [NoFault], NoFault);
  }

  /** Metadata can name a block above one of its version: a run from empty tables, with both starts at
      block 0, after which row 1 is there while its version's metadata names block 2. */
  lemma MetadataCanNameLater(w: World, s: State)
    requires Fresh(s) && s.db == Store(map[], map[], []) && s.best >= 3
    requires w.block(0).spec != w.block(1).spec && w.block(2).spec == w.block(1).spec
    ensures var first, second := LifeOf([] + [NoFault] + [Unchecked] + [Refused]), LifeOf([] + [NoFault] + [NoFault]);
            var d := Run(w, s, first + second).db;
            && StartNumber(s.db) == 0 && StartNumber(Run(w, s, first).db) == 0
            && 1 in d.blocks && d.blocks[1].spec in d.metas && d.metas[d.blocks[1].spec].number == 2
            && !MetaNotLater(d)
  {
    var first, second := [] + [NoFault] + [Unchecked] + [Refused], [] + [NoFault] + [NoFault];
    FirstLifeTables(w);
    LifeRun(w, s, first);
    SecondLifeTables(w, Run(w, s, LifeOf(first)).db);
    LifeRun(w, Run(w, s, LifeOf(first)), second);
    RunAppend(w, s, LifeOf(first), LifeOf(second));
  }
}
