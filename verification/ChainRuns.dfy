/** Runs of imports and finalizations: what every step keeps, and what subscribers can rebuild from
    the notifications alone. */
module ChainRuns {
  import opened Results
  import opened BlockTree
  import opened Notifies
  import opened ImportEngine

  datatype Event =
    | Import(p: ImportParams, parentHasState: bool, execution: Execution)
    | Finalize(block: Hash, notify: bool)

  datatype Announcement = Announcement(finalized: seq<Hash>, imported: Option<ImportSummary>)

  ghost predicate Possible(c: Chain, e: Event) {
    e.Import? ==> Coherent(c, e.p)
  }

  /** The import stores its block. */
  ghost predicate Stores(c: Chain, e: Event)
    requires c.Valid()
  {
    && e.Import?
    && var r := ImportStep(c, e.p, e.parentHasState, e.execution).result;
       r.Ok? && r.value.Imported?
  }

  /** The block is executed to obtain its storage changes. */
  predicate Executes(e: Event)
    requires e.Import?
  {
    e.parentHasState && e.p.storageChanges.None? && e.p.hasBody
  }

  predicate BringsChanges(e: Event)
    requires e.Import?
  {
    e.parentHasState && (e.p.storageChanges.Some? || e.p.hasBody)
  }

  /** What can be seen before the import decides whether it stores its block: the parent is known and
      its state is there or not needed, an execution that is needed succeeds, the checks before the
      commit pass, and the block builds on the finalized head as far as it must. */
  ghost predicate WillStore(c: Chain, e: Event)
    requires c.Valid()
  {
    && e.Import?
    && var p, parent := e.p, e.p.header.parent;
    && parent in c.tree.headers
    && (e.parentHasState || p.allowMissingState)
    && (Executes(e) ==> e.execution.Changes?)
    && Reaches(c, p)
    && if p.finalized then c.tree.IsAncestor(c.finalized, parent) && (BringsChanges(e) || parent == c.finalized)
       else NewBest(c, p) ==> c.tree.IsAncestor(c.finalized, parent)
  }

  ghost function Next(c: Chain, e: Event): Chain
    requires c.Valid()
  {
    match e
    case Import(p, s, x) => ImportStep(c, p, s, x).chain
    case Finalize(block, notify) => FinalizeStep(c, block, notify).chain
  }

  ghost function Announces(c: Chain, e: Event): Announcement
    requires c.Valid()
  {
    match e
    case Import(p, s, x) =>
      var r := ImportStep(c, p, s, x);
      Announcement(r.notifyFinalized, r.notifyImported)
    case Finalize(block, notify) =>
      var r := FinalizeStep(c, block, notify);
      Announcement(r.notifyFinalized, r.notifyImported)
  }

  /** An import that does not store its block leaves everything alone and stays silent. */
  lemma StoresOrNothing(c: Chain, e: Event)
    requires c.Valid() && e.Import? && Possible(c, e)
    ensures Stores(c, e) ==> e.p.header.parent in c.tree.headers && Reaches(c, e.p)
    ensures !Stores(c, e) ==> Next(c, e) == c && Announces(c, e) == Announcement([], None)
  {
    var prepared := Prepared(c, e.p, e.parentHasState, e.execution);
    if prepared.Ok? && prepared.value.0.None? && Reaches(c, e.p) {
      var filled := Fill(c, e.p, prepared.value.1);
      if Run(c, filled).result.Ok? {
        ImportCommits(c, e.p, prepared.value.1);
      }
    }
  }

  /** Exactly which imports store their block. */
  lemma StoresExactly(c: Chain, e: Event)
    requires c.Valid() && Possible(c, e)
    ensures Stores(c, e) <==> WillStore(c, e)
  {
    if e.Import? && e.p.header.parent in c.tree.headers && Reaches(c, e.p) {
      var prepared := Prepared(c, e.p, e.parentHasState, e.execution);
      if prepared.Ok? && prepared.value.0.None? {
        ImportSucceeds(c, e.p, prepared.value.1);
        if Run(c, Fill(c, e.p, prepared.value.1)).result.Ok? {
          ImportCommits(c, e.p, prepared.value.1);
        }
      }
    } else if e.Import? {
      StoresOrNothing(c, e);
    }
  }

  /** What one step does to the heads. */
  lemma StepHeads(c: Chain, e: Event)
    requires c.Valid() && Possible(c, e)
    ensures var d := Next(c, e);
            && d.Valid() && c.tree.ExtendedBy(d.tree)
            && (Stores(c, e) ==>
                  && e.p.header.parent in c.tree.headers && Reaches(c, e.p)
                  && d.tree == c.tree.(headers := c.tree.headers[e.p.hash := e.p.header])
                  && d.tree.Path(e.p.hash) == c.tree.Path(e.p.header.parent) + [e.p.hash]
                  && (NewBest(c, e.p) ==> c.tree.IsAncestor(c.finalized, e.p.header.parent))
                  && d.finalized == (if e.p.finalized then e.p.hash else c.finalized)
                  && d.best == if OffBranch(c, e.p) then e.p.header.parent
                               else if NewBest(c, e.p) then e.p.hash else c.best)
            && (e.Finalize? && Next(c, e) != c ==>
                  && e.block in c.tree.headers && c.tree.IsAncestor(c.finalized, e.block)
                  && d == c.(finalized := e.block,
                             best := if c.tree.IsAncestor(e.block, c.best) then c.best else e.block))
  {
    match e
    case Import(p, s, x) =>
      StoresOrNothing(c, e);
      if Stores(c, e) {
        ImportCommits(c, p, Prepared(c, p, s, x).value.1);
      }
    case Finalize(block, notify) =>
      FinalityCommits(c, block, notify);
  }

  /** Which block is best after an import that stores its block, and what the import answers: the block
      itself if it wins the fork choice, unless it finalizes a parent off the best branch. */
  lemma BestAfterImport(c: Chain, e: Event)
    requires c.Valid() && Possible(c, e) && WillStore(c, e)
    ensures var p, best := e.p, Next(c, e).best;
            && (!p.finalized && p.forkChoice == Some(LongestChain) ==>
                  best == if p.header.number > c.tree.headers[c.best].number then p.hash else c.best)
            && (!p.finalized && p.forkChoice == Some(Custom(true)) ==> best == p.hash)
            && (!p.finalized && p.forkChoice == Some(Custom(false)) ==> best == c.best)
            && (p.finalized ==>
                  best == if p.header.parent == c.finalized || c.tree.IsAncestor(p.header.parent, c.best) then p.hash
                          else p.header.parent)
    ensures ImportStep(c, e.p, e.parentHasState, e.execution).result == Ok(Imported(WinsForkChoice(c, e.p)))
  {
    StoresExactly(c, e);
    StepHeads(c, e);
    NewBestExactly(c, e.p);
    ImportCommits(c, e.p, Prepared(c, e.p, e.parentHasState, e.execution).value.1);
  }

  /** Exactly which stored imports are announced to import subscribers, by the origins the program names
      and those it does not, and everything the note says. */
  lemma ImportNote(c: Chain, e: Event)
    requires c.Valid() && Possible(c, e) && WillStore(c, e)
    ensures var p, note := e.p, Announces(c, e).imported;
            var moves := WinsForkChoice(c, p) && p.header.parent != c.best;
            && (moves || p.origin in {NetworkBroadcast, ConsensusBroadcast, Own} ==> note.Some?)
            && (!moves && p.origin in {Genesis, NetworkInitialSync, File} ==> note.None?)
            && (note.Some? ==>
                  && note.value.hash == p.hash && note.value.header == p.header && note.value.origin == p.origin
                  && note.value.isNewBest == WinsForkChoice(c, p)
                  && note.value.storageChanges == ChangesOf(p, e.parentHasState, e.execution)
                  && note.value.route == if moves then Some(c.tree.Route(c.best, p.header.parent)) else None)
  {
    StoresExactly(c, e);
    StoresOrNothing(c, e);
    NewBestExactly(c, e.p);
    ImportAnnounces(c, e.p, Prepared(c, e.p, e.parentHasState, e.execution).value.1);
  }

  /** The finalized head only moves to descendants of itself. */
  lemma FinalizedMovesDown(c: Chain, e: Event)
    requires c.Valid() && Possible(c, e)
    ensures Next(c, e).Valid() && c.tree.ExtendedBy(Next(c, e).tree)
    ensures Next(c, e).tree.IsAncestor(c.finalized, Next(c, e).finalized)
  {
    var d := Next(c, e);
    StepHeads(c, e);
    c.tree.PathKept(d.tree, c.finalized);
    if Stores(c, e) {
      c.tree.PathKept(d.tree, e.p.header.parent);
    } else if e.Import? {
      StoresOrNothing(c, e);
    }
  }

  /** An import that will be stored and finalizes a block whose parent is neither finalized nor on the
      best branch. */
  ghost predicate Strands(c: Chain, e: Event)
    requires c.Valid()
  {
    WillStore(c, e) && OffBranch(c, e.p)
  }

  /** The two heads never part: best descends from the finalized block or is its parent. */
  ghost predicate HeadsTogether(c: Chain)
    requires c.Valid()
  {
    c.BestDescends() || (c.finalized != c.tree.genesis && c.tree.headers[c.finalized].parent == c.best)
  }

  lemma HeadsTogetherStep(c: Chain, e: Event)
    requires c.Valid() && Possible(c, e) && HeadsTogether(c)
    ensures Next(c, e).Valid() && HeadsTogether(Next(c, e))
  {
    var d := Next(c, e);
    StepHeads(c, e);
    if Stores(c, e) {
      c.tree.Insert(e.p.hash, e.p.header);
      c.tree.PathKept(d.tree, e.p.header.parent);
      c.tree.PathKept(d.tree, c.best);
      c.tree.PathKept(d.tree, c.finalized);
    } else if e.Import? {
      StoresOrNothing(c, e);
    }
  }

  /** Exactly which steps keep the best head below the finalized one: all but those. The head
      change recorded for the parent is applied after the block itself and takes best back. */
  lemma BestDescendsExactly(c: Chain, e: Event)
    requires c.Valid() && Possible(c, e) && c.BestDescends()
    ensures Next(c, e).Valid()
    ensures Next(c, e).BestDescends() <==> !Strands(c, e)
  {
    var d := Next(c, e);
    StoresExactly(c, e);
    StepHeads(c, e);
    HeadsTogetherStep(c, e);
    if Stores(c, e) && OffBranch(c, e.p) {
      assert |d.tree.Path(d.best)| < |d.tree.Path(d.finalized)|;
    } else if Stores(c, e) {
      c.tree.PathKept(d.tree, e.p.header.parent);
      c.tree.PathKept(d.tree, c.best);
      c.tree.PathKept(d.tree, c.finalized);
    } else if e.Import? {
      StoresOrNothing(c, e);
    }
  }

  ghost function Reach(c: Chain, events: seq<Event>): (r: Option<Chain>)
    requires c.Valid()
    ensures r.Some? ==> r.value.Valid()
  {
    if events == [] then Some(c)
    else
      var n := |events| - 1;
      var before := Reach(c, events[..n]);
      if before.None? || !Possible(before.value, events[n]) then None
      else
        StepHeads(before.value, events[n]);
        Some(Next(before.value, events[n]))
  }

  /** Whatever is imported or finalized, the tree only grows and the finalized head only moves to
      descendants. */
  lemma {:induction false} FinalizedGrows(c: Chain, events: seq<Event>)
    requires c.Valid() && Reach(c, events).Some?
    ensures var d := Reach(c, events).value;
            c.tree.ExtendedBy(d.tree) && d.tree.IsAncestor(c.finalized, d.finalized)
  {
    if events != [] {
      var n := |events| - 1;
      FinalizedGrows(c, events[..n]);
      var before := Reach(c, events[..n]).value;
      FinalizedMovesDown(before, events[n]);
      before.tree.AncestorKept(Next(before, events[n]).tree, c.finalized, before.finalized);
    }
  }

  /** Safety over every run: besides, best always descends from the finalized block or is its
      parent. */
  lemma {:induction false} FinalitySafety(c: Chain, events: seq<Event>)
    requires c.Valid() && HeadsTogether(c) && Reach(c, events).Some?
    ensures var d := Reach(c, events).value;
            && c.tree.ExtendedBy(d.tree)
            && d.tree.IsAncestor(c.finalized, d.finalized)
            && HeadsTogether(d)
  {
    FinalizedGrows(c, events);
    if events != [] {
      var n := |events| - 1;
      FinalitySafety(c, events[..n]);
      HeadsTogetherStep(Reach(c, events[..n]).value, events[n]);
    }
  }

  /** No step of the run strands best, judged by the chain before it. */
  ghost predicate NeverStrands(c: Chain, events: seq<Event>)
    requires c.Valid() && Reach(c, events).Some?
  {
    events != [] ==>
      var n := |events| - 1;
      NeverStrands(c, events[..n]) && !Strands(Reach(c, events[..n]).value, events[n])
  }

  /** Best descends from finalized after every step. */
  ghost predicate DescendsThroughout(c: Chain, events: seq<Event>)
    requires c.Valid() && Reach(c, events).Some?
  {
    && Reach(c, events).value.BestDescends()
    && (events != [] ==> DescendsThroughout(c, events[..|events| - 1]))
  }

  /** Best descends from finalized throughout a run exactly if no step strands it. */
  lemma {:induction false} BestDescendsOverRuns(c: Chain, events: seq<Event>)
    requires c.Valid() && c.BestDescends() && Reach(c, events).Some?
    ensures DescendsThroughout(c, events) <==> NeverStrands(c, events)
  {
    if events != [] {
      var n := |events| - 1;
      BestDescendsOverRuns(c, events[..n]);
      var before := Reach(c, events[..n]).value;
      if before.BestDescends() {
        BestDescendsExactly(before, events[n]);
      } else {
        assert !DescendsThroughout(c, events[..n]);
      }
    }
  }

  /** The blocks a step finalizes. */
  ghost function NewlyFinalized(c: Chain, e: Event): seq<Hash>
    requires c.Valid() && Possible(c, e)
  {
    FinalizedMovesDown(c, e);
    Next(c, e).tree.After(c.finalized, Next(c, e).finalized)
  }

  function FinalizeCount(n: nat, notify: bool): nat {
    if !notify then 0 else if n <= MAX_TO_NOTIFY then n else MAX_TO_NOTIFY
  }

  /** `n` blocks finalized before the imported one. */
  function ImportCount(n: nat, notifying: bool, announced: bool): nat {
    if !announced then 0 else if !notifying then 1 else if n <= MAX_TO_NOTIFY then n + 1 else MAX_TO_NOTIFY + 1
  }

  /** How many of the newly finalized blocks are announced, counted from the last. */
  ghost function AnnouncedCount(c: Chain, e: Event): nat
    requires c.Valid() && Possible(c, e)
  {
    var n := |NewlyFinalized(c, e)|;
    match e
    case Finalize(_, notify) => FinalizeCount(n, notify)
    case Import(p, _, _) =>
      if n == 0 || p.forkChoice.None? then 0 else ImportCount(n - 1, Notifying(p.origin), Announced(c, p))
  }

  lemma LongerPath(path: seq<Hash>, last: Hash, k: nat)
    requires k <= |path|
    ensures (path + [last])[k..] == path[k..] + [last]
  {
  }

  lemma ImportFinalizes(c: Chain, e: Event)
    requires c.Valid() && Possible(c, e) && Stores(c, e) && e.p.finalized
    ensures e.p.header.parent in c.tree.headers && c.tree.IsAncestor(c.finalized, e.p.header.parent)
    ensures NewlyFinalized(c, e) == c.tree.After(c.finalized, e.p.header.parent) + [e.p.hash]
  {
    StepHeads(c, e);
    FinalizedMovesDown(c, e);
    LongerPath(c.tree.Path(e.p.header.parent), e.p.hash, c.Number(c.finalized) + 1);
  }

  lemma NothingFinalized(c: Chain, e: Event)
    requires c.Valid() && Possible(c, e) && Next(c, e).finalized == c.finalized
    ensures NewlyFinalized(c, e) == []
  {
    FinalizedMovesDown(c, e);
  }

  lemma ImportAnnouncesFinal(c: Chain, e: Event)
    requires c.Valid() && Possible(c, e) && Stores(c, e) && e.p.finalized
    ensures e.p.forkChoice.Some? && e.p.header.parent in c.tree.headers
    ensures c.tree.IsAncestor(c.finalized, e.p.header.parent)
    ensures Announces(c, e).finalized ==
            (if Notifying(e.p.origin) then LastFew(c.tree.After(c.finalized, e.p.header.parent)) else []) +
            (if Announced(c, e.p) then [e.p.hash] else [])
  {
    StoresOrNothing(c, e);
    ImportAnnounces(c, e.p, Prepared(c, e.p, e.parentHasState, e.execution).value.1);
  }

  lemma EndOfLongerPath(path: seq<Hash>, last: Hash, notifying: bool, announced: bool)
    requires notifying ==> announced
    ensures (if notifying then LastFew(path) else []) + (if announced then [last] else []) ==
            (path + [last])[|path| + 1 - ImportCount(|path|, notifying, announced)..]
  {
  }

  /** The finality notifications are the end of the newly finalized path. */
  ghost predicate EndsPath(c: Chain, e: Event)
    requires c.Valid() && Possible(c, e)
  {
    var path, count := NewlyFinalized(c, e), AnnouncedCount(c, e);
    count <= |path| && Announces(c, e).finalized == path[|path| - count..]
  }

  lemma ImportAnnouncesEnd(c: Chain, e: Event)
    requires c.Valid() && Possible(c, e) && Stores(c, e) && e.p.finalized
    ensures EndsPath(c, e)
  {
    ImportFinalizes(c, e);
    ImportAnnouncesFinal(c, e);
    var path := c.tree.After(c.finalized, e.p.header.parent);
    var count := ImportCount(|path|, Notifying(e.p.origin), Announced(c, e.p));
    assert |NewlyFinalized(c, e)| == |path| + 1;
    assert AnnouncedCount(c, e) == count;
    EndOfLongerPath(path, e.p.hash, Notifying(e.p.origin), Announced(c, e.p));
  }

  lemma EndOfPath(path: seq<Hash>, notify: bool)
    ensures (if notify then LastFew(path) else []) == path[|path| - FinalizeCount(|path|, notify)..]
  {
  }

  lemma FinalizeAnnounces(c: Chain, e: Event)
    requires c.Valid() && e.Finalize?
    ensures Announces(c, e).finalized == if e.notify then LastFew(NewlyFinalized(c, e)) else []
  {
    FinalityCommits(c, e.block, e.notify);
    FinalizedMovesDown(c, e);
    var d := Next(c, e);
    c.tree.PathKept(d.tree, c.finalized);
    c.tree.PathKept(d.tree, d.finalized);
  }

  lemma FinalizeAnnouncesEnd(c: Chain, e: Event)
    requires c.Valid() && e.Finalize?
    ensures EndsPath(c, e)
  {
    var path, told := NewlyFinalized(c, e), Announces(c, e).finalized;
    assert told == path[|path| - FinalizeCount(|path|, e.notify)..] by {
      FinalizeAnnounces(c, e);
      EndOfPath(path, e.notify);
    }
  }

  lemma SilentUnlessFinal(c: Chain, e: Event)
    requires c.Valid() && e.Import? && Possible(c, e) && !(Stores(c, e) && e.p.finalized)
    ensures Announces(c, e).finalized == [] && Next(c, e).finalized == c.finalized
  {
    StoresOrNothing(c, e);
    if Stores(c, e) {
      StepHeads(c, e);
      ImportAnnounces(c, e.p, Prepared(c, e.p, e.parentHasState, e.execution).value.1);
    }
  }

  lemma SilentEnd(c: Chain, e: Event)
    requires c.Valid() && e.Import? && Possible(c, e) && !(Stores(c, e) && e.p.finalized)
    ensures EndsPath(c, e)
  {
    SilentUnlessFinal(c, e);
    NothingFinalized(c, e);
  }

  /** One operation's finality notifications are the end of the newly finalized path. */
  lemma AnnouncesEndOfPath(c: Chain, e: Event)
    requires c.Valid() && Possible(c, e)
    ensures EndsPath(c, e)
  {
    if e.Finalize? {
      FinalizeAnnouncesEnd(c, e);
    } else if Stores(c, e) && e.p.finalized {
      ImportAnnouncesEnd(c, e);
    } else {
      SilentEnd(c, e);
    }
  }

  lemma EndIsChain(t: Tree, a: Hash, h: Hash, k: nat)
    requires t.Valid() && a in t.headers && h in t.headers && t.IsAncestor(a, h) && k < |t.After(a, h)|
    ensures var hashes := t.After(a, h)[k..];
            && hashes[|hashes| - 1] == h
            && (forall i :: 0 <= i < |hashes| ==> hashes[i] in t.headers)
            && (forall i :: 0 < i < |hashes| ==> t.headers[hashes[i]].parent == hashes[i - 1])
  {
    var path := t.After(a, h);
    forall i | 0 <= i < |path|
      ensures path[i] in t.headers
      ensures i > 0 ==> t.headers[path[i]].parent == path[i - 1]
    {
      t.AfterIsLinked(a, h, i);
    }
  }

  /** The announced blocks form a parent chain that ends at the new finalized head, and every announced
      header is there to be looked up. */
  lemma AnnouncedChain(c: Chain, e: Event)
    requires c.Valid() && Possible(c, e) && Announces(c, e).finalized != []
    ensures var d, hashes := Next(c, e), Announces(c, e).finalized;
            && d.Valid()
            && hashes[|hashes| - 1] == d.finalized
            && (forall i :: 0 <= i < |hashes| ==> hashes[i] in d.tree.headers)
            && (forall i :: 0 < i < |hashes| ==> d.tree.headers[hashes[i]].parent == hashes[i - 1])
  {
    AnnouncesEndOfPath(c, e);
    FinalizedMovesDown(c, e);
    EndIsChain(Next(c, e).tree, c.finalized, Next(c, e).finalized, |NewlyFinalized(c, e)| - AnnouncedCount(c, e));
  }

  /** The step announces everything it finalizes: if it finalizes anything it has to notify, and there
      must not be too many blocks below the finalized head and the target. */
  ghost predicate FullyAnnounced(c: Chain, e: Event)
    requires c.Valid() && Possible(c, e)
  {
    match e
    case Finalize(block, notify) =>
      block in c.tree.headers && c.tree.IsAncestor(c.finalized, block) && block != c.finalized ==>
        notify && c.Number(block) - c.Number(c.finalized) <= MAX_TO_NOTIFY
    case Import(p, _, _) =>
      WillStore(c, e) && p.finalized ==>
        && Announced(c, p)
        && c.Number(p.header.parent) - c.Number(c.finalized) <= if Notifying(p.origin) then MAX_TO_NOTIFY else 0
  }

  lemma FinalizeFinalizes(c: Chain, e: Event)
    requires c.Valid() && e.Finalize?
    ensures |NewlyFinalized(c, e)| == if e.block in c.tree.headers && c.tree.IsAncestor(c.finalized, e.block)
                                      then c.Number(e.block) - c.Number(c.finalized) else 0
    ensures e.block in c.tree.headers && c.tree.IsAncestor(c.finalized, e.block) && e.block != c.finalized ==>
              c.Number(e.block) > c.Number(c.finalized)
  {
    FinalityCommits(c, e.block, e.notify);
    FinalizedMovesDown(c, e);
    if e.block in c.tree.headers {
      c.tree.AncestorByHeight(c.finalized, e.block);
      assert Next(c, e).tree == c.tree;
    } else {
      NothingFinalized(c, e);
    }
  }

  lemma FinalizeAnnouncesAll(c: Chain, e: Event)
    requires c.Valid() && e.Finalize?
    ensures Announces(c, e).finalized == NewlyFinalized(c, e) <==> FullyAnnounced(c, e)
  {
    FinalizeFinalizes(c, e);
    FinalizeAnnounces(c, e);
    assert |NewlyFinalized(c, e)| <= MAX_TO_NOTIFY <==> LastFew(NewlyFinalized(c, e)) == NewlyFinalized(c, e);
  }

  lemma AnnouncedWhole(path: seq<Hash>, last: Hash, notifying: bool, announced: bool)
    requires notifying ==> announced
    ensures (if notifying then LastFew(path) else []) + (if announced then [last] else []) == path + [last] <==>
            announced && |path| <= if notifying then MAX_TO_NOTIFY else 0
  {
    var told := (if notifying then LastFew(path) else []) + if announced then [last] else [];
    assert told == path + [last] ==> |told| == |path| + 1;
  }

  lemma ImportAnnouncesAll(c: Chain, e: Event)
    requires c.Valid() && Possible(c, e) && WillStore(c, e) && e.p.finalized
    ensures Announces(c, e).finalized == NewlyFinalized(c, e) <==> FullyAnnounced(c, e)
  {
    StoresExactly(c, e);
    ImportFinalizes(c, e);
    ImportAnnouncesFinal(c, e);
    AnnouncedWhole(c.tree.After(c.finalized, e.p.header.parent), e.p.hash, Notifying(e.p.origin), Announced(c, e.p));
  }

  /** Exactly which steps announce everything they finalize. */
  lemma FullyAnnouncedExactly(c: Chain, e: Event)
    requires c.Valid() && Possible(c, e)
    ensures Announces(c, e).finalized == NewlyFinalized(c, e) <==> FullyAnnounced(c, e)
  {
    if e.Finalize? {
      FinalizeAnnouncesAll(c, e);
    } else if WillStore(c, e) && e.p.finalized {
      ImportAnnouncesAll(c, e);
    } else {
      StoresExactly(c, e);
      SilentUnlessFinal(c, e);
      NothingFinalized(c, e);
    }
  }

  /** Finalizing any block below the finalized one without notifying announces less than it finalizes. */
  lemma SilentFinalizeLeavesOut(c: Chain, block: Hash)
    requires c.Valid() && block in c.tree.headers && c.tree.IsAncestor(c.finalized, block) && block != c.finalized
    ensures Announces(c, Finalize(block, false)).finalized == []
    ensures NewlyFinalized(c, Finalize(block, false)) != []
  {
    FinalizeFinalizes(c, Finalize(block, false));
    FinalizeAnnounces(c, Finalize(block, false));
  }

  ghost function FinalityStream(c: Chain, events: seq<Event>): seq<Hash>
    requires c.Valid()
  {
    if events == [] then []
    else
      var n := |events| - 1;
      var before := Reach(c, events[..n]);
      FinalityStream(c, events[..n]) +
      if before.Some? then Announces(before.value, events[n]).finalized else []
  }

  /** The blocks finalized over a run. */
  ghost function FinalizedSince(c: Chain, events: seq<Event>): seq<Hash>
    requires c.Valid() && Reach(c, events).Some?
  {
    FinalizedGrows(c, events);
    Reach(c, events).value.tree.After(c.finalized, Reach(c, events).value.finalized)
  }

  lemma FinalizedNext(c: Chain, events: seq<Event>)
    requires c.Valid() && events != [] && Reach(c, events).Some?
    ensures var n := |events| - 1;
            FinalizedSince(c, events) ==
            FinalizedSince(c, events[..n]) + NewlyFinalized(Reach(c, events[..n]).value, events[n])
  {
    var n := |events| - 1;
    var before, d := Reach(c, events[..n]).value, Reach(c, events).value;
    FinalizedGrows(c, events[..n]);
    FinalizedMovesDown(before, events[n]);
    before.tree.AncestorKept(d.tree, c.finalized, before.finalized);
    d.tree.AfterSplits(c.finalized, before.finalized, d.finalized);
  }

  ghost predicate AllAnnounced(c: Chain, events: seq<Event>)
    requires c.Valid() && Reach(c, events).Some?
  {
    events != [] ==>
      var n := |events| - 1;
      AllAnnounced(c, events[..n]) && FullyAnnounced(Reach(c, events[..n]).value, events[n])
  }

  /** After every step the stream is the chain finalized so far, without gap or repeat. */
  ghost predicate StreamWhole(c: Chain, events: seq<Event>)
    requires c.Valid() && Reach(c, events).Some?
  {
    && FinalityStream(c, events) == FinalizedSince(c, events)
    && (events != [] ==> StreamWhole(c, events[..|events| - 1]))
  }

  lemma AppendedEqually(a: seq<Hash>, b: seq<Hash>, c: seq<Hash>)
    ensures a + b == a + c <==> b == c
  {
    if a + b == a + c {
      assert b == (a + b)[|a|..] && c == (a + c)[|a|..];
    }
  }

  lemma StreamNext(c: Chain, events: seq<Event>)
    requires c.Valid() && events != [] && Reach(c, events).Some?
    ensures FinalityStream(c, events[..|events| - 1]) == FinalizedSince(c, events[..|events| - 1]) ==>
              (FinalityStream(c, events) == FinalizedSince(c, events) <==>
               FullyAnnounced(Reach(c, events[..|events| - 1]).value, events[|events| - 1]))
  {
    var n := |events| - 1;
    var before := Reach(c, events[..n]).value;
    FinalizedNext(c, events);
    FullyAnnouncedExactly(before, events[n]);
    AppendedEqually(FinalizedSince(c, events[..n]), Announces(before, events[n]).finalized,
                    NewlyFinalized(before, events[n]));
  }

  /** The stream of finality notifications is the newly finalized chain throughout a run exactly if
      every step announces all it finalizes. */
  lemma {:induction false} FinalityStreamIsChain(c: Chain, events: seq<Event>)
    requires c.Valid() && Reach(c, events).Some?
    ensures StreamWhole(c, events) <==> AllAnnounced(c, events)
  {
    if events != [] {
      FinalityStreamIsChain(c, events[..|events| - 1]);
      if StreamWhole(c, events[..|events| - 1]) {
        StreamNext(c, events);
      }
    } else {
      assert FinalityStream(c, events) == FinalizedSince(c, events);
    }
  }

  /** Drops the retracted blocks from the end of a view, which must hold them. */
  ghost function Retract(view: seq<Hash>, retracted: seq<Hash>): Option<seq<Hash>>
    decreases |retracted|
  {
    if retracted == [] then Some(view)
    else if view == [] || view[|view| - 1] != retracted[0] then None
    else Retract(view[..|view| - 1], retracted[1..])
  }

  /** A subscriber's view of the best chain after one message. */
  ghost function FollowMessage(view: seq<Hash>, m: ImportNotification): Option<seq<Hash>> {
    if !m.isNewBest then Some(view)
    else if m.route.None? then Some(view + [m.hash])
    else
      var kept := Retract(view, m.route.value.retracted);
      if kept.None? then None else Some(kept.value + m.route.value.enacted + [m.hash])
  }

  /** ... and after one operation, which may send none. */
  ghost function Follow(view: seq<Hash>, n: Option<ImportSummary>): Option<seq<Hash>> {
    if n.None? then Some(view) else FollowMessage(view, ImportMessage(n.value))
  }

  lemma {:induction false} RetractReversed(kept: seq<Hash>, retracted: seq<Hash>)
    ensures Retract(kept + Reversed(retracted), retracted) == Some(kept)
    decreases |retracted|
  {
    var view := kept + Reversed(retracted);
    if retracted == [] {
      assert view == kept;
    } else {
      assert view[..|view| - 1] == kept + Reversed(retracted[1..]);
      RetractReversed(kept, retracted[1..]);
    }
  }

  /** The step tells import subscribers all they need: a block becoming best is announced and stays
      best, and a finalization does not move the head. */
  ghost predicate Followable(c: Chain, e: Event)
    requires c.Valid() && Possible(c, e)
  {
    match e
    case Import(p, _, _) =>
      WillStore(c, e) && NewBest(c, p) ==> Announced(c, p) && !OffBranch(c, p)
    case Finalize(block, _) =>
      block in c.tree.headers && c.tree.IsAncestor(c.finalized, block) ==>
        block == c.finalized || c.tree.IsAncestor(block, c.best)
  }

  /** Following a route leads from the path to one block to the path to the other. */
  lemma RouteFollowed(t: Tree, a: Hash, b: Hash)
    requires t.Valid() && a in t.headers && b in t.headers
    ensures var kept := Retract(t.Path(a), t.Route(a, b).retracted);
            kept.Some? && kept.value + t.Route(a, b).enacted == t.Path(b)
  {
    var route := t.Route(a, b);
    t.RouteSplits(a, b);
    RetractReversed(t.Path(route.common), route.retracted);
  }

  /** A view of the best path after the note on an imported block, which leaves best as given. */
  lemma FollowNote(c: Chain, p: ImportParams, note: Option<ImportSummary>, bestPath: seq<Hash>)
    requires c.Valid() && p.forkChoice.Some? && p.header.parent in c.tree.headers
    requires p.header.parent == c.best ==> p.hash != c.best
    requires bestPath == if OffBranch(c, p) then c.tree.Path(p.header.parent)
                         else if NewBest(c, p) then c.tree.Path(p.header.parent) + [p.hash]
                         else c.tree.Path(c.best)
    requires note.Some? <==> Announced(c, p)
    requires note.Some? ==>
               && note.value.hash == p.hash
               && note.value.isNewBest == NewBest(c, p)
               && note.value.route == ImportRoute(c, p)
    ensures Follow(c.tree.Path(c.best), note) == Some(bestPath) <==> (NewBest(c, p) ==> note.Some? && !OffBranch(c, p))
  {
    var parent := p.header.parent;
    if NewBest(c, p) && c.best != parent {
      RouteFollowed(c.tree, c.best, parent);
    }
    assert |c.tree.Path(parent) + [p.hash]| > |c.tree.Path(parent)|;
    assert (c.tree.Path(parent) + [p.hash])[|c.tree.Path(parent)|] == p.hash;
    assert c.tree.Path(c.best)[|c.tree.Path(c.best)| - 1] == c.best;
  }

  lemma FollowImport(c: Chain, e: Event)
    requires c.Valid() && Possible(c, e) && Stores(c, e)
    ensures Next(c, e).Valid()
    ensures Follow(c.tree.Path(c.best), Announces(c, e).imported) == Some(Next(c, e).tree.Path(Next(c, e).best))
            <==> Followable(c, e)
  {
    var d, note := Next(c, e), Announces(c, e).imported;
    StoresExactly(c, e);
    StepHeads(c, e);
    ImportAnnounces(c, e.p, Prepared(c, e.p, e.parentHasState, e.execution).value.1);
    c.tree.PathKept(d.tree, c.best);
    c.tree.PathKept(d.tree, e.p.header.parent);
    FollowNote(c, e.p, note, d.tree.Path(d.best));
  }

  /** A view that is the path to best is so after the step exactly if the step is followable. */
  lemma FollowExactly(c: Chain, e: Event)
    requires c.Valid() && Possible(c, e)
    ensures Next(c, e).Valid()
    ensures Follow(c.tree.Path(c.best), Announces(c, e).imported) == Some(Next(c, e).tree.Path(Next(c, e).best))
            <==> Followable(c, e)
  {
    StoresExactly(c, e);
    if Stores(c, e) {
      FollowImport(c, e);
    } else if e.Import? {
      StoresOrNothing(c, e);
    } else {
      FinalityCommits(c, e.block, e.notify);
      var d := Next(c, e);
      if d.best != c.best {
        assert d.tree.Path(d.best)[|d.tree.Path(d.best)| - 1] == d.best;
      }
    }
  }

  ghost function FollowAll(c: Chain, events: seq<Event>): Option<seq<Hash>>
    requires c.Valid()
  {
    if events == [] then Some(c.tree.Path(c.best))
    else
      var n := |events| - 1;
      var view, before := FollowAll(c, events[..n]), Reach(c, events[..n]);
      if view.None? || before.None? then None
      else Follow(view.value, Announces(before.value, events[n]).imported)
  }

  /** After every step the view of a subscriber that only folds import notifications is the path
      genesis..best. */
  ghost predicate Mirrors(c: Chain, events: seq<Event>)
    requires c.Valid() && Reach(c, events).Some?
  {
    && FollowAll(c, events) == Some(Reach(c, events).value.tree.Path(Reach(c, events).value.best))
    && (events != [] ==> Mirrors(c, events[..|events| - 1]))
  }

  ghost predicate AllFollowable(c: Chain, events: seq<Event>)
    requires c.Valid() && Reach(c, events).Some?
  {
    events != [] ==>
      var n := |events| - 1;
      AllFollowable(c, events[..n]) && Followable(Reach(c, events[..n]).value, events[n])
  }

  /** A subscriber mirrors best throughout a run exactly if every step is followable. */
  lemma {:induction false} SubscriberMirrorsBest(c: Chain, events: seq<Event>)
    requires c.Valid() && Reach(c, events).Some?
    ensures Mirrors(c, events) <==> AllFollowable(c, events)
  {
    if events != [] {
      var n := |events| - 1;
      SubscriberMirrorsBest(c, events[..n]);
      FollowExactly(Reach(c, events[..n]).value, events[n]);
    }
  }

  /** Two children 1 and 2 of genesis 0, best at 1. */
  ghost function Forked(): Chain {
    Chain(Tree(0, map[0 := Header(9, 0), 1 := Header(0, 1), 2 := Header(0, 1)]), 1, 0)
  }

  lemma ForkedFacts()
    ensures var c := Forked();
            && c.Valid() && c.tree.IsAncestor(0, 1) && c.tree.IsAncestor(0, 2) && !c.tree.IsAncestor(2, 1)
  {
    var t := Forked().tree;
    assert t.Linked(0) && t.Linked(1) && t.Linked(2);
    assert t.Path(0) == [0] && t.Path(1) == [0, 1] && t.Path(2) == [0, 2];
  }

  /** A finalized child of 2. */
  const Stranding :=
    ImportParams(3, Header(2, 2), Own, true, false, true, Some(7), true, Some(LongestChain), false, false)

  lemma StrandingStores()
    ensures var c, e := Forked(), Import(Stranding, true, Changes(7));
            c.Valid() && Stores(c, e) && Strands(c, e)
  {
    var c := Forked();
    ForkedFacts();
    assert Reaches(c, Stranding) && Coherent(c, Stranding);
    ImportSucceeds(c, Stranding, Some(7));
    var r := Run(c, Fill(c, Stranding, Some(7)));
    ImportCommits(c, Stranding, Some(7));
    assert ImportStep(c, Stranding, true, Changes(7)) == r;
    StoresExactly(c, Import(Stranding, true, Changes(7)));
  }

  /** Importing and finalizing a child of 2 leaves best at 2, the parent of the finalized block. */
  lemma OffBranchImportStrandsBest()
    ensures var c, e := Forked(), Import(Stranding, true, Changes(7));
            && c.Valid() && c.BestDescends() && Possible(c, e) && Stores(c, e)
            && Next(c, e).Valid() && Next(c, e).best == 2 && Next(c, e).finalized == 3 && !Next(c, e).BestDescends()
  {
    var c, e := Forked(), Import(Stranding, true, Changes(7));
    ForkedFacts();
    StrandingStores();
    StepHeads(c, e);
    BestDescendsExactly(c, e);
  }
}
