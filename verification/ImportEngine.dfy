/** What an import or a finalization asks of the backend, as values: the operation record, its
    meaning when it is committed, and the step the chain takes. */
module ImportEngine {
  import opened Results
  import opened BlockTree
  import opened Notifies

  /** The backend's blockchain: the tree and the two heads. */
  datatype Chain = Chain(tree: Tree, best: Hash, finalized: Hash) {
    ghost predicate Valid() {
      tree.Valid() && best in tree.headers && finalized in tree.headers
    }

    function Number(h: Hash): nat
      requires h in tree.headers
    {
      tree.headers[h].number
    }

    ghost predicate BestDescends()
      requires Valid()
    {
      tree.IsAncestor(finalized, best)
    }
  }

  datatype NewBlockState = Normal | Best | Final

  datatype PendingBlock = PendingBlock(hash: Hash, header: Header, state: NewBlockState)

  /** What a client operation accumulates before it is committed. */
  datatype Operation = Operation(
    marks: seq<Hash>,
    head: Option<Hash>,
    pending: Option<PendingBlock>,
    notifyImported: Option<ImportSummary>,
    notifyFinalized: seq<Hash>)

  const EmptyOperation := Operation([], None, None, None, [])

  datatype ForkChoice = LongestChain | Custom(isBest: bool)

  /** What executing the block on its parent's state gives. */
  datatype Execution = Changes(delta: StorageChanges) | WrongStateRoot | Failed

  /** A block to import: `hash` and `header` are those of the post-header. */
  datatype ImportParams = ImportParams(
    hash: Hash,
    header: Header,
    origin: Origin,
    hasJustification: bool,
    hasIntermediates: bool,
    hasBody: bool,
    storageChanges: Option<StorageChanges>,
    finalized: bool,
    forkChoice: Option<ForkChoice>,
    importExisting: bool,
    allowMissingState: bool)

  datatype ImportResult = Imported(isNewBest: bool) | AlreadyInChain | UnknownParent | MissingState

  predicate Notifying(origin: Origin) {
    origin.NetworkBroadcast? || origin.Own? || origin.ConsensusBroadcast?
  }

  const MAX_TO_NOTIFY: nat := 256

  function LastFew(hashes: seq<Hash>): seq<Hash> {
    hashes[if |hashes| <= MAX_TO_NOTIFY then 0 else |hashes| - MAX_TO_NOTIFY..]
  }

  /** It is the end of the list, of 256 hashes or, if there are no more, of all. */
  lemma LastFewExactly(hashes: seq<Hash>)
    ensures |LastFew(hashes)| == if |hashes| < 256 then |hashes| else 256
    ensures exists front :: hashes == front + LastFew(hashes)
  {
    var k := |hashes| - |LastFew(hashes)|;
    assert hashes == hashes[..k] + LastFew(hashes);
  }

  /** What finalizing `block` adds to an operation: the blocks after the finalized head up to
      `block`, a head change if `block` is off the best branch, and notifications. */
  ghost function Finality(c: Chain, block: Hash, best: Hash, notify: bool, op: Operation): Result<Operation>
    requires c.Valid() && best in c.tree.headers
  {
    if block == c.finalized then Ok(op)
    else if block !in c.tree.headers then Err(UnknownBlock)
    else if !c.tree.IsAncestor(c.finalized, block) then Err(NotInFinalizedChain)
    else
      var path := c.tree.After(c.finalized, block);
      Ok(op.(marks := op.marks + path,
             head := if c.tree.IsAncestor(block, best) then op.head else Some(block),
             notifyFinalized := op.notifyFinalized + if notify then LastFew(path) else []))
  }

  predicate NewBest(c: Chain, p: ImportParams)
    requires c.best in c.tree.headers && p.forkChoice.Some?
  {
    || p.finalized
    || match p.forkChoice.value
       case LongestChain => p.header.number > c.Number(c.best)
       case Custom(v) => v
  }

  ghost function ImportRoute(c: Chain, p: ImportParams): Option<TreeRoute>
    requires c.Valid() && p.header.parent in c.tree.headers && p.forkChoice.Some?
  {
    if NewBest(c, p) && c.best != p.header.parent then Some(c.tree.Route(c.best, p.header.parent)) else None
  }

  /** The finalization of the parent that an import carries out first, if it does. */
  ghost function ParentFinality(c: Chain, p: ImportParams, changes: Option<StorageChanges>): Result<Operation>
    requires c.Valid()
  {
    if changes.Some? && p.finalized
    then Finality(c, p.header.parent, c.best, Notifying(p.origin), EmptyOperation)
    else Ok(EmptyOperation)
  }

  /** What importing a block whose storage changes are `changes` adds to an empty operation. */
  ghost function Fill(c: Chain, p: ImportParams, changes: Option<StorageChanges>): Result<(ImportResult, Operation)>
    requires c.Valid() && p.header.parent in c.tree.headers
  {
    if p.hasIntermediates || p.forkChoice.None? then Err(IncompletePipeline)
    else if !p.importExisting && p.hash in c.tree.headers then Ok((AlreadyInChain, EmptyOperation))
    else if p.importExisting && p.hash !in c.tree.headers then Err(UnknownBlock)
    else if p.header.number <= c.Number(c.finalized) then Err(NotInFinalizedChain)
    else
      var start := ParentFinality(c, p, changes);
      if start.Err? then Err(start.error)
      else
        var isNewBest, route := NewBest(c, p), ImportRoute(c, p);
        var announced := Notifying(p.origin) || route.Some?;
        Ok((Imported(isNewBest),
            start.value.(
            pending := Some(PendingBlock(p.hash, p.header,
                                         if p.finalized then Final else if isNewBest then Best else Normal)),
            notifyFinalized := start.value.notifyFinalized + if announced && p.finalized then [p.hash] else [],
            notifyImported := if announced
                              then Some(ImportSummary(p.hash, p.origin, p.header, isNewBest, changes, route))
                              else None)))
  }

  /** The finalized head after marks were applied one by one, each a child of the one before. */
  function MarkAll(t: Tree, finalized: Hash, marks: seq<Hash>): Option<Hash>
    decreases |marks|
  {
    if marks == [] then Some(finalized)
    else if marks[0] in t.headers && marks[0] != t.genesis && t.headers[marks[0]].parent == finalized
    then MarkAll(t, marks[0], marks[1..])
    else None
  }

  /** The backend's commit: finality marks in order, then the pending block, then the head.
      It refuses finality that is not sequential and a head that does not build on the finalized
      block, and then changes nothing. */
  ghost function Commit(c: Chain, op: Operation): Option<Chain>
    requires c.Valid()
    requires op.pending.Some? ==> op.pending.value.header.parent in c.tree.headers
  {
    var marked := MarkAll(c.tree, c.finalized, op.marks);
    if marked.None? then None
    else
      var c1 := c.(finalized := marked.value);
      var inserted :=
        if op.pending.None? then Some(c1)
        else
          var b := op.pending.value;
          var t := c.tree.(headers := c.tree.headers[b.hash := b.header]);
          if b.state.Final? && b.header.parent != c1.finalized then None
          else if !b.state.Normal? && !c.tree.IsAncestor(c.finalized, b.header.parent) then None
          else Some(Chain(t, if b.state.Normal? then c1.best else b.hash,
                          if b.state.Final? then b.hash else c1.finalized));
      if inserted.None? || op.head.None? then inserted
      else if op.head.value in c.tree.headers && c.tree.IsAncestor(c.finalized, op.head.value)
      then Some(inserted.value.(best := op.head.value))
      else None
  }

  datatype Outcome<T> = Outcome(
    result: Result<T>, chain: Chain, notifyFinalized: seq<Hash>, notifyImported: Option<ImportSummary>)

  /** `lock_import_and_run` around a filled operation: commit, then announce. */
  ghost function Run<T>(c: Chain, filled: Result<(T, Operation)>): Outcome<T>
    requires c.Valid()
    requires filled.Ok? && filled.value.1.pending.Some? ==> filled.value.1.pending.value.header.parent in c.tree.headers
  {
    if filled.Err? then Outcome(Err(filled.error), c, [], None)
    else
      var op := filled.value.1;
      var committed := Commit(c, op);
      if committed.None? then Outcome(Err(CommitRefused), c, [], None)
      else Outcome(Ok(filled.value.0), committed.value, op.notifyFinalized, op.notifyImported)
  }

  ghost function FinalizeStep(c: Chain, block: Hash, notify: bool): Outcome<()>
    requires c.Valid()
  {
    var filled := Finality(c, block, c.best, notify, EmptyOperation);
    Run(c, if filled.Err? then Err(filled.error) else Ok(((), filled.value)))
  }

  /** The storage changes an import ends up with, or the reason it stops before the import lock. */
  function Prepared(c: Chain, p: ImportParams, parentHasState: bool, execution: Execution)
    : Result<(Option<ImportResult>, Option<StorageChanges>)>
  {
    if p.header.parent !in c.tree.headers then Ok((Some(UnknownParent), p.storageChanges))
    else if !parentHasState then
      if p.allowMissingState then Ok((None, None)) else Ok((Some(MissingState), p.storageChanges))
    else if p.storageChanges.Some? || !p.hasBody then Ok((None, p.storageChanges))
    else match execution
      case Changes(delta) => Ok((None, Some(delta)))
      case WrongStateRoot => Err(InvalidStateRoot)
      case Failed => Err(ExecutionFailed)
  }

  ghost function ImportStep(c: Chain, p: ImportParams, parentHasState: bool, execution: Execution)
    : Outcome<ImportResult>
    requires c.Valid()
  {
    var prepared := Prepared(c, p, parentHasState, execution);
    if prepared.Err? then Outcome(Err(prepared.error), c, [], None)
    else if prepared.value.0.Some? then Outcome(Ok(prepared.value.0.value), c, [], None)
    else Run(c, Fill(c, p, prepared.value.1))
  }

  /** The verifier in front of the client only passes headers numbered after their parent, and a
      hash names one header. */
  ghost predicate Coherent(c: Chain, p: ImportParams) {
    && (p.header.parent in c.tree.headers ==> p.header.number == c.Number(p.header.parent) + 1)
    && (p.hash in c.tree.headers ==> c.tree.headers[p.hash] == p.header)
  }

  ghost predicate ChildAt(t: Tree, finalized: Hash, marks: seq<Hash>, i: nat) {
    i < |marks| ==>
      && marks[i] in t.headers && marks[i] != t.genesis
      && t.headers[marks[i]].parent == if i == 0 then finalized else marks[i - 1]
  }

  /** Exactly which marks are accepted: each a child of the one before, the first of the finalized head. */
  lemma {:induction false} MarksExactly(t: Tree, finalized: Hash, marks: seq<Hash>)
    ensures MarkAll(t, finalized, marks).Some? <==> forall i: nat :: ChildAt(t, finalized, marks, i)
    ensures MarkAll(t, finalized, marks).Some? ==>
              MarkAll(t, finalized, marks).value == if marks == [] then finalized else marks[|marks| - 1]
    decreases |marks|
  {
    if marks != [] {
      MarksExactly(t, marks[0], marks[1..]);
      assert ChildAt(t, finalized, marks, 0) || MarkAll(t, finalized, marks).None?;
      if forall i: nat :: ChildAt(t, finalized, marks, i) {
        forall i: nat
          ensures ChildAt(t, marks[0], marks[1..], i)
        {
          assert ChildAt(t, finalized, marks, i + 1);
        }
      }
      if MarkAll(t, finalized, marks).Some? {
        forall i: nat
          ensures ChildAt(t, finalized, marks, i)
        {
          assert i > 0 ==> ChildAt(t, marks[0], marks[1..], i - 1);
        }
      }
    }
  }

  /** Everything the assumed commit does, and exactly when it refuses: marks that are not sequential, a
      final block whose parent is not the last one marked, and a best block or head that does not build
      on the finalized block. */
  lemma CommitExactly(c: Chain, op: Operation)
    requires c.Valid()
    requires op.pending.Some? ==> op.pending.value.header.parent in c.tree.headers
    ensures var last := if op.marks == [] then c.finalized else op.marks[|op.marks| - 1];
            var committed := Commit(c, op);
            && (committed.Some? <==>
                && (forall i: nat :: ChildAt(c.tree, c.finalized, op.marks, i))
                && (op.pending.Some? ==>
                      var b := op.pending.value;
                      && (b.state.Final? ==> b.header.parent == last)
                      && (!b.state.Normal? ==> c.tree.IsAncestor(c.finalized, b.header.parent)))
                && (op.head.Some? ==>
                      op.head.value in c.tree.headers && c.tree.IsAncestor(c.finalized, op.head.value)))
            && (committed.Some? ==>
                  var d, pending := committed.value, op.pending;
                  && d.finalized == (if pending.Some? && pending.value.state.Final? then pending.value.hash else last)
                  && d.best == (if op.head.Some? then op.head.value
                                else if pending.Some? && !pending.value.state.Normal? then pending.value.hash
                                else c.best)
                  && d.tree.genesis == c.tree.genesis
                  && d.tree.headers == if pending.None? then c.tree.headers
                                       else c.tree.headers[pending.value.hash := pending.value.header])
  {
    MarksExactly(c.tree, c.finalized, op.marks);
  }

  /** Marks that follow the path from the finalized head are accepted and end at their target. */
  lemma {:induction false} MarkPath(t: Tree, finalized: Hash, block: Hash)
    requires t.Valid() && finalized in t.headers && block in t.headers && t.IsAncestor(finalized, block)
    ensures MarkAll(t, finalized, t.After(finalized, block)) == Some(block)
    decreases t.headers[block].number - t.headers[finalized].number
  {
    var path := t.After(finalized, block);
    if path == [] {
      t.AncestorByHeight(finalized, block);
    } else {
      var n := t.headers[finalized].number;
      t.AfterIsLinked(finalized, block, 0);
      t.PathBlock(block, n + 1);
      assert t.IsAncestor(path[0], block);
      assert path[1..] == t.After(path[0], block);
      MarkPath(t, path[0], block);
    }
  }

  /** What a finalization fills an empty operation with: marks that lead to the target, a head change
      exactly if the target is off the best branch, and the notifications. */
  lemma FinalityFills(c: Chain, block: Hash, notify: bool)
    requires c.Valid()
    ensures var f := Finality(c, block, c.best, notify, EmptyOperation);
            && (f.Ok? <==> block in c.tree.headers && c.tree.IsAncestor(c.finalized, block))
            && (f.Ok? ==>
                  && MarkAll(c.tree, c.finalized, f.value.marks) == Some(block)
                  && f.value.head == (if block == c.finalized || c.tree.IsAncestor(block, c.best) then None
                                      else Some(block))
                  && f.value.pending == None && f.value.notifyImported == None
                  && f.value.notifyFinalized == if notify then LastFew(c.tree.After(c.finalized, block)) else [])
  {
    if block in c.tree.headers && c.tree.IsAncestor(c.finalized, block) {
      MarkPath(c.tree, c.finalized, block);
      var path := c.tree.After(c.finalized, block);
      assert [] + path == path && [] + LastFew(path) == LastFew(path);
      if block == c.finalized {
        assert path == [];
      }
    }
  }

  /** An operation filled by a finalization is never refused. After it the finalized head is the
      target, and best is unchanged if it descends from the target and is the target otherwise. */
  lemma FinalityCommits(c: Chain, block: Hash, notify: bool)
    requires c.Valid()
    ensures var r := FinalizeStep(c, block, notify);
            && (r.result.Ok? <==> block in c.tree.headers && c.tree.IsAncestor(c.finalized, block))
            && (block !in c.tree.headers ==> r.result == Err(UnknownBlock))
            && (block in c.tree.headers && !c.tree.IsAncestor(c.finalized, block) ==>
                  r.result == Err(NotInFinalizedChain))
            && r.chain == (if r.result.Err? then c
                           else c.(finalized := block,
                                   best := if block == c.finalized || c.tree.IsAncestor(block, c.best) then c.best
                                           else block))
            && r.notifyFinalized == (if r.result.Ok? && notify then LastFew(c.tree.After(c.finalized, block)) else [])
            && r.notifyImported == None
  {
    FinalityFills(c, block, notify);
  }

  /** The part of an import that reaches the commit, and what it does to the heads. */
  ghost predicate Reaches(c: Chain, p: ImportParams)
    requires c.best in c.tree.headers && c.finalized in c.tree.headers
  {
    && !p.hasIntermediates && p.forkChoice.Some?
    && (p.importExisting <==> p.hash in c.tree.headers)
    && p.header.number > c.Number(c.finalized)
  }

  lemma ParentFinalityMarks(c: Chain, p: ImportParams, changes: Option<StorageChanges>)
    requires c.Valid() && p.header.parent in c.tree.headers && p.finalized
    ensures var op, parent := ParentFinality(c, p, changes), p.header.parent;
            && (op.Ok? <==> changes.None? || c.tree.IsAncestor(c.finalized, parent))
            && (op.Ok? ==> op.value.pending.None?)
            && (op.Ok? && changes.None? ==> op.value == EmptyOperation)
            && (op.Ok? && changes.Some? ==>
                  && MarkAll(c.tree, c.finalized, op.value.marks) == Some(parent)
                  && op.value.head == (if parent != c.finalized && !c.tree.IsAncestor(parent, c.best) then Some(parent)
                                       else None)
                  && op.value.notifyFinalized == if Notifying(p.origin) then LastFew(c.tree.After(c.finalized, parent))
                                                 else [])
  {
    FinalityFills(c, p.header.parent, Notifying(p.origin));
  }

  /** Exactly when an import that reaches the backend goes through: a block to finalize builds on the
      finalized head, and its parent is that head or gets finalized with it, which needs storage
      changes; a block to become best builds on the finalized head. */
  lemma ImportSucceeds(c: Chain, p: ImportParams, changes: Option<StorageChanges>)
    requires c.Valid() && p.header.parent in c.tree.headers && Coherent(c, p) && Reaches(c, p)
    ensures var parent := p.header.parent;
            Run(c, Fill(c, p, changes)).result.Ok? <==>
            if p.finalized then c.tree.IsAncestor(c.finalized, parent) && (changes.Some? || parent == c.finalized)
            else NewBest(c, p) ==> c.tree.IsAncestor(c.finalized, parent)
  {
    if p.finalized {
      ParentFinalityMarks(c, p, changes);
    }
  }

  /** ... and exactly when it is the backend that refuses it. */
  lemma ImportRefused(c: Chain, p: ImportParams, changes: Option<StorageChanges>)
    requires c.Valid() && p.header.parent in c.tree.headers && Coherent(c, p) && Reaches(c, p)
    ensures var parent := p.header.parent;
            Run(c, Fill(c, p, changes)).result == Err(CommitRefused) <==>
            || (p.finalized && changes.None? && parent != c.finalized)
            || (!p.finalized && NewBest(c, p) && !c.tree.IsAncestor(c.finalized, parent))
  {
    if p.finalized {
      ParentFinalityMarks(c, p, changes);
    }
  }

  /** Whether an import leaves a head change behind: it finalizes a parent off the best branch. */
  ghost predicate OffBranch(c: Chain, p: ImportParams)
    requires c.Valid() && p.header.parent in c.tree.headers
  {
    p.finalized && p.header.parent != c.finalized && !c.tree.IsAncestor(p.header.parent, c.best)
  }

  predicate Announced(c: Chain, p: ImportParams)
    requires c.best in c.tree.headers && p.forkChoice.Some?
  {
    Notifying(p.origin) || (NewBest(c, p) && p.header.parent != c.best)
  }

  /** An import that succeeds and stores the block: the whole new chain. */
  lemma ImportCommits(c: Chain, p: ImportParams, changes: Option<StorageChanges>)
    requires c.Valid() && p.header.parent in c.tree.headers && Coherent(c, p) && Reaches(c, p)
    requires Run(c, Fill(c, p, changes)).result.Ok?
    ensures var r, parent := Run(c, Fill(c, p, changes)), p.header.parent;
            && r.result.value == Imported(NewBest(c, p))
            && r.chain.Valid() && c.tree.ExtendedBy(r.chain.tree)
            && r.chain.tree.Path(p.hash) == c.tree.Path(parent) + [p.hash]
            && (NewBest(c, p) ==> c.tree.IsAncestor(c.finalized, parent))
            && r.chain.tree == c.tree.(headers := c.tree.headers[p.hash := p.header])
            && r.chain.finalized == (if p.finalized then p.hash else c.finalized)
            && r.chain.best == if OffBranch(c, p) then parent else if NewBest(c, p) then p.hash else c.best
  {
    c.tree.Insert(p.hash, p.header);
    if p.finalized {
      ParentFinalityMarks(c, p, changes);
    }
  }

  /** ... and every notification. */
  lemma ImportAnnounces(c: Chain, p: ImportParams, changes: Option<StorageChanges>)
    requires c.Valid() && p.header.parent in c.tree.headers && Coherent(c, p) && Reaches(c, p)
    requires Run(c, Fill(c, p, changes)).result.Ok?
    ensures var r, parent := Run(c, Fill(c, p, changes)), p.header.parent;
            && (p.finalized ==> c.tree.IsAncestor(c.finalized, parent))
            && r.notifyFinalized == (
                 if !p.finalized then []
                 else
                   (if Notifying(p.origin) then LastFew(c.tree.After(c.finalized, parent)) else []) +
                   if Announced(c, p) then [p.hash] else [])
            && r.notifyImported == (
                 if Announced(c, p)
                 then Some(ImportSummary(p.hash, p.origin, p.header, NewBest(c, p), changes, ImportRoute(c, p)))
                 else None)
  {
    if p.finalized {
      ParentFinalityMarks(c, p, changes);
      if p.header.parent == c.finalized {
        assert c.tree.After(c.finalized, c.finalized) == [];
      }
    }
  }

  /** Whether a block becomes best where it can: always if it is imported as final; by the longest-chain
      rule if it is higher than best; otherwise as the caller decides. */
  predicate WinsForkChoice(c: Chain, p: ImportParams)
    requires c.best in c.tree.headers
  {
    || p.finalized
    || p.forkChoice == Some(Custom(true))
    || (p.forkChoice == Some(LongestChain) && c.tree.headers[c.best].number < p.header.number)
  }

  lemma NewBestExactly(c: Chain, p: ImportParams)
    requires c.best in c.tree.headers && p.forkChoice.Some?
    ensures NewBest(c, p) <==> WinsForkChoice(c, p)
  {
  }

  /** The block is executed on its parent's state to obtain its storage changes. */
  predicate MustExecute(p: ImportParams, parentHasState: bool) {
    parentHasState && p.storageChanges.None? && p.hasBody
  }

  /** The storage changes an import goes on with. */
  function ChangesOf(p: ImportParams, parentHasState: bool, execution: Execution): Option<StorageChanges> {
    if !parentHasState then None
    else if p.storageChanges.Some? then p.storageChanges
    else if p.hasBody && execution.Changes? then Some(execution.delta)
    else None
  }

  lemma FillAnswers(c: Chain, p: ImportParams, changes: Option<StorageChanges>)
    requires c.Valid() && Coherent(c, p) && p.header.parent in c.tree.headers
    ensures var answer := Run(c, Fill(c, p, changes)).result;
            var complete, known := !p.hasIntermediates && p.forkChoice.Some?, p.hash in c.tree.headers;
            && (answer == Err(IncompletePipeline) <==> !complete)
            && (answer == Ok(AlreadyInChain) <==> complete && known && !p.importExisting)
            && (answer == Err(UnknownBlock) <==> complete && !known && p.importExisting)
            && (answer == Err(NotInFinalizedChain) <==>
                && complete && known == p.importExisting
                && (|| p.header.number <= c.tree.headers[c.finalized].number
                    || (p.finalized && changes.Some? && !c.tree.IsAncestor(c.finalized, p.header.parent))))
            && answer != Ok(UnknownParent) && answer != Ok(MissingState)
            && answer != Err(InvalidStateRoot) && answer != Err(ExecutionFailed)
  {
    if p.finalized {
      ParentFinalityMarks(c, p, changes);
    }
    if Reaches(c, p) && Run(c, Fill(c, p, changes)).result.Ok? {
      ImportCommits(c, p, changes);
    }
  }

  /** Every answer of an import and exactly when it is given: first by the parent and its state, then by
      the execution, then by the pipeline, by the block's own presence, and by finality. */
  lemma ImportAnswers(c: Chain, p: ImportParams, parentHasState: bool, execution: Execution)
    requires c.Valid() && Coherent(c, p)
    ensures var answer := ImportStep(c, p, parentHasState, execution).result;
            var parentThere := p.header.parent in c.tree.headers;
            var executes := parentThere && MustExecute(p, parentHasState);
            var ready := && parentThere && (parentHasState || p.allowMissingState)
                         && (executes ==> execution.Changes?);
            var complete := ready && !p.hasIntermediates && p.forkChoice.Some?;
            var known := p.hash in c.tree.headers;
            && (answer == Ok(UnknownParent) <==> !parentThere)
            && (answer == Ok(MissingState) <==> parentThere && !parentHasState && !p.allowMissingState)
            && (answer == Err(InvalidStateRoot) <==> executes && execution.WrongStateRoot?)
            && (answer == Err(ExecutionFailed) <==> executes && execution.Failed?)
            && (answer == Err(IncompletePipeline) <==> ready && !complete)
            && (answer == Ok(AlreadyInChain) <==> complete && known && !p.importExisting)
            && (answer == Err(UnknownBlock) <==> complete && !known && p.importExisting)
            && (answer == Err(NotInFinalizedChain) <==>
                && complete && known == p.importExisting
                && (|| p.header.number <= c.tree.headers[c.finalized].number
                    || (&& p.finalized && ChangesOf(p, parentHasState, execution).Some?
                        && !c.tree.IsAncestor(c.finalized, p.header.parent))))
  {
    if p.header.parent in c.tree.headers {
      FillAnswers(c, p, ChangesOf(p, parentHasState, execution));
    }
  }
}
