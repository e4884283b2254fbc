/** The client as the program runs it: operations filled step by step, committed and announced under
    the import lock. Every method is tied to the values of ImportEngine. */
module Client {
  import opened Results
  import opened BlockTree
  import opened Notifies
  import opened ImportEngine
  import Rules = BlockRules

  class ClientImportOperation {
    var marks: seq<Hash>
    var head: Option<Hash>
    var pending: Option<PendingBlock>
    var notifyImported: Option<ImportSummary>
    var notifyFinalized: seq<Hash>

    function View(): Operation
      reads this
    {
      Operation(marks, head, pending, notifyImported, notifyFinalized)
    }

    constructor ()
      ensures View() == EmptyOperation
    {
      marks, head, pending, notifyImported, notifyFinalized := [], None, None, None, [];
    }

    /** Marks the enacted blocks finalized, the last one being the target. The two assertions are
        the program's own. */
    method MarkFinalized(enacted: seq<Hash>, block: Hash)
      requires enacted != [] && enacted[|enacted| - 1] == block
      modifies this`marks
      ensures marks == old(marks) + enacted
    {
      assert enacted != [];
      for i := 0 to |enacted| - 1
        invariant marks == old(marks) + enacted[..i]
      {
        marks := marks + [enacted[i]];
      }
      assert enacted[|enacted| - 1] == block;
      marks := marks + [block];
    }

    method SetBlockData(block: PendingBlock)
      modifies this`pending
      ensures pending == Some(block)
    {
      pending := Some(block);
    }

    /** Queues the import for announcement, and its finality if it is imported as final. */
    method Announce(announced: bool, finalized: bool, summary: ImportSummary)
      modifies this`notifyFinalized, this`notifyImported
      ensures notifyFinalized == old(notifyFinalized) + if announced && finalized then [summary.hash] else []
      ensures notifyImported == if announced then Some(summary) else old(notifyImported)
    {
      if announced {
        if finalized {
          notifyFinalized := notifyFinalized + [summary.hash];
        }
        notifyImported := Some(summary);
      }
    }

    /** Queues notifications for the last enacted blocks. */
    method PushLast(enacted: seq<Hash>)
      modifies this`notifyFinalized
      ensures notifyFinalized == old(notifyFinalized) + LastFew(enacted)
    {
      var start := |enacted| - (if |enacted| <= MAX_TO_NOTIFY then |enacted| else MAX_TO_NOTIFY);
      for i := start to |enacted|
        invariant notifyFinalized == old(notifyFinalized) + enacted[start..i]
      {
        notifyFinalized := notifyFinalized + [enacted[i]];
      }
      assert enacted[start..|enacted|] == LastFew(enacted);
    }
  }

  datatype BlockStatus = Queued | InChainWithState | InChainPruned | Unknown

  datatype CheckParams = CheckParams(
    hash: Hash, number: nat, parent: Hash, allowMissingState: bool, importExisting: bool)

  datatype CheckResult = CheckKnownBad | CheckAlreadyInChain | CheckUnknownParent | CheckMissingState | Importable

  function Status(c: Chain, importing: Option<Hash>, hash: Hash, withState: set<Hash>): BlockStatus {
    if importing == Some(hash) then Queued
    else if hash !in c.tree.headers then Unknown
    else if hash in withState then InChainWithState
    else InChainPruned
  }

  /** A block that may be imported: no rule is against it, it is unknown or may be imported again, and
      its parent is there with its state, or without it if that is allowed. */
  predicate Admits(rules: Rules.Rules, c: Chain, importing: Option<Hash>, b: CheckParams, withState: set<Hash>) {
    var known, parent := Status(c, importing, b.hash, withState), Status(c, importing, b.parent, withState);
    && rules.Lookup(b.number, b.hash).NotSpecial?
    && (known.Unknown? || (!known.InChainPruned? && b.importExisting))
    && !parent.Unknown?
    && (parent.InChainPruned? ==> b.allowMissingState)
  }

  /** ... in terms of the rules, the tree and the kept states themselves. */
  lemma AdmitsExactly(rules: Rules.Rules, c: Chain, importing: Option<Hash>, b: CheckParams, withState: set<Hash>)
    ensures Admits(rules, c, importing, b, withState) <==>
            && (b.number in rules.forks ==> rules.forks[b.number] == b.hash) && b.hash !in rules.bad
            && (importing == Some(b.hash) || b.hash in c.tree.headers ==>
                  b.importExisting && (importing == Some(b.hash) || b.hash in withState))
            && (importing == Some(b.parent) || b.parent in c.tree.headers)
            && (importing == Some(b.parent) || b.parent in withState || b.allowMissingState)
  {
  }

  method IsOnBranch(t: Tree, a: Hash, h: Hash) returns (b: bool)
    requires t.Valid() && a in t.headers && h in t.headers
    ensures b == t.IsAncestor(a, h)
  {
    var route := FindRoute(t, a, h);
    t.RouteAncestors(a, h);
    b := route.value.retracted == [];
  }

  /** The backend's side of a commit. */
  method CommitOperation(c: Chain, op: Operation) returns (r: Option<Chain>)
    requires c.Valid()
    requires op.pending.Some? ==> op.pending.value.header.parent in c.tree.headers
    ensures r == Commit(c, op)
  {
    var marked := MarkAll(c.tree, c.finalized, op.marks);
    if marked.None? {
      return None;
    }
    var d := c.(finalized := marked.value);
    if op.pending.Some? {
      var b := op.pending.value;
      if b.state.Final? && b.header.parent != d.finalized {
        return None;
      }
      if !b.state.Normal? {
        var builds := IsOnBranch(c.tree, c.finalized, b.header.parent);
        if !builds {
          return None;
        }
        d := d.(best := b.hash);
      }
      if b.state.Final? {
        d := d.(finalized := b.hash);
      }
      d := d.(tree := c.tree.(headers := c.tree.headers[b.hash := b.header]));
    }
    if op.head.Some? {
      if op.head.value !in c.tree.headers {
        return None;
      }
      var builds := IsOnBranch(c.tree, c.finalized, op.head.value);
      if !builds {
        return None;
      }
      d := d.(best := op.head.value);
    }
    r := Some(d);
  }

  /** The sinks have been told of a commit; nobody is told of an operation that did not commit. */
  ghost predicate Told(before: Subscribers, after: Subscribers, committed: bool,
                       c: Chain, hashes: seq<Hash>, summary: Option<ImportSummary>)
  {
    if committed then
      && (forall h :: h in hashes ==> h in c.tree.headers)
      && after == before.Told(c.tree.headers, hashes, summary)
    else after == before
  }

  lemma EnactedEndsAt(t: Tree, last: Hash, block: Hash)
    requires t.Valid() && last in t.headers && block in t.headers && block != last
    requires t.IsAncestor(last, block)
    ensures t.After(last, block) != [] && t.After(last, block)[|t.After(last, block)| - 1] == block
  {
    t.AncestorByHeight(last, block);
    assert t.Path(block)[|t.Path(block)| - 1] == block;
  }

  /** A finalization in terms of the two routes it is decided by. */
  lemma FinalityByRoutes(c: Chain, block: Hash, best: Hash, notify: bool, op: Operation)
    requires c.Valid() && best in c.tree.headers && block in c.tree.headers && block != c.finalized
    ensures var fromFinalized, fromBest := c.tree.Route(c.finalized, block), c.tree.Route(best, block);
            var enacted := fromFinalized.enacted;
            && (fromFinalized.retracted == [] ==> enacted != [] && enacted[|enacted| - 1] == block)
            && Finality(c, block, best, notify, op) ==
               if fromFinalized.retracted != [] then Err(NotInFinalizedChain)
               else Ok(op.(marks := op.marks + enacted,
                           head := if fromBest.common != block then Some(block) else op.head,
                           notifyFinalized := op.notifyFinalized + if notify then LastFew(enacted) else []))
  {
    c.tree.RouteAncestors(c.finalized, block);
    c.tree.RouteAncestors(best, block);
    if c.tree.IsAncestor(c.finalized, block) {
      EnactedEndsAt(c.tree, c.finalized, block);
    }
  }

  lemma AfterKnown(t: Tree, a: Hash, h: Hash)
    requires t.Valid() && a in t.headers && h in t.headers && t.IsAncestor(a, h)
    ensures forall x :: x in t.After(a, h) ==> x in t.headers
  {
    forall i | 0 <= i < |t.After(a, h)|
      ensures t.After(a, h)[i] in t.headers
    {
      t.AfterIsLinked(a, h, i);
    }
  }

  lemma FinalityAnnouncesKnown(c: Chain, block: Hash, notify: bool)
    requires c.Valid()
    ensures var f := Finality(c, block, c.best, notify, EmptyOperation);
            f.Ok? ==> f.value.pending.None? && forall h :: h in f.value.notifyFinalized ==> h in c.tree.headers
  {
    if block in c.tree.headers && c.tree.IsAncestor(c.finalized, block) {
      AfterKnown(c.tree, c.finalized, block);
    }
  }

  lemma ImportAnnouncesKnown(c: Chain, p: ImportParams, changes: Option<StorageChanges>)
    requires c.Valid() && Coherent(c, p) && p.header.parent in c.tree.headers
    ensures var f := Fill(c, p, changes);
            f.Ok? ==>
              && (f.value.1.pending.Some? ==> f.value.1.pending.value.header.parent in c.tree.headers)
              && (Commit(c, f.value.1).Some? ==>
                    forall h :: h in f.value.1.notifyFinalized ==> h in Commit(c, f.value.1).value.tree.headers)
  {
    if changes.Some? && p.finalized {
      FinalityAnnouncesKnown(c, p.header.parent, Notifying(p.origin));
    }
  }

  class Client {
    var chain: Chain
    var importing: Option<Hash>
    const rules: Rules.BlockRules
    const notifies: ClientNotifies

    constructor (chain: Chain, rules: Rules.BlockRules, notifies: ClientNotifies)
      ensures this.chain == chain && importing == None && this.rules == rules && this.notifies == notifies
    {
      this.chain, this.rules, this.notifies, importing := chain, rules, notifies, None;
    }

    /** Fills an operation with the finalization of `block` and of every block below it that is not
        finalized yet. */
    method ApplyFinalityWithBlockHash(op: ClientImportOperation, block: Hash, best: Hash, notify: bool)
      returns (r: Result<()>)
      requires chain.Valid() && best in chain.tree.headers
      modifies op
      ensures var f := Finality(chain, block, best, notify, old(op.View()));
              && (f.Err? ==> r == Err(f.error) && op.View() == old(op.View()))
              && (f.Ok? ==> r.Ok? && op.View() == f.value)
    {
      var last := chain.finalized;
      if block == last {
        return Ok(());
      }
      var fromFinalized := FindRoute(chain.tree, last, block);
      if fromFinalized.Err? {
        return Err(UnknownBlock);
      }
      FinalityByRoutes(chain, block, best, notify, op.View());
      if |fromFinalized.value.retracted| > 0 {
        return Err(NotInFinalizedChain);
      }
      var fromBest := FindRoute(chain.tree, best, block);
      if fromBest.value.common != block {
        op.head := Some(block);
      }
      var enacted := fromFinalized.value.enacted;
      op.MarkFinalized(enacted, block);
      if notify {
        op.PushLast(enacted);
      } else {
        assert op.notifyFinalized == old(op.notifyFinalized) + [];
      }
      r := Ok(());
    }

    /** Fills an operation with a block to import. */
    method ExecuteAndImportBlock(op: ClientImportOperation, p: ImportParams, changes: Option<StorageChanges>)
      returns (r: Result<ImportResult>)
      requires chain.Valid() && p.header.parent in chain.tree.headers
      requires !p.hasIntermediates && p.forkChoice.Some?
      requires op.View() == EmptyOperation
      modifies op
      ensures var f := Fill(chain, p, changes);
              && (f.Err? ==> r == Err(f.error))
              && (f.Ok? ==> r == Ok(f.value.0) && op.View() == f.value.1)
    {
      var parent := p.header.parent;
      var known := p.hash in chain.tree.headers;
      if !p.importExisting && known {
        return Ok(AlreadyInChain);
      }
      if p.importExisting && !known {
        return Err(UnknownBlock);
      }
      if p.header.number <= chain.Number(chain.finalized) {
        return Err(NotInFinalizedChain);
      }
      var makeNotifications := Notifying(p.origin);
      if changes.Some? {
        if p.finalized {
          var applied := ApplyFinalityWithBlockHash(op, parent, chain.best, makeNotifications);
          if applied.Err? {
            return Err(applied.error);
          }
        }
      }
      var isNewBest := NewBest(chain, p);
      var state := if p.finalized then Final else if isNewBest then Best else Normal;
      var route: Option<TreeRoute> := None;
      if isNewBest && chain.best != parent {
        var fromBest := FindRoute(chain.tree, chain.best, parent);
        route := Some(fromBest.value);
      }
      op.SetBlockData(PendingBlock(p.hash, p.header, state));
      op.Announce(makeNotifications || route.Some?, p.finalized,
                  ImportSummary(p.hash, p.origin, p.header, isNewBest, changes, route));
      r := Ok(Imported(isNewBest));
    }

    /** A justification is only given for a block imported as finalized. */
    method ApplyBlock(op: ClientImportOperation, p: ImportParams, changes: Option<StorageChanges>)
      returns (r: Result<ImportResult>)
      requires chain.Valid() && p.header.parent in chain.tree.headers
      requires p.hasJustification ==> p.finalized
      requires op.View() == EmptyOperation
      modifies op, this`importing
      ensures var f := Fill(chain, p, changes);
              && (f.Err? ==> r == Err(f.error))
              && (f.Ok? ==> r == Ok(f.value.0) && op.View() == f.value.1)
      ensures importing == if p.hasIntermediates || p.forkChoice.None? then old(importing) else Some(p.hash)
    {
      if p.hasIntermediates || p.forkChoice.None? {
        return Err(IncompletePipeline);
      }
      importing := Some(p.hash);
      r := ExecuteAndImportBlock(op, p, changes);
    }

    /** The part of `lock_import_and_run` after the operation was filled. */
    method CommitAndNotify(op: Operation) returns (committed: bool)
      requires chain.Valid()
      requires op.pending.Some? ==> op.pending.value.header.parent in chain.tree.headers
      requires var c := Commit(chain, op);
               c.Some? ==> forall h :: h in op.notifyFinalized ==> h in c.value.tree.headers
      requires notifies.Valid()
      modifies this`chain, notifies
      ensures notifies.Valid()
      ensures committed == Commit(old(chain), op).Some?
      ensures chain == if committed then Commit(old(chain), op).value else old(chain)
      ensures Told(old(notifies.View()), notifies.View(), committed, chain, op.notifyFinalized, op.notifyImported)
    {
      var c := CommitOperation(chain, op);
      committed := c.Some?;
      if committed {
        chain := c.value;
        notifies.NotifyFinalized(chain.tree.headers, op.notifyFinalized);
        notifies.NotifyImported(op.notifyImported);
      }
    }

    /** Imports a block: prepares its storage changes, then fills, commits and announces. */
    method ImportBlock(p: ImportParams, parentHasState: bool, execution: Execution) returns (r: Result<ImportResult>)
      requires chain.Valid() && Coherent(chain, p)
      requires p.hasJustification ==> p.finalized
      requires notifies.Valid()
      modifies this`chain, this`importing, notifies
      ensures notifies.Valid()
      ensures var step := ImportStep(old(chain), p, parentHasState, execution);
              && r == step.result && chain == step.chain
              && var prepared := Prepared(old(chain), p, parentHasState, execution);
              var locked := prepared.Ok? && prepared.value.0.None?;
              && importing == (if locked then None else old(importing))
              && Told(old(notifies.View()), notifies.View(), locked && r.Ok?, chain,
                      step.notifyFinalized, step.notifyImported)
    {
      var prepared := Prepared(chain, p, parentHasState, execution);
      if prepared.Err? {
        return Err(prepared.error);
      }
      if prepared.value.0.Some? {
        return Ok(prepared.value.0.value);
      }
      var op := new ClientImportOperation();
      var filled := ApplyBlock(op, p, prepared.value.1);
      if filled.Err? {
        importing := None;
        return Err(filled.error);
      }
      ImportAnnouncesKnown(chain, p, prepared.value.1);
      var committed := CommitAndNotify(op.View());
      importing := None;
      r := if committed then filled else Err(CommitRefused);
    }

    method FinalizeBlock(block: Hash, notify: bool) returns (r: Result<()>)
      requires chain.Valid() && notifies.Valid()
      modifies this`chain, this`importing, notifies
      ensures notifies.Valid()
      ensures var step := FinalizeStep(old(chain), block, notify);
              && r == step.result && chain == step.chain && importing == None
              && Told(old(notifies.View()), notifies.View(), r.Ok?, chain, step.notifyFinalized, None)
    {
      var op := new ClientImportOperation();
      var filled := ApplyFinalityWithBlockHash(op, block, chain.best, notify);
      importing := None;
      FinalityAnnouncesKnown(chain, block, notify);
      if filled.Err? {
        return Err(filled.error);
      }
      var committed := CommitAndNotify(op.View());
      r := if committed then Ok(()) else Err(CommitRefused);
    }

    /** Checks a block before import: the rules first, then the block itself, then its parent. */
    method CheckBlock(b: CheckParams, withState: set<Hash>) returns (r: CheckResult)
      ensures var special := !rules.View().Lookup(b.number, b.hash).NotSpecial?;
              var known := importing == Some(b.hash) || b.hash in chain.tree.headers;
              var again := b.importExisting && (importing == Some(b.hash) || b.hash in withState);
              var offered := !special && (!known || again);
              var parentKnown := importing == Some(b.parent) || b.parent in chain.tree.headers;
              var parentUsable := importing == Some(b.parent) || b.parent in withState || b.allowMissingState;
              && (r.CheckKnownBad? <==> special)
              && (r.CheckAlreadyInChain? <==> !special && known && !again)
              && (r.CheckUnknownParent? <==> offered && !parentKnown)
              && (r.CheckMissingState? <==> offered && parentKnown && !parentUsable)
              && (r.Importable? <==> offered && parentKnown && parentUsable)
      ensures r.Importable? <==> Admits(rules.View(), chain, importing, b, withState)
    {
      if !rules.View().Lookup(b.number, b.hash).NotSpecial? {
        return CheckKnownBad;
      }
      match Status(chain, importing, b.hash, withState) {
        case InChainWithState | Queued =>
          if !b.importExisting {
            return CheckAlreadyInChain;
          }
        case InChainPruned =>
          return CheckAlreadyInChain;
        case Unknown =>
      }
      match Status(chain, importing, b.parent, withState) {
        case InChainWithState | Queued =>
        case Unknown =>
          return CheckUnknownParent;
        case InChainPruned =>
          if !b.allowMissingState {
            return CheckMissingState;
          }
      }
      r := Importable;
    }
  }
}
