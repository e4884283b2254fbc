/** Runtime API calls over the transactional overlay: nested calls, block initialization on demand
    and closures run in a transaction, against a reference that saves and restores snapshots. */
module RuntimeCalls {
  import opened Results

  type BlockId = nat
  type Key = nat
  type Value = nat

  datatype Write = Write(key: Key, value: Option<Value>)

  /** Who wrote a batch: the initialization of a block, or a call made at it. */
  datatype Source = InitOf(at: BlockId) | CallAt(at: BlockId)

  datatype Batch = Batch(source: Source, writes: seq<Write>)

  /** What the state machine does when it runs a runtime function: the writes it leaves in the
      overlay (its own nested transactions are balanced), whether it succeeds, and whether the
      caller can decode what it returns. */
  datatype Execution = Execution(writes: seq<Write>, succeeds: bool, decodes: bool)

  /** What initializing a block meets: a known parent header, a readable runtime version, and the
      run of the initialization function. */
  datatype InitPlan = InitPlan(parentKnown: bool, versionKnown: bool, run: Execution)

  type Plans = BlockId -> InitPlan

  datatype CallResult = Done | ApiError | FailedToDecode

  datatype Action =
    | Api(at: BlockId, initBlock: bool, run: Execution)
    | Initialize(at: BlockId)
    | InTransaction(body: Program, commit: bool)

  datatype Program = Nothing | Then(first: Action, rest: Program)

  /** What can be observed between calls: the pending changes, the block last initialized, and which
      initializations ran so far. */
  datatype Snapshot = Snapshot(log: seq<Batch>, initialized: Option<BlockId>, inits: seq<BlockId>)

  // ---- the reference: save a snapshot, run, restore it unless the call succeeded ----

  function CallOn(plans: Plans, s: Snapshot, source: Source, initBlock: bool, run: Execution): (Snapshot, CallResult)
    decreases initBlock, 0
  {
    var at := source.at;
    var needsInit := initBlock && s.initialized != Some(at);
    var ready := if !needsInit then (s, Done)
                 else if !plans(at).parentKnown then (s, ApiError)
                 else InitializeOn(plans, s, at);
    if ready.1 != Done then (ready.0.(log := s.log), ApiError)
    else if !run.succeeds then (ready.0.(log := s.log), ApiError)
    else (ready.0.(log := ready.0.log + [Batch(source, run.writes)]), if run.decodes then Done else FailedToDecode)
  }

  function InitializeOn(plans: Plans, s: Snapshot, at: BlockId): (Snapshot, CallResult)
    decreases false, 1
  {
    if !plans(at).versionKnown then (s, ApiError)
    else
      var r := CallOn(plans, s, InitOf(at), false, plans(at).run);
      (r.0.(initialized := Some(at), inits := s.inits + [at]), r.1)
  }

  function ActOn(plans: Plans, s: Snapshot, a: Action): Snapshot
    decreases a
  {
    match a
    case Api(at, initBlock, run) => CallOn(plans, s, CallAt(at), initBlock, run).0
    case Initialize(at) => InitializeOn(plans, s, at).0
    case InTransaction(body, commit) =>
      var r := RunOn(plans, s, body);
      if commit then r else r.(log := s.log)
  }

  function RunOn(plans: Plans, s: Snapshot, p: Program): Snapshot
    decreases p
  {
    match p
    case Nothing => s
    case Then(first, rest) => RunOn(plans, ActOn(plans, s, first), rest)
  }

  // ---- the program: one overlay with a stack of open transactions ----

  function Flattened(layers: seq<seq<Batch>>): seq<Batch> {
    if layers == [] then [] else Flattened(layers[..|layers| - 1]) + layers[|layers| - 1]
  }

  class MockRuntimeApi {
    var layers: seq<seq<Batch>>
    var initialized: Option<BlockId>
    ghost var inits: seq<BlockId>
    const plans: Plans

    ghost function View(): Snapshot
      reads this
    {
      Snapshot(Flattened(layers), initialized, inits)
    }

    function Depth(): int
      reads this
    {
      |layers| - 1
    }

    constructor (plans: Plans)
      ensures this.plans == plans && layers == [[]] && initialized == None && inits == []
    {
      this.plans, layers, initialized, inits := plans, [[]], None, [];
    }

    method StartTransaction()
      modifies this`layers
      ensures layers == old(layers) + [[]]
      ensures Flattened(layers) == Flattened(old(layers))
    {
      assert (layers + [[]])[..|layers|] == layers;
      layers := layers + [[]];
    }

    /** Closing a transaction expects one to be open. */
    method CommitTransaction()
      requires Depth() > 0
      modifies this`layers
      ensures Depth() == old(Depth()) - 1
      ensures layers[..|layers| - 1] == old(layers[..|layers| - 2])
      ensures Flattened(layers) == Flattened(old(layers))
    {
      var n := |layers|;
      ghost var lower := layers[..n - 2];
      assert layers[..n - 1][..n - 2] == lower;
      layers := layers[..n - 2] + [layers[n - 2] + layers[n - 1]];
      assert layers[..n - 2] == lower;
    }

    method RollbackTransaction()
      requires Depth() > 0
      modifies this`layers
      ensures layers == old(layers[..|layers| - 1])
    {
      layers := layers[..|layers| - 1];
    }

    /** Appends to the innermost open layer. */
    method Append(batch: Batch)
      requires Depth() >= 0
      modifies this`layers
      ensures Depth() == old(Depth()) && layers[..|layers| - 1] == old(layers[..|layers| - 1])
      ensures Flattened(layers) == Flattened(old(layers)) + [batch]
    {
      var n := |layers|;
      ghost var lower := layers[..n - 1];
      layers := layers[..n - 1] + [layers[n - 1] + [batch]];
      assert layers[..n - 1] == lower;
    }

    /** A call in its own transaction, committed if the call succeeds and rolled back otherwise; a
        result that cannot be decoded is noticed after the commit. */
    method CallApiAt(source: Source, initBlock: bool, run: Execution) returns (r: CallResult)
      requires Depth() >= 0
      modifies this
      ensures Depth() == old(Depth()) && layers[..|layers| - 1] == old(layers[..|layers| - 1])
      ensures (View(), r) == CallOn(plans, old(View()), source, initBlock, run)
      decreases initBlock, 1
    {
      ghost var before := layers;
      StartTransaction();
      assert layers[..|before|] == before;
      var ok := ContextualCall(source, initBlock, run);
      assert layers[..|before|] == before;
      if ok {
        CommitTransaction();
      } else {
        RollbackTransaction();
      }
      r := if !ok then ApiError else if run.decodes then Done else FailedToDecode;
    }

    /** Initializes the block first if asked to and if another block, or none, is initialized. */
    method ContextualCall(source: Source, initBlock: bool, run: Execution) returns (ok: bool)
      requires Depth() >= 0
      modifies this
      ensures Depth() == old(Depth()) && layers[..|layers| - 1] == old(layers[..|layers| - 1])
      ensures var s := CallOn(plans, old(View()), source, initBlock, run);
              && ok == (s.1 != ApiError)
              && initialized == s.0.initialized && inits == s.0.inits
              && (ok ==> Flattened(layers) == s.0.log)
      decreases initBlock, 0
    {
      if initBlock && initialized != Some(source.at) {
        if !plans(source.at).parentKnown {
          return false;
        }
        var init := InitializeBlock(source.at);
        if init != Done {
          return false;
        }
      }
      Append(Batch(source, run.writes));
      ok := run.succeeds;
    }

    /** Records the block as initialized whether or not its initialization succeeded. */
    method InitializeBlock(at: BlockId) returns (r: CallResult)
      requires Depth() >= 0
      modifies this
      ensures Depth() == old(Depth()) && layers[..|layers| - 1] == old(layers[..|layers| - 1])
      ensures (View(), r) == InitializeOn(plans, old(View()), at)
      decreases false, 2
    {
      if !plans(at).versionKnown {
        return ApiError;
      }
      r := CallApiAt(InitOf(at), false, plans(at).run);
      initialized := Some(at);
      inits := inits + [at];
    }

    method CommitOrRollback(commit: bool)
      requires Depth() > 0
      modifies this`layers
      ensures Depth() == old(Depth()) - 1
      ensures layers[..|layers| - 1] == old(layers[..|layers| - 2])
      ensures Flattened(layers) == if commit then Flattened(old(layers)) else Flattened(old(layers[..|layers| - 1]))
    {
      if commit {
        CommitTransaction();
      } else {
        RollbackTransaction();
        assert old(layers)[..|layers|][..|layers| - 1] == old(layers)[..|layers| - 1];
      }
    }

    /** Runs a closure in a transaction that the closure's outcome commits or rolls back. */
    method ExecuteInTransaction(body: Program, commit: bool)
      requires Depth() >= 0
      modifies this
      ensures Depth() == old(Depth()) && layers[..|layers| - 1] == old(layers[..|layers| - 1])
      ensures View() == ActOn(plans, old(View()), InTransaction(body, commit))
      decreases body, 1
    {
      ghost var before := layers;
      StartTransaction();
      assert layers[..|before|] == before;
      Run(body);
      assert layers[..|before|] == before;
      CommitOrRollback(commit);
    }

    /** Any finite tree of calls keeps the depth and the layers below, never closes a transaction
        that is not open, and ends in the state the reference reaches. */
    method Run(p: Program)
      requires Depth() >= 0
      modifies this
      ensures Depth() == old(Depth()) && layers[..|layers| - 1] == old(layers[..|layers| - 1])
      ensures View() == RunOn(plans, old(View()), p)
      decreases p, 0
    {
      match p {
        case Nothing =>
        case Then(first, rest) =>
          match first {
            case Api(at, initBlock, run) =>
              var _ := CallApiAt(CallAt(at), initBlock, run);
            case Initialize(at) =>
              var _ := InitializeBlock(at);
            case InTransaction(body, commit) =>
              ExecuteInTransaction(body, commit);
          }
          Run(rest);
      }
    }

    /** Takes the pending changes and forgets the initialized block. No transaction may be open. */
    method IntoStorageChanges() returns (changes: seq<Batch>)
      requires Depth() == 0
      modifies this`layers, this`initialized
      ensures changes == Flattened(old(layers))
      ensures View() == Snapshot([], None, inits) && Depth() == 0
    {
      initialized := None;
      changes := layers[0];
      layers := [[]];
    }
  }

  /** How the archive obtains a block's changes: the outcome of the execution itself is dropped, so
      a block that fails to execute yields no changes at all. */
  method ExecuteBlockIntoChanges(plans: Plans, parent: BlockId, run: Execution) returns (changes: seq<Batch>)
    ensures changes == if run.succeeds then [Batch(CallAt(parent), run.writes)] else []
  {
    var api := new MockRuntimeApi(plans);
    var _ := api.CallApiAt(CallAt(parent), false, run);
    changes := api.IntoStorageChanges();
  }

  // ---- what the reference says ----

  lemma PlainCall(plans: Plans, s: Snapshot, source: Source, run: Execution)
    ensures CallOn(plans, s, source, false, run) ==
            if !run.succeeds then (s, ApiError)
            else (s.(log := s.log + [Batch(source, run.writes)]), if run.decodes then Done else FailedToDecode)
  {
  }

  /** What a successful initialization of a block writes. */
  function InitBatch(plans: Plans, at: BlockId): Batch {
    Batch(InitOf(at), plans(at).run.writes)
  }

  /** The initialization of the block, with all it wrote, is among the changes. */
  ghost predicate HasInit(plans: Plans, log: seq<Batch>, at: BlockId) {
    exists i :: 0 <= i < |log| && log[i] == InitBatch(plans, at)
  }

  /** The block recorded as initialized has its initialization among the pending changes. */
  ghost predicate Faithful(plans: Plans, s: Snapshot) {
    s.initialized.Some? ==> HasInit(plans, s.log, s.initialized.value)
  }

  lemma HasInitGrows(plans: Plans, log: seq<Batch>, more: seq<Batch>, at: BlockId)
    ensures HasInit(plans, log + more, at) <==> HasInit(plans, log, at) || HasInit(plans, more, at)
  {
    if HasInit(plans, log, at) {
      var i :| 0 <= i < |log| && log[i] == InitBatch(plans, at);
      assert (log + more)[i] == InitBatch(plans, at);
    }
    if HasInit(plans, more, at) {
      var i :| 0 <= i < |more| && more[i] == InitBatch(plans, at);
      assert (log + more)[|log| + i] == InitBatch(plans, at);
    }
  }

  /** The call attempts to run the initialization of its block. */
  predicate AttemptsInit(plans: Plans, s: Snapshot, at: BlockId) {
    s.initialized != Some(at) && plans(at).parentKnown && plans(at).versionKnown
  }

  /** Exactly when a call that initializes on demand leaves a faithful record: when it does not attempt
      an initialization, or an earlier one of the same block is still pending, or the initialization
      succeeds, its result decodes and the call itself succeeds. Otherwise the rollback takes the
      initialization back but leaves the record. */
  lemma CallFaithfulExactly(plans: Plans, s: Snapshot, at: BlockId, run: Execution)
    requires Faithful(plans, s)
    ensures Faithful(plans, CallOn(plans, s, CallAt(at), true, run).0) <==>
            || !AttemptsInit(plans, s, at)
            || HasInit(plans, s.log, at)
            || (plans(at).run.succeeds && plans(at).run.decodes && run.succeeds)
  {
    var init := Batch(InitOf(at), plans(at).run.writes);
    HasInitGrows(plans, s.log, [init], at);
    assert [init][0] == InitBatch(plans, at);
    HasInitGrows(plans, s.log + [init], [Batch(CallAt(at), run.writes)], at);
    if s.initialized.Some? {
      HasInitGrows(plans, s.log, [Batch(CallAt(at), run.writes)], s.initialized.value);
    }
  }

  /** A stale record has a consequence: after a failed call at a fresh block, the next call at that
      block runs without initialization. */
  lemma StaleInitIsSkipped(plans: Plans, s: Snapshot, at: BlockId, failing: Execution, next: Execution)
    requires AttemptsInit(plans, s, at) && !HasInit(plans, s.log, at)
    requires !failing.succeeds && next.succeeds
    ensures var first := CallOn(plans, s, CallAt(at), true, failing).0;
            var second := CallOn(plans, first, CallAt(at), true, next).0;
            && second.inits == s.inits + [at]
            && second.log == s.log + [Batch(CallAt(at), next.writes)]
            && second.initialized == Some(at) && !Faithful(plans, second)
  {
    HasInitGrows(plans, s.log, [Batch(CallAt(at), next.writes)], at);
  }

  /** Whether a call will succeed, its own result decoding or not. */
  predicate WillSucceed(plans: Plans, s: Snapshot, at: BlockId, initBlock: bool, run: Execution) {
    && run.succeeds
    && (initBlock && s.initialized != Some(at) ==>
          plans(at).parentKnown && plans(at).versionKnown && plans(at).run.succeeds && plans(at).run.decodes)
  }

  /** Exactly which calls go through, and which initializations. */
  lemma SucceedsExactly(plans: Plans, s: Snapshot, at: BlockId, initBlock: bool, run: Execution)
    ensures CallOn(plans, s, CallAt(at), initBlock, run).1 != ApiError <==> WillSucceed(plans, s, at, initBlock, run)
    ensures CallOn(plans, s, CallAt(at), initBlock, run).1 == Done <==>
            WillSucceed(plans, s, at, initBlock, run) && run.decodes
    ensures InitializeOn(plans, s, at).1 != ApiError <==> plans(at).versionKnown && plans(at).run.succeeds
    ensures InitializeOn(plans, s, at).1 == Done <==>
            plans(at).versionKnown && plans(at).run.succeeds && plans(at).run.decodes
  {
    PlainCall(plans, s, InitOf(at), plans(at).run);
  }

  /** No call in the program is bound to fail and no closure is rolled back. */
  ghost predicate AllSucceed(plans: Plans, s: Snapshot, p: Program)
    decreases p
  {
    match p
    case Nothing => true
    case Then(first, rest) =>
      && (match first
          case Api(at, initBlock, run) => WillSucceed(plans, s, at, initBlock, run)
          case Initialize(at) => plans(at).versionKnown && plans(at).run.succeeds
          case InTransaction(body, commit) => commit && AllSucceed(plans, s, body))
      && AllSucceed(plans, ActOn(plans, s, first), rest)
  }

  lemma ActionFaithful(plans: Plans, s: Snapshot, at: BlockId, initBlock: bool, run: Execution)
    requires Faithful(plans, s)
    ensures WillSucceed(plans, s, at, initBlock, run) ==>
              Faithful(plans, CallOn(plans, s, CallAt(at), initBlock, run).0)
    ensures plans(at).versionKnown && plans(at).run.succeeds ==> Faithful(plans, InitializeOn(plans, s, at).0)
  {
    CallFaithfulExactly(plans, s, at, run);
    SucceedsExactly(plans, s, at, initBlock, run);
    var init := Batch(InitOf(at), plans(at).run.writes);
    HasInitGrows(plans, s.log, [init], at);
    assert [init][0] == InitBatch(plans, at);
    var r := InitializeOn(plans, s, at);
    PlainCall(plans, s, InitOf(at), plans(at).run);
    if r.1 != ApiError {
      assert r.0 == Snapshot(s.log + [init], Some(at), s.inits + [at]);
    }
    if s.initialized.Some? {
      HasInitGrows(plans, s.log, [Batch(CallAt(at), run.writes)], s.initialized.value);
    }
  }

  /** Through any tree of successful calls and committed closures a recorded block keeps
      its initialization among the pending changes. */
  lemma {:induction false} SuccessKeepsFaithful(plans: Plans, s: Snapshot, p: Program)
    requires Faithful(plans, s) && AllSucceed(plans, s, p)
    ensures Faithful(plans, RunOn(plans, s, p))
    decreases p
  {
    match p {
      case Nothing =>
      case Then(first, rest) =>
        match first {
          case Api(at, initBlock, run) => ActionFaithful(plans, s, at, initBlock, run);
          case Initialize(at) => ActionFaithful(plans, s, at, true, plans(at).run);
          case InTransaction(body, commit) => SuccessKeepsFaithful(plans, s, body);
        }
        SuccessKeepsFaithful(plans, ActOn(plans, s, first), rest);
    }
  }

  // ---- exactly when any tree of calls leaves a faithful record ----

  /** The block a call, initialization or closure leaves recorded. */
  function RecordedBy(plans: Plans, last: Option<BlockId>, a: Action): Option<BlockId>
    decreases a
  {
    match a
    case Api(at, initBlock, _) =>
      if initBlock && last != Some(at) && plans(at).parentKnown && plans(at).versionKnown then Some(at) else last
    case Initialize(at) => if plans(at).versionKnown then Some(at) else last
    case InTransaction(body, _) => Recorded(plans, last, body)
  }

  /** The block a program leaves recorded: no rollback ever takes a record back. */
  function Recorded(plans: Plans, last: Option<BlockId>, p: Program): Option<BlockId>
    decreases p
  {
    match p
    case Nothing => last
    case Then(first, rest) => Recorded(plans, RecordedBy(plans, last, first), rest)
  }

  /** The blocks whose initialization a call, initialization or closure leaves among the pending
      changes. */
  function KeptBy(plans: Plans, last: Option<BlockId>, a: Action): set<BlockId>
    decreases a
  {
    match a
    case Api(at, initBlock, run) =>
      if initBlock && last != Some(at) && plans(at).parentKnown && plans(at).versionKnown
         && plans(at).run.succeeds && plans(at).run.decodes && run.succeeds
      then {at} else {}
    case Initialize(at) => if plans(at).versionKnown && plans(at).run.succeeds then {at} else {}
    case InTransaction(body, commit) => if commit then Kept(plans, last, body) else {}
  }

  /** The blocks whose initialization a program leaves among the pending changes. */
  function Kept(plans: Plans, last: Option<BlockId>, p: Program): set<BlockId>
    decreases p
  {
    match p
    case Nothing => {}
    case Then(first, rest) => KeptBy(plans, last, first) + Kept(plans, RecordedBy(plans, last, first), rest)
  }

  /** From one snapshot to another the record becomes `recorded`, and the initializations of exactly
      the blocks `kept` are added to the pending changes. */
  ghost predicate Leads(plans: Plans, s: Snapshot, t: Snapshot, recorded: Option<BlockId>, kept: set<BlockId>) {
    && t.initialized == recorded
    && forall b: BlockId :: HasInit(plans, t.log, b) <==> HasInit(plans, s.log, b) || b in kept
  }

  lemma BatchHasInit(plans: Plans, batch: Batch, b: BlockId)
    ensures HasInit(plans, [batch], b) <==> batch == InitBatch(plans, b)
  {
    if batch == InitBatch(plans, b) {
      assert [batch][0] == InitBatch(plans, b);
    }
  }

  lemma InitializeLeads(plans: Plans, s: Snapshot, at: BlockId)
    ensures Leads(plans, s, InitializeOn(plans, s, at).0,
                  RecordedBy(plans, s.initialized, Initialize(at)), KeptBy(plans, s.initialized, Initialize(at)))
  {
    var batch := Batch(InitOf(at), plans(at).run.writes);
    PlainCall(plans, s, InitOf(at), plans(at).run);
    forall b: BlockId
      ensures HasInit(plans, s.log + [batch], b) <==> HasInit(plans, s.log, b) || b == at
    {
      BatchHasInit(plans, batch, b);
      HasInitGrows(plans, s.log, [batch], b);
    }
  }

  lemma CallLeads(plans: Plans, s: Snapshot, at: BlockId, initBlock: bool, run: Execution)
    ensures var a := Api(at, initBlock, run);
            Leads(plans, s, CallOn(plans, s, CallAt(at), initBlock, run).0,
                  RecordedBy(plans, s.initialized, a), KeptBy(plans, s.initialized, a))
  {
    var needsInit := initBlock && s.initialized != Some(at) && plans(at).parentKnown;
    var ready := if needsInit then InitializeOn(plans, s, at).0 else s;
    var batch := Batch(CallAt(at), run.writes);
    InitializeLeads(plans, s, at);
    PlainCall(plans, s, InitOf(at), plans(at).run);
    forall b: BlockId
      ensures HasInit(plans, ready.log + [batch], b) <==> HasInit(plans, ready.log, b)
    {
      BatchHasInit(plans, batch, b);
      HasInitGrows(plans, ready.log, [batch], b);
    }
  }

  lemma {:induction false} ActLeads(plans: Plans, s: Snapshot, a: Action)
    ensures Leads(plans, s, ActOn(plans, s, a), RecordedBy(plans, s.initialized, a), KeptBy(plans, s.initialized, a))
    decreases a
  {
    match a {
      case Api(at, initBlock, run) => CallLeads(plans, s, at, initBlock, run);
      case Initialize(at) => InitializeLeads(plans, s, at);
      case InTransaction(body, _) => RunLeads(plans, s, body);
    }
  }

  /** What any tree of calls, initializations and closures does to the record and to the initializations
      that are pending, whatever fails and whatever is rolled back. */
  lemma {:induction false} RunLeads(plans: Plans, s: Snapshot, p: Program)
    ensures Leads(plans, s, RunOn(plans, s, p), Recorded(plans, s.initialized, p), Kept(plans, s.initialized, p))
    decreases p
  {
    match p {
      case Nothing =>
      case Then(first, rest) =>
        ActLeads(plans, s, first);
        RunLeads(plans, ActOn(plans, s, first), rest);
    }
  }

  /** The changes a call, initialization or closure leaves: none if it fails or is rolled back,
      otherwise those of the initializations it ran and then its own, each with all it wrote. */
  function PendingBy(plans: Plans, last: Option<BlockId>, a: Action): seq<Batch>
    decreases a
  {
    match a
    case Api(at, initBlock, run) =>
      if !initBlock || last == Some(at) then if run.succeeds then [Batch(CallAt(at), run.writes)] else []
      else if plans(at).parentKnown && plans(at).versionKnown
              && plans(at).run.succeeds && plans(at).run.decodes && run.succeeds
      then [Batch(InitOf(at), plans(at).run.writes), Batch(CallAt(at), run.writes)]
      else []
    case Initialize(at) =>
      if plans(at).versionKnown && plans(at).run.succeeds then [Batch(InitOf(at), plans(at).run.writes)] else []
    case InTransaction(body, commit) => if commit then Pending(plans, last, body) else []
  }

  /** The changes a program leaves. */
  function Pending(plans: Plans, last: Option<BlockId>, p: Program): seq<Batch>
    decreases p
  {
    match p
    case Nothing => []
    case Then(first, rest) => PendingBy(plans, last, first) + Pending(plans, RecordedBy(plans, last, first), rest)
  }

  lemma CallPends(plans: Plans, s: Snapshot, at: BlockId, initBlock: bool, run: Execution)
    ensures CallOn(plans, s, CallAt(at), initBlock, run).0.log ==
            s.log + PendingBy(plans, s.initialized, Api(at, initBlock, run))
  {
    PlainCall(plans, s, InitOf(at), plans(at).run);
  }

  lemma {:induction false} ActPends(plans: Plans, s: Snapshot, a: Action)
    ensures ActOn(plans, s, a).log == s.log + PendingBy(plans, s.initialized, a)
    decreases a
  {
    match a {
      case Api(at, initBlock, run) => CallPends(plans, s, at, initBlock, run);
      case Initialize(at) => PlainCall(plans, s, InitOf(at), plans(at).run);
      case InTransaction(body, _) => RunPends(plans, s, body);
    }
  }

  /** What any tree of calls, initializations and closures leaves in the overlay: exactly these changes,
      in order, after those that were pending. */
  lemma {:induction false} RunPends(plans: Plans, s: Snapshot, p: Program)
    ensures RunOn(plans, s, p).log == s.log + Pending(plans, s.initialized, p)
    decreases p
  {
    match p {
      case Nothing =>
      case Then(first, rest) =>
        ActPends(plans, s, first);
        ActLeads(plans, s, first);
        RunPends(plans, ActOn(plans, s, first), rest);
    }
  }

  /** Nothing ever rewrites changes made before: a program only appends to the log. */
  lemma LogOnlyGrows(plans: Plans, s: Snapshot, p: Program)
    ensures s.log <= RunOn(plans, s, p).log
  {
    RunPends(plans, s, p);
  }

  /** Exactly when a tree of calls leaves a faithful record, from any snapshot: the block it leaves
      recorded was initialized among the changes pending before, or by a call in it that kept its
      changes, with every closure around it. */
  lemma FaithfulExactly(plans: Plans, s: Snapshot, p: Program)
    ensures var recorded := Recorded(plans, s.initialized, p);
            Faithful(plans, RunOn(plans, s, p)) <==>
            (recorded.Some? ==>
               HasInit(plans, s.log, recorded.value) || recorded.value in Kept(plans, s.initialized, p))
  {
    RunLeads(plans, s, p);
  }

  /** A call that initializes its block, in a closure that is rolled back. */
  function RolledBack(at: BlockId, run: Execution): Program {
    Then(InTransaction(Then(Api(at, true, run), Nothing), false), Nothing)
  }

  /** Nothing has to fail for the record to go stale: a closure that asks for rollback takes back the
      initialization a successful call ran in it, but not the record; and the next call at that block
      runs without initialization. */
  lemma RollbackLeavesRecord(plans: Plans, s: Snapshot, at: BlockId, run: Execution, next: Execution)
    requires Faithful(plans, s) && AttemptsInit(plans, s, at) && !HasInit(plans, s.log, at)
    requires plans(at).run.succeeds && plans(at).run.decodes && run.succeeds && next.succeeds
    ensures var t := RunOn(plans, s, RolledBack(at, run));
            && CallOn(plans, s, CallAt(at), true, run).1 != ApiError
            && t.log == s.log && t.initialized == Some(at) && !Faithful(plans, t)
            && CallOn(plans, t, CallAt(at), true, next).0.inits == t.inits
            && CallOn(plans, t, CallAt(at), true, next).0.log == s.log + [Batch(CallAt(at), next.writes)]
  {
    var body := Then(Api(at, true, run), Nothing);
    assert RunOn(plans, s, body) == CallOn(plans, s, CallAt(at), true, run).0;
    assert RunOn(plans, s, RolledBack(at, run)) == RunOn(plans, s, body).(log := s.log);
  }

  /** A sequence of calls that initialize on demand, at the given blocks. */
  function Calls(ats: seq<BlockId>, runs: seq<Execution>): Program
    requires |ats| == |runs|
    decreases |ats|
  {
    if ats == [] then Nothing else Then(Api(ats[0], true, runs[0]), Calls(ats[1..], runs[1..]))
  }

  /** The blocks of a sequence at which the block id changes. */
  function Changes(last: Option<BlockId>, ats: seq<BlockId>): seq<BlockId>
    decreases |ats|
  {
    if ats == [] then []
    else (if last == Some(ats[0]) then [] else [ats[0]]) + Changes(Some(ats[0]), ats[1..])
  }

  /** Initialization runs exactly once per change of block id, as long as block and version are
      known, even where the calls or the initializations themselves fail. */
  lemma {:induction false} OneInitPerChange(plans: Plans, s: Snapshot, ats: seq<BlockId>, runs: seq<Execution>)
    requires |ats| == |runs|
    requires forall i :: 0 <= i < |ats| ==> plans(ats[i]).parentKnown && plans(ats[i]).versionKnown
    ensures RunOn(plans, s, Calls(ats, runs)).inits == s.inits + Changes(s.initialized, ats)
    decreases |ats|
  {
    if ats != [] {
      var next := ActOn(plans, s, Api(ats[0], true, runs[0]));
      assert next.initialized == Some(ats[0]);
      OneInitPerChange(plans, next, ats[1..], runs[1..]);
    }
  }
}
