/** Rebuilding the chain's top-level state from the archived rows alone. */
module Replay {
  import opened Results
  import opened ArchivePipeline
  import opened ArchiveLoop
  import opened ArchiveSafety
  import opened ArchiveScenarios

  type TopState = map<Key, Value>

  function ChangeKey(state: TopState, key: Key, value: Option<Value>): TopState {
    if value.Some? then state[key := value.value] else state - {key}
  }

  /** The backend applies a delta change by change. */
  function ApplyDelta(state: TopState, changes: seq<(Key, Option<Value>)>): TopState {
    if changes == [] then state
    else
      var n := |changes| - 1;
      ChangeKey(ApplyDelta(state, changes[..n]), changes[n].0, changes[n].1)
  }

  /** After a delta a key it changes has the value of its last change, or none if that deletes it ... */
  lemma {:induction false} ChangedKey(state: TopState, changes: seq<(Key, Option<Value>)>, i: nat)
    requires i < |changes| && forall j :: i < j < |changes| ==> changes[j].0 != changes[i].0
    ensures var key, value := changes[i].0, changes[i].1;
            && (key in ApplyDelta(state, changes) <==> value.Some?)
            && (value.Some? ==> ApplyDelta(state, changes)[key] == value.value)
  {
    if i < |changes| - 1 {
      ChangedKey(state, changes[..|changes| - 1], i);
    }
  }

  /** ... and any other key is as before. */
  lemma {:induction false} UntouchedKey(state: TopState, changes: seq<(Key, Option<Value>)>, key: Key)
    requires forall j :: 0 <= j < |changes| ==> changes[j].0 != key
    ensures key in ApplyDelta(state, changes) <==> key in state
    ensures key in state ==> ApplyDelta(state, changes)[key] == state[key]
  {
    if changes != [] {
      UntouchedKey(state, changes[..|changes| - 1], key);
    }
  }

  /** The backend's top-level state after a block. */
  function StateAfter(w: World, n: nat): TopState {
    if n == 0 then w.genesisTop else ApplyDelta(StateAfter(w, n - 1), w.block(n).changes)
  }

  /** A row sets the values it maps to one and deletes the keys it maps to null. */
  function ApplyRow(state: TopState, mainChanges: map<Key, Option<Value>>): TopState {
    map k | k in state.Keys + mainChanges.Keys && (k in mainChanges ==> mainChanges[k].Some?) ::
      if k in mainChanges then mainChanges[k].value else state[k]
  }

  /** Folding rows 0..n over nothing. */
  function Replayed(blocks: map<nat, Row>, n: nat): TopState
    requires forall k :: 0 <= k <= n ==> k in blocks
  {
    ApplyRow(if n == 0 then map[] else Replayed(blocks, n - 1), blocks[n].mainChanges)
  }

  /** Collecting a delta into a map loses nothing: the map acts on any state as the delta does. */
  lemma {:induction false} CollectActsAsDelta(state: TopState, changes: seq<(Key, Option<Value>)>)
    ensures ApplyRow(state, Collect(changes)) == ApplyDelta(state, changes)
  {
    if changes != [] {
      CollectActsAsDelta(state, changes[..|changes| - 1]);
    }
  }

  lemma EmptyActsAsNothing(state: TopState)
    ensures ApplyRow(state, map[]) == state
  {
  }

  /** Every row, stored or queued, holds exactly its block's changes. */
  ghost predicate Exact(w: World, s: State) {
    && (forall n :: n in s.db.blocks ==> s.db.blocks[n] == RowOf(w, n, true))
    && (forall i :: 0 <= i < |s.archQ| ==> s.archQ[i].row == RowOf(w, s.archQ[i].number, true))
  }

  lemma StoredRow(d: Store, m: Message, f: Faults, n: nat)
    ensures var e := StoreMessage(d, m, f).0;
            n in e.blocks ==> (n in d.blocks && e.blocks[n] == d.blocks[n]) || (n == m.number && e.blocks[n] == m.row)
  {
  }

  lemma ArchiveRows(s: State, f: Faults)
    ensures var t := ArchiveStep(s, f);
            && (forall n :: n in t.db.blocks ==>
                              || (n in s.db.blocks && t.db.blocks[n] == s.db.blocks[n])
                              || (s.archQ != [] && n == s.archQ[0].number && t.db.blocks[n] == s.archQ[0].row))
            && (t.archQ == s.archQ || t.archQ == [] || (s.archQ != [] && t.archQ == s.archQ[1..]))
  {
    if s.archQ != [] {
      var t := ArchiveStep(s, f);
      forall n | n in t.db.blocks
        ensures || (n in s.db.blocks && t.db.blocks[n] == s.db.blocks[n])
                || (n == s.archQ[0].number && t.db.blocks[n] == s.archQ[0].row)
      {
        StoredRow(s.db, s.archQ[0], f, n);
      }
    }
  }

  lemma StepExact(w: World, s: State, e: Event)
    requires Exact(w, s) && (e.Execute? ==> e.attempt.succeeds)
    ensures Exact(w, Step(w, s, e))
  {
    if e.Archive? || e.ArchiveThenCrash? {
      ArchiveRows(s, e.faults);
    }
  }

  lemma {:induction false} RunExact(w: World, s: State, events: seq<Event>)
    requires Exact(w, s)
    requires forall i :: 0 <= i < |events| && events[i].Execute? ==> events[i].attempt.succeeds
    ensures Exact(w, Run(w, s, events))
  {
    if events != [] {
      RunExact(w, s, events[..|events| - 1]);
      StepExact(w, Run(w, s, events[..|events| - 1]), events[|events| - 1]);
    }
  }

  /** The row leaves the state its block leaves. */
  ghost predicate Acts(w: World, blocks: map<nat, Row>, n: nat)
    requires n in blocks
  {
    ApplyRow(if n == 0 then map[] else StateAfter(w, n - 1), blocks[n].mainChanges) == StateAfter(w, n)
  }

  lemma {:induction false} ActingRowsReplay(w: World, blocks: map<nat, Row>, n: nat)
    requires forall k :: 0 <= k <= n ==> k in blocks && Acts(w, blocks, k)
    ensures Replayed(blocks, n) == StateAfter(w, n)
  {
    assert Acts(w, blocks, n);
    if n > 0 {
      ActingRowsReplay(w, blocks, n - 1);
    }
  }

  lemma RightReplayActs(w: World, blocks: map<nat, Row>, n: nat)
    requires forall k :: 0 <= k <= n ==> k in blocks
    requires Replayed(blocks, n) == StateAfter(w, n)
    requires n > 0 ==> Replayed(blocks, n - 1) == StateAfter(w, n - 1)
    ensures Acts(w, blocks, n)
  {
  }

  lemma ExactActs(w: World, blocks: map<nat, Row>, n: nat)
    requires n in blocks && blocks[n] == RowOf(w, n, true)
    ensures Acts(w, blocks, n)
  {
    if n > 0 {
      CollectActsAsDelta(StateAfter(w, n - 1), w.block(n).changes);
    }
  }

  /** Replay: in every state any run reaches, whatever was re-archived, failed or crashed, folding rows
      0..n gives the backend's state after block n, if the executions succeeded and the rows are
      there. */
  lemma ReplayGivesState(w: World, s: State, events: seq<Event>, n: nat)
    requires Exact(w, s)
    requires forall i :: 0 <= i < |events| && events[i].Execute? ==> events[i].attempt.succeeds
    requires forall k :: 0 <= k <= n ==> k in Run(w, s, events).db.blocks
    ensures Replayed(Run(w, s, events).db.blocks, n) == StateAfter(w, n)
  {
    var blocks := Run(w, s, events).db.blocks;
    RunExact(w, s, events);
    forall k | 0 <= k <= n
      ensures Acts(w, blocks, k)
    {
      ExactActs(w, blocks, k);
    }
    ActingRowsReplay(w, blocks, n);
  }

  /** Rows 0..n replay to the backend's state at each of them. */
  ghost predicate ReplaysTo(w: World, blocks: map<nat, Row>, n: nat)
    requires forall k :: 0 <= k <= n ==> k in blocks
  {
    forall k :: 0 <= k <= n ==> Replayed(blocks, k) == StateAfter(w, k)
  }

  /** The block leaves the state as it was. */
  ghost predicate Idle(w: World, k: nat) {
    k > 0 && StateAfter(w, k) == StateAfter(w, k - 1)
  }

  /** The row of block `k` holds its changes, or there were none to speak of. */
  ghost predicate Harmless(w: World, blocks: map<nat, Row>, k: nat)
    requires k in blocks
  {
    blocks[k] == RowOf(w, k, true) || Idle(w, k)
  }

  lemma HarmlessActs(w: World, blocks: map<nat, Row>, k: nat)
    requires k in blocks && (blocks[k] == RowOf(w, k, true) || blocks[k] == RowOf(w, k, false))
    ensures Acts(w, blocks, k) <==> Harmless(w, blocks, k)
  {
    if blocks[k] == RowOf(w, k, true) {
      ExactActs(w, blocks, k);
    } else {
      EmptyActsAsNothing(StateAfter(w, k - 1));
    }
  }

  /** Rows that hold their block's changes or nothing replay rightly exactly if each that does not hold
      its changes belongs to a block that leaves the state as it was. */
  lemma RowsReplayExactly(w: World, blocks: map<nat, Row>, n: nat)
    requires forall k :: 0 <= k <= n ==>
                           k in blocks && (blocks[k] == RowOf(w, k, true) || blocks[k] == RowOf(w, k, false))
    ensures ReplaysTo(w, blocks, n) <==> forall k :: 0 <= k <= n ==> Harmless(w, blocks, k)
  {
    if ReplaysTo(w, blocks, n) {
      forall k | 0 <= k <= n
        ensures Harmless(w, blocks, k)
      {
        RightReplayActs(w, blocks, k);
        HarmlessActs(w, blocks, k);
      }
    }
    if forall k :: 0 <= k <= n ==> Harmless(w, blocks, k) {
      forall k | 0 <= k <= n
        ensures Acts(w, blocks, k)
      {
        HarmlessActs(w, blocks, k);
      }
      forall k | 0 <= k <= n
        ensures Replayed(blocks, k) == StateAfter(w, k)
      {
        ActingRowsReplay(w, blocks, k);
      }
    }
  }

  /** Which executions the messages in the queue and the rows in the table stem from: whether the one
      behind each of them succeeded. */
  datatype Origins = Origins(queued: seq<bool>, rows: map<nat, bool>)

  function OriginsStored(s: State, f: Faults, o: Origins): Origins
    requires |o.queued| == |s.archQ|
  {
    if s.archiverHalted || s.archQ == [] then o
    else if Halts(s, f) then o.(queued := [])
    else Origins(o.queued[1..], if Stores(s, f) then o.rows[s.archQ[0].number := o.queued[0]] else o.rows)
  }

  function OriginsNext(s: State, e: Event, o: Origins): Origins
    requires |o.queued| == |s.archQ|
  {
    match e
    case Execute(a) => if Sends(s, e) then o.(queued := o.queued + [a.succeeds]) else o
    case Archive(f) => OriginsStored(s, f, o)
    case Crash => o.(queued := [])
    case ArchiveThenCrash(f) => OriginsStored(s, f, o).(queued := [])
    case _ => o
  }

  ghost predicate Stems(w: World, s: State, o: Origins) {
    && |o.queued| == |s.archQ|
    && o.rows.Keys == s.db.blocks.Keys
    && (forall i :: 0 <= i < |s.archQ| ==> s.archQ[i].row == RowOf(w, s.archQ[i].number, o.queued[i]))
    && (forall n :: n in s.db.blocks ==> s.db.blocks[n] == RowOf(w, n, o.rows[n]))
  }

  lemma StemsStored(w: World, s: State, f: Faults, o: Origins)
    requires Stems(w, s, o)
    ensures Stems(w, ArchiveStep(s, f), OriginsStored(s, f, o))
  {
    if !s.archiverHalted && s.archQ != [] {
      StoresExactly(s, f);
      TableAfter(s, f);
    }
  }

  lemma StemsNext(w: World, s: State, e: Event, o: Origins)
    requires Stems(w, s, o)
    ensures Stems(w, Step(w, s, e), OriginsNext(s, e, o))
  {
    match e
    case Archive(f) => StemsStored(w, s, f, o);
    case ArchiveThenCrash(f) => StemsStored(w, s, f, o);
    case _ =>
  }

  /** For each block in the table, whether the execution behind its last effective archiving in the run
      succeeded; the rows there at first stem from `o`. */
  ghost function OriginsAfter(w: World, s: State, o: Origins, events: seq<Event>): (r: Origins)
    requires Stems(w, s, o)
    ensures Stems(w, Run(w, s, events), r)
  {
    if events == [] then o
    else
      var n := |events| - 1;
      StemsNext(w, Run(w, s, events[..n]), events[n], OriginsAfter(w, s, o, events[..n]));
      OriginsNext(Run(w, s, events[..n]), events[n], OriginsAfter(w, s, o, events[..n]))
  }

  lemma HarmlessFrom(w: World, blocks: map<nat, Row>, k: nat, succeeded: bool)
    requires k in blocks && blocks[k] == RowOf(w, k, succeeded)
    ensures Harmless(w, blocks, k) <==> k == 0 || succeeded || Idle(w, k)
  {
    if k > 0 && !succeeded && blocks[k] == RowOf(w, k, true) {
      CollectActsAsDelta(StateAfter(w, k - 1), w.block(k).changes);
      EmptyActsAsNothing(StateAfter(w, k - 1));
    }
  }

  /** Genesis, a block whose row stems from an execution that succeeded, or one that leaves the state
      as it was. */
  ghost predicate Sound(w: World, rows: map<nat, bool>, k: nat) {
    k == 0 || (k in rows && (rows[k] || Idle(w, k)))
  }

  ghost predicate AllSound(w: World, rows: map<nat, bool>, n: nat) {
    forall k :: 0 <= k <= n ==> Sound(w, rows, k)
  }

  ghost predicate Holds(blocks: map<nat, Row>, n: nat) {
    forall k :: 0 <= k <= n ==> k in blocks
  }

  lemma StemmingRowsReplay(w: World, blocks: map<nat, Row>, rows: map<nat, bool>, n: nat)
    requires Holds(blocks, n) && blocks.Keys == rows.Keys
    requires forall k :: k in blocks ==> blocks[k] == RowOf(w, k, rows[k])
    ensures ReplaysTo(w, blocks, n) <==> AllSound(w, rows, n)
  {
    forall k | 0 <= k <= n
      ensures blocks[k] == RowOf(w, k, true) || blocks[k] == RowOf(w, k, false)
      ensures Harmless(w, blocks, k) <==> Sound(w, rows, k)
    {
      assert blocks[k] == RowOf(w, k, rows[k]);
      HarmlessFrom(w, blocks, k, rows[k]);
    }
    RowsReplayExactly(w, blocks, n);
  }

  /** With executions that may fail, exactly when replay is right up to block n, after any run: every
      block but genesis whose last effective archiving came from a failed execution leaves the state as
      it was. */
  lemma ReplayExactly(w: World, s: State, o: Origins, events: seq<Event>, n: nat)
    requires Stems(w, s, o)
    requires Holds(Run(w, s, events).db.blocks, n)
    ensures ReplaysTo(w, Run(w, s, events).db.blocks, n) <==> AllSound(w, OriginsAfter(w, s, o, events).rows, n)
  {
    var blocks, rows := Run(w, s, events).db.blocks, OriginsAfter(w, s, o, events).rows;
    StemmingRowsReplay(w, blocks, rows, n);
  }

  /** A block that changes the state is archived after its execution failed: replay is wrong from it
      on. */
  lemma FailedExecutionBreaksReplay(w: World, s: State)
    requires s.started && !s.executorHalted && s.execQ == [1] && s.compQ == [] && s.archQ == [] && !s.archiverHalted
    requires s.db.blocks == map[0 := RowOf(w, 0, true)] && !Idle(w, 1)
    ensures var blocks := Run(w, s, [Execute(Attempt(true, false, true))] + [Archive(NoFault)]).db.blocks;
            Holds(blocks, 1) && ReplaysTo(w, blocks, 0) && !ReplaysTo(w, blocks, 1)
  {
    var execute, m := Execute(Attempt(true, false, true)), Message(1, RowOf(w, 1, false));
    assert [] + [execute] == [execute];
    RunNext(w, s, [], execute);
    RunNext(w, s, [execute], Archive(NoFault));
    var t := Step(w, s, execute);
    assert t == s.(execQ := [], compQ := [1], archQ := [m]);
    StoresExactly(t, NoFault);
    var blocks := s.db.blocks[1 := m.row];
    ExactActs(w, blocks, 0);
    HarmlessFrom(w, blocks, 0, true);
    HarmlessFrom(w, blocks, 1, false);
    RowsReplayExactly(w, blocks, 0);
    RowsReplayExactly(w, blocks, 1);
    assert !Harmless(w, blocks, 1);
  }
}
