/** Runs in which every block is checked before it is imported, and reverts may blacklist blocks. */
module CheckedRuns {
  import opened Results
  import opened BlockTree
  import opened ImportEngine
  import opened Client
  import ChainRuns
  import Rules = BlockRules

  datatype State = State(chain: Chain, rules: Rules.Rules)

  /** An offered block is checked under its post-header hash; `withState` are the blocks whose state
      is kept. A revert leaves the backend with `after`. */
  datatype Event =
    | Offer(p: ImportParams, parentHasState: bool, execution: Execution, withState: set<Hash>)
    | Finalize(block: Hash, notify: bool)
    | Revert(after: Chain, reverted: seq<Hash>, blacklist: bool)

  function Checked(p: ImportParams): CheckParams {
    CheckParams(p.hash, p.header.number, p.header.parent, p.allowMissingState, p.importExisting)
  }

  /** A revert only takes blocks away, those it reports among them. */
  ghost predicate Possible(s: State, e: Event)
    requires s.chain.Valid()
  {
    match e
    case Offer(p, _, _, _) => Coherent(s.chain, p)
    case Finalize(_, _) => true
    case Revert(after, reverted, _) =>
      after.Valid() && after.tree.ExtendedBy(s.chain.tree) && forall h :: h in reverted ==> h !in after.tree.headers
  }

  ghost function Next(s: State, e: Event): State
    requires s.chain.Valid()
  {
    match e
    case Offer(p, parentHasState, execution, withState) =>
      if Admits(s.rules, s.chain, None, Checked(p), withState)
      then s.(chain := ImportStep(s.chain, p, parentHasState, execution).chain)
      else s
    case Finalize(block, notify) => s.(chain := FinalizeStep(s.chain, block, notify).chain)
    case Revert(after, reverted, blacklist) => State(after, Rules.AfterRevert(s.rules, reverted, blacklist))
  }

  ghost predicate WillImport(s: State, e: Event)
    requires s.chain.Valid()
  {
    && e.Offer?
    && Admits(s.rules, s.chain, None, Checked(e.p), e.withState)
    && ChainRuns.WillStore(s.chain, ChainRuns.Import(e.p, e.parentHasState, e.execution))
  }

  /** The blocks a step adds or takes away. */
  lemma NextBlocks(s: State, e: Event)
    requires s.chain.Valid() && Possible(s, e)
    ensures var t := Next(s, e);
            && t.chain.Valid()
            && (WillImport(s, e) ==> t.chain.tree.headers == s.chain.tree.headers[e.p.hash := e.p.header])
            && (!WillImport(s, e) && !e.Revert? ==> t.chain.tree == s.chain.tree)
  {
    match e
    case Offer(p, parentHasState, execution, withState) =>
      var i := ChainRuns.Import(p, parentHasState, execution);
      ChainRuns.StoresExactly(s.chain, i);
      ChainRuns.StepHeads(s.chain, i);
      ChainRuns.StoresOrNothing(s.chain, i);
    case Finalize(block, notify) =>
      FinalityCommits(s.chain, block, notify);
    case Revert(_, _, _) =>
  }

  ghost function Reach(s: State, events: seq<Event>): (r: Option<State>)
    requires s.chain.Valid()
    ensures r.Some? ==> r.value.chain.Valid()
  {
    if events == [] then Some(s)
    else
      var n := |events| - 1;
      var before := Reach(s, events[..n]);
      if before.None? || !Possible(before.value, events[n]) then None
      else
        NextBlocks(before.value, events[n]);
        Some(Next(before.value, events[n]))
  }

  ghost predicate Blacklists(e: Event, hash: Hash) {
    e.Revert? && e.blacklist && hash in e.reverted
  }

  /** Fork hashes never change; a block is bad exactly if it was so at first or some revert
      blacklisted it. */
  lemma {:induction false} BlacklistedBy(s: State, events: seq<Event>, hash: Hash)
    requires s.chain.Valid() && Reach(s, events).Some?
    ensures Reach(s, events).value.rules.forks == s.rules.forks
    ensures hash in Reach(s, events).value.rules.bad <==>
            hash in s.rules.bad || exists j :: 0 <= j < |events| && Blacklists(events[j], hash)
  {
    if events != [] {
      var n := |events| - 1;
      BlacklistedBy(s, events[..n], hash);
      if j :| 0 <= j < n && Blacklists(events[..n][j], hash) {
        assert Blacklists(events[j], hash);
      }
      if j :| 0 <= j < |events| && Blacklists(events[j], hash) {
        assert j < n ==> Blacklists(events[..n][j], hash);
      }
    }
  }

  /** Exactly when a new block offered after a run is imported: its height has no configured hash or
      it is the one, it was not bad at first, no revert blacklisted it, its parent is there with its
      state or may lack it, and the import stores it. */
  lemma ImportedExactly(s: State, events: seq<Event>, e: Event)
    requires s.chain.Valid() && Reach(s, events).Some? && e.Offer? && Possible(Reach(s, events).value, e)
    requires e.p.hash !in Reach(s, events).value.chain.tree.headers
    ensures var before, p := Reach(s, events).value, e.p;
            p.hash in Next(before, e).chain.tree.headers <==>
            && (p.header.number in s.rules.forks ==> s.rules.forks[p.header.number] == p.hash)
            && p.hash !in s.rules.bad
            && (forall j :: 0 <= j < |events| ==> !Blacklists(events[j], p.hash))
            && (p.header.parent in e.withState || p.allowMissingState)
            && ChainRuns.WillStore(before.chain, ChainRuns.Import(p, e.parentHasState, e.execution))
  {
    BlacklistedBy(s, events, e.p.hash);
    NextBlocks(Reach(s, events).value, e);
  }

  /** Every block that was not there at first has the configured hash if its height has one, and is
      not bad. */
  ghost predicate Lawful(start: Chain, s: State) {
    forall h :: h in s.chain.tree.headers && h !in start.tree.headers ==>
                  s.rules.Lookup(s.chain.tree.headers[h].number, h).NotSpecial?
  }

  /** Over every run each imported block obeys the rules, those added by later reverts included; so a
      block that is bad and not in the chain never comes back. */
  lemma {:induction false} ImportsObeyRules(s: State, events: seq<Event>)
    requires s.chain.Valid() && Reach(s, events).Some?
    ensures Lawful(s.chain, Reach(s, events).value)
    ensures forall h :: h in s.rules.bad && h !in s.chain.tree.headers ==>
                          h !in Reach(s, events).value.chain.tree.headers
  {
    if events != [] {
      var n := |events| - 1;
      ImportsObeyRules(s, events[..n]);
      NextBlocks(Reach(s, events[..n]).value, events[n]);
    }
    forall h | h in s.rules.bad {
      BlacklistedBy(s, events, h);
    }
  }

  /** From the configured lists on, over every run: an imported block at the height of a fork entry has
      the hash of the last entry for that height, and no imported block is a configured bad one. */
  lemma ImportsObeyConfiguration(s: State, events: seq<Event>, forkBlocks: Option<seq<(nat, Hash)>>,
                                 badBlocks: Option<set<Hash>>, h: Hash, i: int)
    requires s.chain.Valid() && Reach(s, events).Some? && Rules.Configured(s.rules, forkBlocks, badBlocks)
    requires h in Reach(s, events).value.chain.tree.headers && h !in s.chain.tree.headers
    ensures forkBlocks.Some? && Rules.LastAt(forkBlocks.value, i) ==>
              var (number, hash) := forkBlocks.value[i];
              Reach(s, events).value.chain.tree.headers[h].number == number ==> h == hash
    ensures badBlocks.Some? ==> h !in badBlocks.value
  {
    ImportsObeyRules(s, events);
    BlacklistedBy(s, events, h);
  }
}
