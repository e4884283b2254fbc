/** What subscribers find in their channels over a run of imports and finalizations. */
module SubscriberRuns {
  import opened Results
  import opened BlockTree
  import opened Notifies
  import opened ImportEngine
  import opened ChainRuns
  import Client

  /** The operation is committed, even if it changes and announces nothing. */
  ghost predicate Commits(c: Chain, e: Event)
    requires c.Valid()
  {
    match e
    case Import(p, parentHasState, execution) =>
      var prepared := Prepared(c, p, parentHasState, execution);
      prepared.Ok? && prepared.value.0.None? && ImportStep(c, p, parentHasState, execution).result.Ok?
    case Finalize(block, notify) => FinalizeStep(c, block, notify).result.Ok?
  }

  lemma SilentUnlessCommitted(c: Chain, e: Event)
    requires c.Valid() && Possible(c, e) && !Commits(c, e)
    ensures Announces(c, e) == Announcement([], None)
  {
  }

  lemma AnnouncedKnown(c: Chain, e: Event)
    requires c.Valid() && Possible(c, e)
    ensures forall h :: h in Announces(c, e).finalized ==> h in Next(c, e).tree.headers
  {
    if Announces(c, e).finalized != [] {
      AnnouncedChain(c, e);
    }
  }

  /** The subscribers after one operation. */
  ghost function TellNext(c: Chain, subscribers: Subscribers, e: Event): Subscribers
    requires c.Valid() && Possible(c, e)
  {
    AnnouncedKnown(c, e);
    if Commits(c, e) then
      subscribers.Told(Next(c, e).tree.headers, Announces(c, e).finalized, Announces(c, e).imported)
    else subscribers
  }

  /** That is what importing a block does to the client's subscribers ... */
  lemma ImportTells(c: Chain, e: Event, before: Subscribers, after: Subscribers)
    requires c.Valid() && Possible(c, e) && e.Import?
    requires var step := ImportStep(c, e.p, e.parentHasState, e.execution);
             var prepared := Prepared(c, e.p, e.parentHasState, e.execution);
             Client.Told(before, after, prepared.Ok? && prepared.value.0.None? && step.result.Ok?, step.chain,
                         step.notifyFinalized, step.notifyImported)
    ensures after == TellNext(c, before, e)
  {
  }

  /** ... and what finalizing one does. */
  lemma FinalizeTells(c: Chain, e: Event, before: Subscribers, after: Subscribers)
    requires c.Valid() && e.Finalize?
    requires var step := FinalizeStep(c, e.block, e.notify);
             Client.Told(before, after, step.result.Ok?, step.chain, step.notifyFinalized, None)
    ensures after == TellNext(c, before, e)
  {
    FinalityCommits(c, e.block, e.notify);
  }

  ghost function TellAll(c: Chain, subscribers: Subscribers, events: seq<Event>): Subscribers
    requires c.Valid() && Reach(c, events).Some?
  {
    if events == [] then subscribers
    else
      var n := |events| - 1;
      TellNext(Reach(c, events[..n]).value, TellAll(c, subscribers, events[..n]), events[n])
  }

  // ---- import notifications ----

  /** The import messages of one operation. */
  ghost function ImportMessages(c: Chain, e: Event): seq<ImportNotification>
    requires c.Valid()
  {
    var note := Announces(c, e).imported;
    if note.None? then [] else [ImportMessage(note.value)]
  }

  /** A stored import sends at most one message, and the message says of the block what was imported. */
  lemma ImportMessagesSay(c: Chain, e: Event)
    requires c.Valid() && Possible(c, e) && WillStore(c, e)
    ensures var p, msgs := e.p, ImportMessages(c, e);
            var moves := WinsForkChoice(c, p) && p.header.parent != c.best;
            && (msgs == [] <==> !moves && p.origin in {Genesis, NetworkInitialSync, File})
            && (msgs != [] ==>
                  && |msgs| == 1
                  && msgs[0].hash == p.hash && msgs[0].header == p.header && msgs[0].origin == p.origin
                  && msgs[0].isNewBest == WinsForkChoice(c, p)
                  && msgs[0].route == if moves then Some(c.tree.Route(c.best, p.header.parent)) else None)
  {
    ImportNote(c, e);
  }

  ghost function AllImportMessages(c: Chain, events: seq<Event>): seq<ImportNotification>
    requires c.Valid() && Reach(c, events).Some?
  {
    if events == [] then []
    else
      var n := |events| - 1;
      AllImportMessages(c, events[..n]) + ImportMessages(Reach(c, events[..n]).value, events[n])
  }

  /** The sink is in the vector and its receiver stays. */
  ghost predicate Stays<M>(s: Sinks<M>, sink: Sink) {
    s.Valid() && sink in s.vector && sink.channel in s.inbox && sink.hangUp.None?
  }

  lemma StaysAfter<M>(s: Sinks<M>, sink: Sink, start: nat, msgs: seq<M>)
    requires Stays(s, sink)
    ensures Stays(s.After(start, msgs), sink)
    ensures s.After(start, msgs).inbox[sink.channel] == s.inbox[sink.channel] + msgs
  {
    var i :| 0 <= i < |s.vector| && s.vector[i] == sink;
    KeptGotAll(s, start, msgs, i);
    AfterValid(s, start, msgs);
  }

  lemma StaysChecked<M>(s: Sinks<M>, sink: Sink, time: nat)
    requires Stays(s, sink)
    ensures Stays(s.Checked(time), sink)
  {
    var i :| 0 <= i < |s.vector| && s.vector[i] == sink;
    RetainHolds(s.vector, time, i);
    RetainValid(s, time);
  }

  lemma ImportArrives(c: Chain, subscribers: Subscribers, e: Event, sink: Sink)
    requires c.Valid() && Possible(c, e) && Stays(subscribers.imports, sink)
    ensures var after := TellNext(c, subscribers, e).imports;
            && Stays(after, sink)
            && after.inbox[sink.channel] == subscribers.imports.inbox[sink.channel] + ImportMessages(c, e)
  {
    var time := subscribers.ImportTime(Announces(c, e).finalized);
    if !Commits(c, e) {
      SilentUnlessCommitted(c, e);
    } else if Announces(c, e).imported.None? {
      StaysChecked(subscribers.imports, sink, time);
    } else {
      StaysAfter(subscribers.imports, sink, time, ImportMessages(c, e));
    }
  }

  /** Over a run a channel receives every import message, in order and once. */
  lemma {:induction false} AllImportsArrive(c: Chain, subscribers: Subscribers, events: seq<Event>, sink: Sink)
    requires c.Valid() && Reach(c, events).Some? && Stays(subscribers.imports, sink)
    ensures var after := TellAll(c, subscribers, events).imports;
            && Stays(after, sink)
            && after.inbox[sink.channel] == subscribers.imports.inbox[sink.channel] + AllImportMessages(c, events)
  {
    if events != [] {
      var n := |events| - 1;
      AllImportsArrive(c, subscribers, events[..n], sink);
      ImportArrives(Reach(c, events[..n]).value, TellAll(c, subscribers, events[..n]), events[n], sink);
    }
  }

  /** A receiver's view after a list of messages. */
  ghost function FollowMessages(view: seq<Hash>, msgs: seq<ImportNotification>): Option<seq<Hash>> {
    if msgs == [] then Some(view)
    else
      var before := FollowMessages(view, msgs[..|msgs| - 1]);
      if before.None? then None else FollowMessage(before.value, msgs[|msgs| - 1])
  }

  lemma {:induction false} FollowAllFolds(c: Chain, events: seq<Event>)
    requires c.Valid() && Reach(c, events).Some?
    ensures FollowAll(c, events) == FollowMessages(c.tree.Path(c.best), AllImportMessages(c, events))
  {
    if events != [] {
      var n := |events| - 1;
      FollowAllFolds(c, events[..n]);
      var front, more := AllImportMessages(c, events[..n]), ImportMessages(Reach(c, events[..n]).value, events[n]);
      if more == [] {
        assert front + more == front;
      } else {
        assert (front + more)[..|front|] == front;
      }
    }
  }

  /** What arrived in a channel since an earlier moment. */
  ghost function Arrived<M>(before: Sinks<M>, after: Sinks<M>, channel: nat): seq<M>
    requires channel in before.inbox && channel in after.inbox
    requires |before.inbox[channel]| <= |after.inbox[channel]|
  {
    after.inbox[channel][|before.inbox[channel]|..]
  }

  lemma ImportsArrived(c: Chain, subscribers: Subscribers, events: seq<Event>, sink: Sink)
    requires c.Valid() && Reach(c, events).Some? && Stays(subscribers.imports, sink)
    ensures var after := TellAll(c, subscribers, events).imports;
            && sink.channel in after.inbox && |subscribers.imports.inbox[sink.channel]| <= |after.inbox[sink.channel]|
            && Arrived(subscribers.imports, after, sink.channel) == AllImportMessages(c, events)
  {
    AllImportsArrive(c, subscribers, events, sink);
  }

  /** After every operation, a receiver that knew the path to best at first and folds what arrived in
      its channel since holds the path to best. */
  ghost predicate ReceiverMirrors(c: Chain, subscribers: Subscribers, sink: Sink, events: seq<Event>)
    requires c.Valid() && Reach(c, events).Some? && Stays(subscribers.imports, sink)
  {
    ImportsArrived(c, subscribers, events, sink);
    var arrived := Arrived(subscribers.imports, TellAll(c, subscribers, events).imports, sink.channel);
    var d := Reach(c, events).value;
    && FollowMessages(c.tree.Path(c.best), arrived) == Some(d.tree.Path(d.best))
    && (events != [] ==> ReceiverMirrors(c, subscribers, sink, events[..|events| - 1]))
  }

  lemma {:induction false} ReceiverIsMirror(c: Chain, subscribers: Subscribers, sink: Sink, events: seq<Event>)
    requires c.Valid() && Reach(c, events).Some? && Stays(subscribers.imports, sink)
    ensures ReceiverMirrors(c, subscribers, sink, events) <==> Mirrors(c, events)
  {
    ImportsArrived(c, subscribers, events, sink);
    FollowAllFolds(c, events);
    if events != [] {
      ReceiverIsMirror(c, subscribers, sink, events[..|events| - 1]);
    }
  }

  /** That is so throughout a run exactly if every step of it is followable. */
  lemma {:induction false} ReceiverMirrorsBest(c: Chain, subscribers: Subscribers, sink: Sink, events: seq<Event>)
    requires c.Valid() && Reach(c, events).Some? && Stays(subscribers.imports, sink)
    ensures ReceiverMirrors(c, subscribers, sink, events) <==> AllFollowable(c, events)
  {
    SubscriberMirrorsBest(c, events);
    ReceiverIsMirror(c, subscribers, sink, events);
  }

  // ---- finality notifications ----

  ghost function FinalityArriving(c: Chain, e: Event): seq<FinalityNotification>
    requires c.Valid() && Possible(c, e)
  {
    AnnouncedKnown(c, e);
    FinalityMessages(Next(c, e).tree.headers, Announces(c, e).finalized)
  }

  function Hashes(msgs: seq<FinalityNotification>): seq<Hash> {
    seq(|msgs|, i requires 0 <= i < |msgs| => msgs[i].hash)
  }

  lemma FinalityArrives(c: Chain, subscribers: Subscribers, e: Event, sink: Sink)
    requires c.Valid() && Possible(c, e) && Stays(subscribers.finality, sink)
    ensures var after := TellNext(c, subscribers, e).finality;
            && Stays(after, sink)
            && after.inbox[sink.channel] == subscribers.finality.inbox[sink.channel] + FinalityArriving(c, e)
  {
    AnnouncedKnown(c, e);
    if !Commits(c, e) {
      SilentUnlessCommitted(c, e);
    } else if Announces(c, e).finalized == [] {
      StaysChecked(subscribers.finality, sink, subscribers.clock);
    } else {
      StaysAfter(subscribers.finality, sink, subscribers.clock, FinalityArriving(c, e));
    }
  }

  ghost function AllFinalityArriving(c: Chain, events: seq<Event>): seq<FinalityNotification>
    requires c.Valid() && Reach(c, events).Some?
  {
    if events == [] then []
    else
      var n := |events| - 1;
      AllFinalityArriving(c, events[..n]) + FinalityArriving(Reach(c, events[..n]).value, events[n])
  }

  /** Over a run a channel receives every finality message, in order and once. */
  lemma {:induction false} AllFinalityArrives(c: Chain, subscribers: Subscribers, events: seq<Event>, sink: Sink)
    requires c.Valid() && Reach(c, events).Some? && Stays(subscribers.finality, sink)
    ensures var after := TellAll(c, subscribers, events).finality;
            && Stays(after, sink)
            && after.inbox[sink.channel] == subscribers.finality.inbox[sink.channel] + AllFinalityArriving(c, events)
  {
    if events != [] {
      var n := |events| - 1;
      AllFinalityArrives(c, subscribers, events[..n], sink);
      FinalityArrives(Reach(c, events[..n]).value, TellAll(c, subscribers, events[..n]), events[n], sink);
    }
  }

  lemma HashesArriving(c: Chain, e: Event)
    requires c.Valid() && Possible(c, e)
    ensures Hashes(FinalityArriving(c, e)) == Announces(c, e).finalized
  {
    AnnouncedKnown(c, e);
  }

  lemma HashesJoined(a: seq<FinalityNotification>, b: seq<FinalityNotification>)
    ensures Hashes(a + b) == Hashes(a) + Hashes(b)
  {
  }

  lemma {:induction false} HashesOfStream(c: Chain, events: seq<Event>)
    requires c.Valid() && Reach(c, events).Some?
    ensures Hashes(AllFinalityArriving(c, events)) == FinalityStream(c, events)
  {
    if events != [] {
      var n := |events| - 1;
      HashesOfStream(c, events[..n]);
      HashesArriving(Reach(c, events[..n]).value, events[n]);
      HashesJoined(AllFinalityArriving(c, events[..n]), FinalityArriving(Reach(c, events[..n]).value, events[n]));
    }
  }

  lemma FinalityArrived(c: Chain, subscribers: Subscribers, events: seq<Event>, sink: Sink)
    requires c.Valid() && Reach(c, events).Some? && Stays(subscribers.finality, sink)
    ensures var after := TellAll(c, subscribers, events).finality;
            && sink.channel in after.inbox && |subscribers.finality.inbox[sink.channel]| <= |after.inbox[sink.channel]|
            && Hashes(Arrived(subscribers.finality, after, sink.channel)) == FinalityStream(c, events)
  {
    AllFinalityArrives(c, subscribers, events, sink);
    HashesOfStream(c, events);
    var was := subscribers.finality.inbox[sink.channel];
    assert (was + AllFinalityArriving(c, events))[|was|..] == AllFinalityArriving(c, events);
  }

  /** After every operation what arrived in a finality channel is the chain finalized so far. */
  ghost predicate ReceiverHasChain(c: Chain, subscribers: Subscribers, sink: Sink, events: seq<Event>)
    requires c.Valid() && Reach(c, events).Some? && Stays(subscribers.finality, sink)
  {
    FinalityArrived(c, subscribers, events, sink);
    var arrived := Arrived(subscribers.finality, TellAll(c, subscribers, events).finality, sink.channel);
    && Hashes(arrived) == FinalizedSince(c, events)
    && (events != [] ==> ReceiverHasChain(c, subscribers, sink, events[..|events| - 1]))
  }

  lemma {:induction false} ReceiverIsStream(c: Chain, subscribers: Subscribers, sink: Sink, events: seq<Event>)
    requires c.Valid() && Reach(c, events).Some? && Stays(subscribers.finality, sink)
    ensures ReceiverHasChain(c, subscribers, sink, events) <==> StreamWhole(c, events)
  {
    FinalityArrived(c, subscribers, events, sink);
    if events != [] {
      ReceiverIsStream(c, subscribers, sink, events[..|events| - 1]);
    }
  }

  /** That is so throughout a run exactly if every step announces all it finalizes. */
  lemma ReceiverHasFinalizedChain(c: Chain, subscribers: Subscribers, sink: Sink, events: seq<Event>)
    requires c.Valid() && Reach(c, events).Some? && Stays(subscribers.finality, sink)
    ensures ReceiverHasChain(c, subscribers, sink, events) <==> AllAnnounced(c, events)
  {
    FinalityStreamIsChain(c, events);
    ReceiverIsStream(c, subscribers, sink, events);
  }
}
