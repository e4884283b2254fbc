/** Delivery of import and finality notifications to subscribers. A subscriber may hang up at any
    moment; the sink vectors are pruned while they are written to. */
module Notifies {
  import opened Results
  import opened BlockTree

  type StorageChanges = nat

  datatype Origin = Genesis | NetworkInitialSync | NetworkBroadcast | ConsensusBroadcast | Own | File

  datatype ImportSummary = ImportSummary(
    hash: Hash,
    origin: Origin,
    header: Header,
    isNewBest: bool,
    storageChanges: Option<StorageChanges>,
    route: Option<TreeRoute>)

  datatype ImportNotification = ImportNotification(
    hash: Hash, origin: Origin, header: Header, isNewBest: bool, route: Option<TreeRoute>)

  datatype FinalityNotification = FinalityNotification(header: Header, hash: Hash)

  /** A subscriber's sender: the channel it feeds and the moment the receiver goes away. */
  datatype Sink = Sink(channel: nat, hangUp: Option<nat>) {

    predicate Closed(time: nat) {
      hangUp.Some? && hangUp.value <= time
    }

    /** How many of `n` sends, one per tick from `start`, arrive. */
    function Taken(start: nat, n: nat): (k: nat)
      ensures k <= n
    {
      if Closed(start) then 0 else if Closed(start + n) then hangUp.value - start else n
    }
  }

  /** What `retain` leaves of a vector when the closed sinks are dropped. */
  function Retain(vector: seq<Sink>, time: nat): seq<Sink> {
    if vector == [] then []
    else
      var n := |vector| - 1;
      if vector[n].Closed(time) then Retain(vector[..n], time) else Retain(vector[..n], time) + [vector[n]]
  }

  ghost predicate Distinct(vector: seq<Sink>) {
    forall i, j :: 0 <= i < j < |vector| ==> vector[i].channel != vector[j].channel
  }

  ghost predicate Feeds(vector: seq<Sink>, channel: nat) {
    exists i :: 0 <= i < |vector| && vector[i].channel == channel
  }

  /** How many of `n` sends through a vector arrive in a channel. */
  function Reaching(vector: seq<Sink>, start: nat, n: nat, channel: nat): (k: nat)
    ensures k <= n
  {
    if vector == [] then 0
    else
      var last := vector[|vector| - 1];
      if last.channel == channel then last.Taken(start, n) else Reaching(vector[..|vector| - 1], start, n, channel)
  }

  /** What a channel holds after `msgs` were sent through a vector. */
  function Delivered<M>(vector: seq<Sink>, start: nat, msgs: seq<M>, inbox: seq<M>, channel: nat): seq<M> {
    inbox + msgs[..Reaching(vector, start, |msgs|, channel)]
  }

  function AllDelivered<M>(vector: seq<Sink>, start: nat, msgs: seq<M>, inbox: map<nat, seq<M>>): map<nat, seq<M>> {
    map c | c in inbox :: Delivered(vector, start, msgs, inbox[c], c)
  }

  /** The vector of sinks, and what every receiver was sent so far, those whose sink was dropped
      included. */
  datatype Sinks<M> = Sinks(vector: seq<Sink>, inbox: map<nat, seq<M>>) {

    ghost predicate Valid() {
      && Distinct(vector)
      && forall i :: 0 <= i < |vector| ==> vector[i].channel in inbox
    }

    /** `msgs` sent through the vector, one per tick from `start`, dropping closed sinks each time. */
    function After(start: nat, msgs: seq<M>): Sinks<M> {
      Sinks(if msgs == [] then vector else Retain(vector, start + |msgs| - 1),
            AllDelivered(vector, start, msgs, inbox))
    }

    /** The sinks after `retain(|sink| !sink.is_closed())`. */
    function Checked(time: nat): Sinks<M> {
      this.(vector := Retain(vector, time))
    }
  }

  /** The positions of the sinks that are kept. */
  function KeptAt(vector: seq<Sink>, time: nat): seq<nat> {
    if vector == [] then []
    else
      var n := |vector| - 1;
      if vector[n].Closed(time) then KeptAt(vector[..n], time) else KeptAt(vector[..n], time) + [n]
  }

  /** The kept sinks are exactly the open ones, in their old order. */
  lemma {:induction false} KeptInOrder(vector: seq<Sink>, time: nat)
    ensures var at, kept := KeptAt(vector, time), Retain(vector, time);
            && |at| == |kept|
            && (forall j :: 0 <= j < |at| ==> at[j] < |vector| && kept[j] == vector[at[j]])
            && (forall j, k :: 0 <= j < k < |at| ==> at[j] < at[k])
            && (forall i :: 0 <= i < |vector| ==> (i in at <==> !vector[i].Closed(time)))
  {
    if vector != [] {
      var n := |vector| - 1;
      KeptInOrder(vector[..n], time);
      var front := KeptAt(vector[..n], time);
      assert forall i :: 0 <= i < n ==> (i in front <==> !vector[..n][i].Closed(time));
    }
  }

  lemma RetainValid<M>(s: Sinks<M>, time: nat)
    requires s.Valid()
    ensures s.Checked(time).Valid()
  {
    KeptInOrder(s.vector, time);
  }

  /** A sink whose channel no other sink feeds is all that reaches the channel. */
  lemma {:induction false} ReachingOne(vector: seq<Sink>, start: nat, n: nat, i: nat)
    requires Distinct(vector) && i < |vector|
    ensures Reaching(vector, start, n, vector[i].channel) == vector[i].Taken(start, n)
  {
    if i < |vector| - 1 {
      ReachingOne(vector[..|vector| - 1], start, n, i);
    }
  }

  lemma {:induction false} ReachingNone(vector: seq<Sink>, start: nat, n: nat, channel: nat)
    requires !Feeds(vector, channel)
    ensures Reaching(vector, start, n, channel) == 0
  {
    if vector != [] {
      var last := |vector| - 1;
      assert forall i :: 0 <= i < last ==> vector[..last][i] == vector[i];
      ReachingNone(vector[..last], start, n, channel);
    }
  }

  lemma RetainFeeds(vector: seq<Sink>, time: nat, channel: nat)
    requires !Feeds(vector, channel)
    ensures !Feeds(Retain(vector, time), channel)
  {
    KeptInOrder(vector, time);
  }

  lemma {:induction false} RetainTwice(vector: seq<Sink>, first: nat, second: nat)
    requires first <= second
    ensures Retain(Retain(vector, first), second) == Retain(vector, second)
  {
    if vector != [] {
      var n := |vector| - 1;
      RetainTwice(vector[..n], first, second);
      var kept := Retain(vector[..n], first);
      assert (kept + [vector[n]])[..|kept|] == kept;
    }
  }

  lemma {:induction false} ReachingTwice(vector: seq<Sink>, start: nat, a: nat, b: nat, channel: nat)
    requires Distinct(vector) && a > 0
    ensures var first := Reaching(vector, start, a, channel);
            var second := Reaching(Retain(vector, start + a - 1), start + a, b, channel);
            Reaching(vector, start, a + b, channel) == first + second && (first < a ==> second == 0)
  {
    if vector != [] {
      var n := |vector| - 1;
      var kept := Retain(vector[..n], start + a - 1);
      assert (kept + [vector[n]])[..|kept|] == kept;
      if vector[n].channel == channel {
        RetainFeeds(vector[..n], start + a - 1, channel);
        ReachingNone(kept, start + a, b, channel);
      } else {
        ReachingTwice(vector[..n], start, a, b, channel);
      }
    }
  }

  lemma AfterNothing<M>(s: Sinks<M>, start: nat)
    ensures s.After(start, []) == s
  {
    forall c | c in s.inbox
      ensures s.After(start, []).inbox[c] == s.inbox[c]
    {
    }
    assert s.After(start, []).inbox == s.inbox;
  }

  lemma DeliveredTwice<M>(vector: seq<Sink>, start: nat, first: seq<M>, second: seq<M>, inbox: seq<M>, c: nat)
    requires Distinct(vector) && first != []
    ensures var kept, later := Retain(vector, start + |first| - 1), start + |first|;
            Delivered(kept, later, second, Delivered(vector, start, first, inbox, c), c) ==
            Delivered(vector, start, first + second, inbox, c)
  {
    ReachingTwice(vector, start, |first|, |second|, c);
  }

  lemma AllDeliveredTwice<M>(vector: seq<Sink>, start: nat, first: seq<M>, second: seq<M>, inbox: map<nat, seq<M>>)
    requires Distinct(vector) && first != []
    ensures var kept, later := Retain(vector, start + |first| - 1), start + |first|;
            AllDelivered(kept, later, second, AllDelivered(vector, start, first, inbox)) ==
            AllDelivered(vector, start, first + second, inbox)
  {
    forall c | c in inbox {
      DeliveredTwice(vector, start, first, second, inbox[c], c);
    }
  }

  /** Two announcements in a row are one announcement of both lists. */
  lemma AfterTwice<M>(s: Sinks<M>, start: nat, first: seq<M>, second: seq<M>)
    requires s.Valid()
    ensures s.After(start, first).After(start + |first|, second) == s.After(start, first + second)
  {
    if first == [] {
      assert first + second == second;
      AfterNothing(s, start);
    } else {
      var t := start + |first| - 1;
      assert s.After(start, first) == Sinks(Retain(s.vector, t), AllDelivered(s.vector, start, first, s.inbox));
      RetainTwice(s.vector, t, t + |second|);
      AllDeliveredTwice(s.vector, start, first, second, s.inbox);
    }
  }

  lemma RetainHolds(vector: seq<Sink>, time: nat, i: nat)
    requires Distinct(vector) && i < |vector|
    ensures vector[i] in Retain(vector, time) <==> !vector[i].Closed(time)
  {
    KeptInOrder(vector, time);
    var at := KeptAt(vector, time);
    if i in at {
      var j :| 0 <= j < |at| && at[j] == i;
      assert Retain(vector, time)[j] == vector[i];
    }
  }

  /** A sink is kept exactly if its receiver got the whole list, in order; a dropped one's receiver
      got a proper prefix of it; one that never hangs up is kept. */
  lemma KeptGotAll<M>(s: Sinks<M>, start: nat, msgs: seq<M>, i: nat)
    requires s.Valid() && i < |s.vector|
    ensures var r, sink := s.After(start, msgs), s.vector[i];
            && sink.channel in r.inbox
            && (sink in r.vector <==> r.inbox[sink.channel] == s.inbox[sink.channel] + msgs)
            && (sink !in r.vector ==>
                  exists k :: 0 <= k < |msgs| && r.inbox[sink.channel] == s.inbox[sink.channel] + msgs[..k])
            && (sink.hangUp.None? ==> sink in r.vector)
  {
    var r, sink := s.After(start, msgs), s.vector[i];
    ReachingOne(s.vector, start, |msgs|, i);
    var k := sink.Taken(start, |msgs|);
    assert |r.inbox[sink.channel]| == |s.inbox[sink.channel]| + k;
    if msgs != [] {
      RetainHolds(s.vector, start + |msgs| - 1, i);
      assert msgs[..|msgs|] == msgs;
    }
  }

  /** One sink's part in a pass over the vector. */
  lemma DeliveredOn<M>(vector: seq<Sink>, i: nat, time: nat, msg: M, inbox: seq<M>, channel: nat)
    requires Distinct(vector) && i < |vector|
    ensures Delivered(vector[..i + 1], time, [msg], inbox, channel) ==
            if channel == vector[i].channel then if vector[i].Closed(time) then inbox else inbox + [msg]
            else Delivered(vector[..i], time, [msg], inbox, channel)
    ensures channel == vector[i].channel ==> Delivered(vector[..i], time, [msg], inbox, channel) == inbox
  {
    assert vector[..i + 1][..i] == vector[..i];
    if channel == vector[i].channel {
      ReachingNone(vector[..i], time, 1, channel);
    }
  }

  lemma AllDeliveredOn<M>(vector: seq<Sink>, i: nat, time: nat, msg: M, inbox: map<nat, seq<M>>)
    requires Distinct(vector) && i < |vector| && vector[i].channel in inbox
    ensures var so, c := AllDelivered(vector[..i], time, [msg], inbox), vector[i].channel;
            AllDelivered(vector[..i + 1], time, [msg], inbox) ==
            if vector[i].Closed(time) then so else so[c := so[c] + [msg]]
  {
    forall c | c in inbox {
      DeliveredOn(vector, i, time, msg, inbox[c], c);
    }
  }

  lemma DeliveredByNone<M>(time: nat, msgs: seq<M>, inbox: map<nat, seq<M>>)
    ensures AllDelivered([], time, msgs, inbox) == inbox
  {
    forall c | c in inbox
      ensures Delivered([], time, msgs, inbox[c], c) == inbox[c]
    {
    }
  }

  /** One `retain` pass that sends a clone of the message through every sink of the vector. */
  method SendAndRetain<M>(time: nat, s: Sinks<M>, msg: M) returns (r: Sinks<M>)
    requires s.Valid()
    ensures r == s.After(time, [msg])
  {
    var kept: seq<Sink>, inbox := [], s.inbox;
    DeliveredByNone(time, [msg], s.inbox);
    for i := 0 to |s.vector|
      invariant kept == Retain(s.vector[..i], time)
      invariant inbox == AllDelivered(s.vector[..i], time, [msg], s.inbox)
    {
      var sink := s.vector[i];
      assert s.vector[..i + 1][..i] == s.vector[..i];
      AllDeliveredOn(s.vector, i, time, msg, s.inbox);
      if !sink.Closed(time) {
        inbox := inbox[sink.channel := inbox[sink.channel] + [msg]];
        kept := kept + [sink];
      }
    }
    assert s.vector[..|s.vector|] == s.vector;
    r := Sinks(kept, inbox);
  }

  method CheckAndRetain<M>(time: nat, s: Sinks<M>) returns (r: Sinks<M>)
    ensures r == s.Checked(time)
  {
    var kept: seq<Sink> := [];
    for i := 0 to |s.vector|
      invariant kept == Retain(s.vector[..i], time)
    {
      assert s.vector[..i + 1][..i] == s.vector[..i];
      if !s.vector[i].Closed(time) {
        kept := kept + [s.vector[i]];
      }
    }
    assert s.vector[..|s.vector|] == s.vector;
    r := s.(vector := kept);
  }

  function FinalityMessages(headers: map<Hash, Header>, hashes: seq<Hash>): (msgs: seq<FinalityNotification>)
    requires forall h :: h in hashes ==> h in headers
    ensures |msgs| == |hashes|
    ensures forall i :: 0 <= i < |hashes| ==> msgs[i].hash == hashes[i] && msgs[i].header == headers[hashes[i]]
  {
    seq(|hashes|, i requires 0 <= i < |hashes| => FinalityNotification(headers[hashes[i]], hashes[i]))
  }

  lemma AfterValid<M>(s: Sinks<M>, start: nat, msgs: seq<M>)
    requires s.Valid()
    ensures s.After(start, msgs).Valid()
  {
    if msgs != [] {
      RetainValid(s, start + |msgs| - 1);
    }
  }

  lemma AnnounceOn<M>(s: Sinks<M>, start: nat, msgs: seq<M>, n: nat)
    requires s.Valid() && n < |msgs|
    ensures s.After(start, msgs[..n]).Valid()
    ensures s.After(start, msgs[..n]).After(start + n, [msgs[n]]) == s.After(start, msgs[..n + 1])
  {
    assert msgs[..n + 1] == msgs[..n] + [msgs[n]];
    AfterTwice(s, start, msgs[..n], [msgs[n]]);
    AfterValid(s, start, msgs[..n]);
  }

  /** Sends one notification per finalized hash, dropping closed sinks after each. */
  method AnnounceEach(start: nat, s: Sinks<FinalityNotification>,
                      headers: map<Hash, Header>, hashes: seq<Hash>) returns (r: Sinks<FinalityNotification>)
    requires s.Valid() && forall h :: h in hashes ==> h in headers
    ensures r == s.After(start, FinalityMessages(headers, hashes))
  {
    r := s;
    ghost var msgs := FinalityMessages(headers, hashes);
    AfterNothing(s, start);
    for n := 0 to |hashes|
      invariant r == s.After(start, msgs[..n])
    {
      AnnounceOn(s, start, msgs, n);
      assert msgs[n] == FinalityNotification(headers[hashes[n]], hashes[n]);
      r := SendAndRetain(start + n, r, FinalityNotification(headers[hashes[n]], hashes[n]));
    }
    assert msgs[..|hashes|] == msgs;
  }

  function ImportMessage(s: ImportSummary): ImportNotification {
    ImportNotification(s.hash, s.origin, s.header, s.isNewBest, s.route)
  }

  /** What announcing a list of finalized blocks, possibly empty, does to the sinks. */
  ghost function FinalityTold(s: Sinks<FinalityNotification>, time: nat, headers: map<Hash, Header>, hashes: seq<Hash>)
    : Sinks<FinalityNotification>
    requires forall h :: h in hashes ==> h in headers
  {
    if hashes == [] then s.Checked(time) else s.After(time, FinalityMessages(headers, hashes))
  }

  ghost function ImportTold(s: Sinks<ImportNotification>, time: nat, summary: Option<ImportSummary>)
    : Sinks<ImportNotification>
  {
    if summary.None? then s.Checked(time) else s.After(time, [ImportMessage(summary.value)])
  }

  /** After an announcement, or its absence, exactly the sinks stay that were open when the last message
      was sent, or at once if there was none; and without a message nothing arrives. */
  lemma ToldDropsClosed(finality: Sinks<FinalityNotification>, imports: Sinks<ImportNotification>, time: nat,
                        headers: map<Hash, Header>, hashes: seq<Hash>, summary: Option<ImportSummary>, i: nat)
    requires finality.Valid() && imports.Valid() && forall h :: h in hashes ==> h in headers
    ensures var told, last := FinalityTold(finality, time, headers, hashes), if hashes == [] then 0 else |hashes| - 1;
            && (i < |finality.vector| ==>
                  (finality.vector[i] in told.vector <==> !finality.vector[i].Closed(time + last)))
            && (hashes == [] ==> told.inbox == finality.inbox)
    ensures var told := ImportTold(imports, time, summary);
            && (i < |imports.vector| ==> (imports.vector[i] in told.vector <==> !imports.vector[i].Closed(time)))
            && (summary.None? ==> told.inbox == imports.inbox)
  {
    if i < |finality.vector| {
      RetainHolds(finality.vector, time + if hashes == [] then 0 else |hashes| - 1, i);
    }
    if i < |imports.vector| {
      RetainHolds(imports.vector, time, i);
    }
  }

  /** All sinks, and the moment that has come. */
  datatype Subscribers = Subscribers(
    finality: Sinks<FinalityNotification>, imports: Sinks<ImportNotification>, clock: nat)
  {
    ghost predicate Valid() {
      finality.Valid() && imports.Valid()
    }

    /** When the import is announced: after every finalized block. */
    function ImportTime(hashes: seq<Hash>): nat {
      clock + if hashes == [] then 1 else |hashes|
    }

    /** The sinks told of a commit, finality first, then the import, and closed ones dropped even if
        there is nothing to tell. */
    ghost function Told(headers: map<Hash, Header>, hashes: seq<Hash>, summary: Option<ImportSummary>): Subscribers
      requires forall h :: h in hashes ==> h in headers
    {
      Subscribers(FinalityTold(finality, clock, headers, hashes),
                  ImportTold(imports, ImportTime(hashes), summary),
                  ImportTime(hashes) + 1)
    }
  }

  class ClientNotifies {
    var finality: Sinks<FinalityNotification>
    var imports: Sinks<ImportNotification>
    var storageEvents: seq<(Hash, StorageChanges)>
    var clock: nat

    function View(): Subscribers
      reads this
    {
      Subscribers(finality, imports, clock)
    }

    ghost predicate Valid()
      reads this
    {
      View().Valid()
    }

    constructor ()
      ensures Valid()
      ensures finality == Sinks([], map[]) && imports == Sinks([], map[]) && storageEvents == []
    {
      finality, imports, storageEvents, clock := Sinks([], map[]), Sinks([], map[]), [], 0;
    }

    /** Announces finalized blocks in order, or only drops closed sinks when there are none. */
    method NotifyFinalized(headers: map<Hash, Header>, hashes: seq<Hash>)
      requires Valid() && forall h :: h in hashes ==> h in headers
      modifies this`finality, this`clock
      ensures Valid()
      ensures clock == old(clock) + if hashes == [] then 1 else |hashes|
      ensures finality == FinalityTold(old(finality), old(clock), headers, hashes)
    {
      if hashes == [] {
        RetainValid(finality, clock);
        finality := CheckAndRetain(clock, finality);
        clock := clock + 1;
        return;
      }
      AfterValid(finality, clock, FinalityMessages(headers, hashes));
      finality := AnnounceEach(clock, finality, headers, hashes);
      clock := clock + |hashes|;
    }

    /** Announces an imported block, or only drops closed sinks when there is nothing to announce. */
    method NotifyImported(summary: Option<ImportSummary>)
      requires Valid()
      modifies this`imports, this`clock, this`storageEvents
      ensures Valid()
      ensures clock == old(clock) + 1
      ensures imports == ImportTold(old(imports), old(clock), summary)
      ensures storageEvents == old(storageEvents) +
                               if summary.Some? && summary.value.storageChanges.Some?
                               then [(summary.value.hash, summary.value.storageChanges.value)] else []
    {
      if summary.None? {
        RetainValid(imports, clock);
        imports := CheckAndRetain(clock, imports);
      } else {
        var s := summary.value;
        if s.storageChanges.Some? {
          storageEvents := storageEvents + [(s.hash, s.storageChanges.value)];
        }
        AfterValid(imports, clock, [ImportMessage(s)]);
        imports := SendAndRetain(clock, imports, ImportMessage(s));
      }
      clock := clock + 1;
    }
  }
}
