/** The order in which the archive writes, and the block recorded with each version's metadata, under
    any faults and crashes. */
module ArchiveWrites {
  import opened ArchivePipeline
  import opened ArchiveLoop

  /** The database write that must come before an item is published. */
  function Precursor(i: Item): Item {
    match i
    case KafkaMeta(spec, meta) => DbMeta(spec, meta)
    case KafkaBlock(n, row) => DbBlock(n, row)
    case _ => i
  }

  /** The metadata stored so far, by version. */
  ghost function StoredMetas(history: seq<Item>): map<Spec, MetaRow> {
    if history == [] then map[]
    else
      var front, last := StoredMetas(history[..|history| - 1]), history[|history| - 1];
      if last.DbMeta? then front[last.spec := last.meta] else front
  }

  /** Every published item was stored first, and no version's metadata is stored twice. */
  ghost predicate Ordered(history: seq<Item>) {
    history != [] ==>
      var front, last := history[..|history| - 1], history[|history| - 1];
      && Ordered(front)
      && (Precursor(last) == last || Precursor(last) in front)
      && (last.DbMeta? ==> last.spec !in StoredMetas(front))
  }

  lemma {:induction false} StoredHolds(history: seq<Item>, i: nat)
    requires i < |history| && history[i].DbMeta?
    ensures history[i].spec in StoredMetas(history)
  {
    if i < |history| - 1 {
      StoredHolds(history[..|history| - 1], i);
    }
  }

  /** What `Ordered` says of positions. */
  lemma {:induction false} OrderedMeans(history: seq<Item>, j: nat)
    requires Ordered(history) && j < |history|
    ensures Precursor(history[j]) != history[j] ==> exists i :: 0 <= i < j && history[i] == Precursor(history[j])
    ensures forall i :: 0 <= i < j && history[i].DbMeta? && history[j].DbMeta? ==> history[i].spec != history[j].spec
  {
    var front := history[..|history| - 1];
    if j < |front| {
      OrderedMeans(front, j);
      assert forall i :: 0 <= i <= j ==> front[i] == history[i];
    } else if history[j].DbMeta? {
      forall i | 0 <= i < j && history[i].DbMeta?
        ensures history[i].spec != history[j].spec
      {
        StoredHolds(front, i);
      }
    } else if Precursor(history[j]) != history[j] {
      var i :| 0 <= i < |front| && front[i] == Precursor(history[j]);
      assert history[i] == Precursor(history[j]);
    }
  }

  /** Every block row's version has a metadata row, and stored metadata is in the table for good. */
  ghost predicate Referenced(d: Store) {
    && (forall n :: n in d.blocks ==> d.blocks[n].spec in d.metas)
    && (forall v :: v in StoredMetas(d.history) ==> v in d.metas && d.metas[v] == StoredMetas(d.history)[v])
  }

  lemma HistoryOn(history: seq<Item>, item: Item)
    ensures Ordered(history + [item]) <==>
            && Ordered(history)
            && (Precursor(item) == item || Precursor(item) in history)
            && (item.DbMeta? ==> item.spec !in StoredMetas(history))
    ensures StoredMetas(history + [item]) ==
            if item.DbMeta? then StoredMetas(history)[item.spec := item.meta] else StoredMetas(history)
  {
    assert (history + [item])[..|history|] == history;
  }

  lemma StoreMetaOrdered(d: Store, m: Message, f: Faults)
    requires Ordered(d.history) && Referenced(d)
    ensures var r := StoreMeta(d, m, f).0;
            Ordered(r.history) && Referenced(r)
  {
    var meta := MetaRow(m.number, m.row.hash);
    HistoryOn(d.history, DbMeta(m.row.spec, meta));
    HistoryOn(d.history + [DbMeta(m.row.spec, meta)], KafkaMeta(m.row.spec, meta));
  }

  lemma StoreBlockOrdered(d: Store, m: Message, f: Faults)
    requires Ordered(d.history) && Referenced(d)
    ensures Ordered(StoreBlock(d, m, f).history) && Referenced(StoreBlock(d, m, f))
  {
    var stored := DbBlock(m.number, m.row);
    HistoryOn(d.history, stored);
    HistoryOn(d.history + [stored], KafkaBlock(m.number, m.row));
    assert stored in d.history + [stored];
  }

  lemma ArchiveOrdered(s: State, f: Faults)
    requires Ordered(s.db.history) && Referenced(s.db)
    ensures Ordered(ArchiveStep(s, f).db.history) && Referenced(ArchiveStep(s, f).db)
  {
    if s.archQ != [] {
      StoreMetaOrdered(s.db, s.archQ[0], f);
      StoreBlockOrdered(StoreMeta(s.db, s.archQ[0], f).0, s.archQ[0], f);
    }
  }

  /** Over every run with any faults and crashes: versions referenced by block rows have metadata,
      everything on Kafka was stored in Postgres first, and each metadata row is written once. */
  lemma {:induction false} WritesAreOrdered(w: World, s: State, events: seq<Event>)
    requires Ordered(s.db.history) && Referenced(s.db)
    ensures Ordered(Run(w, s, events).db.history) && Referenced(Run(w, s, events).db)
  {
    if events != [] {
      var before, e := Run(w, s, events[..|events| - 1]), events[|events| - 1];
      WritesAreOrdered(w, s, events[..|events| - 1]);
      if e.Archive? || e.ArchiveThenCrash? {
        ArchiveOrdered(before, e.faults);
      }
    }
  }

  // ---- which writes of a message take effect ----

  /** One write and how it ends. */
  datatype Attempted = Attempted(item: Item, outcome: Write)

  /** The writes of a message's block: to the database, then to Kafka. No table takes a block from number
      10,000,000 on. */
  function BlockWrites(m: Message, f: Faults): seq<Attempted> {
    [Attempted(DbBlock(m.number, m.row), if m.number < 10_000_000 then f.insertBlock else Failed)] +
    [Attempted(KafkaBlock(m.number, m.row), f.sendBlock)]
  }

  /** The writes a message needs: its version's metadata if it is new, then its block. There are none if
      the check for the version fails or its metadata cannot be had. */
  function WritesOf(d: Store, m: Message, f: Faults): seq<Attempted> {
    var spec, meta := m.row.spec, MetaRow(m.number, m.row.hash);
    if !f.checkWorks || (spec !in d.metas && !f.metadataKnown) then []
    else if spec in d.metas then BlockWrites(m, f)
    else
      [Attempted(DbMeta(spec, meta), f.insertMeta)] +
      ([Attempted(KafkaMeta(spec, meta), f.sendMeta)] + BlockWrites(m, f))
  }

  /** What an item does where it is written: an upsert in a table, nothing but its record on Kafka. */
  function Written(d: Store, item: Item): Store {
    var e := d.(history := d.history + [item]);
    match item
    case DbMeta(spec, meta) => e.(metas := e.metas[spec := meta])
    case DbBlock(n, row) => e.(blocks := e.blocks[n := row])
    case _ => e
  }

  /** Writes are carried out in order until one is not acknowledged. */
  function CarriedOut(d: Store, writes: seq<Attempted>): Store
    decreases |writes|
  {
    if writes == [] then d
    else
      var e := if writes[0].outcome.Failed? then d else Written(d, writes[0].item);
      if writes[0].outcome.Done? then CarriedOut(e, writes[1..]) else e
  }

  lemma CarriedOn(d: Store, first: Attempted, rest: seq<Attempted>)
    ensures CarriedOut(d, [first] + rest) ==
            var e := if first.outcome.Failed? then d else Written(d, first.item);
            if first.outcome.Done? then CarriedOut(e, rest) else e
  {
    assert ([first] + rest)[1..] == rest;
  }

  lemma BlockCarriedOut(d: Store, m: Message, f: Faults)
    requires m.row.spec in d.metas
    ensures StoreBlock(d, m, f) == CarriedOut(d, BlockWrites(m, f))
  {
    var insert := Attempted(DbBlock(m.number, m.row), if m.number < 10_000_000 then f.insertBlock else Failed);
    var send := Attempted(KafkaBlock(m.number, m.row), f.sendBlock);
    CarriedOn(d, insert, [send]);
    CarriedOn(Written(d, insert.item), send, []);
    assert [send] + [] == [send];
  }

  /** Archiving a message leaves exactly the effects of its writes carried out in order. */
  lemma MessageCarriedOut(d: Store, m: Message, f: Faults)
    ensures StoreMessage(d, m, f).0 == CarriedOut(d, WritesOf(d, m, f))
  {
    var spec, meta := m.row.spec, MetaRow(m.number, m.row.hash);
    if f.checkWorks && spec in d.metas {
      BlockCarriedOut(d, m, f);
    } else if f.checkWorks && f.metadataKnown {
      var insert, send := Attempted(DbMeta(spec, meta), f.insertMeta), Attempted(KafkaMeta(spec, meta), f.sendMeta);
      var e := Written(d, insert.item);
      CarriedOn(d, insert, [send] + BlockWrites(m, f));
      CarriedOn(e, send, BlockWrites(m, f));
      BlockCarriedOut(Written(e, send.item), m, f);
    }
  }

  predicate OnKafka(item: Item) {
    item.KafkaMeta? || item.KafkaBlock?
  }

  /** Archiving the message puts the item on Kafka: all writes before the item's own are acknowledged,
      and its own takes effect. */
  predicate Publishes(d: Store, m: Message, f: Faults, item: Item) {
    && f.checkWorks
    && match item
       case KafkaMeta(spec, meta) =>
         && spec == m.row.spec && meta == MetaRow(m.number, m.row.hash)
         && spec !in d.metas && f.metadataKnown && f.insertMeta.Done? && !f.sendMeta.Failed?
       case KafkaBlock(n, row) =>
         && n == m.number < 10_000_000 && row == m.row
         && (row.spec in d.metas || (f.metadataKnown && f.insertMeta.Done? && f.sendMeta.Done?))
         && f.insertBlock.Done? && !f.sendBlock.Failed?
       case _ => false
  }

  lemma MetaPublishes(d: Store, m: Message, f: Faults, item: Item)
    requires OnKafka(item)
    ensures item in StoreMeta(d, m, f).0.history <==> item in d.history || (item.KafkaMeta? && Publishes(d, m, f, item))
  {
  }

  lemma BlockPublishes(d: Store, m: Message, f: Faults, item: Item)
    requires OnKafka(item) && m.row.spec in d.metas
    ensures item in StoreBlock(d, m, f).history <==>
            || item in d.history
            || (&& item == KafkaBlock(m.number, m.row) && m.number < 10_000_000
                && f.insertBlock.Done? && !f.sendBlock.Failed?)
  {
  }

  lemma MessagePublishes(d: Store, m: Message, f: Faults, item: Item)
    requires OnKafka(item)
    ensures item in StoreMessage(d, m, f).0.history <==> item in d.history || Publishes(d, m, f, item)
  {
    MetaPublishes(d, m, f, item);
    if StoreMeta(d, m, f).1.Continue? {
      BlockPublishes(StoreMeta(d, m, f).0, m, f, item);
    }
  }

  /** The step archives a message and so puts the item on Kafka. */
  predicate PublishesNow(s: State, e: Event, item: Item) {
    && (e.Archive? || e.ArchiveThenCrash?) && !s.archiverHalted && s.archQ != []
    && Publishes(s.db, s.archQ[0], e.faults, item)
  }

  /** Some step of the run puts the item on Kafka. */
  ghost predicate PublishedIn(w: World, s: State, events: seq<Event>, item: Item) {
    && events != []
    && var n := |events| - 1;
    PublishedIn(w, s, events[..n], item) || PublishesNow(Run(w, s, events[..n]), events[n], item)
  }

  lemma StepPublishes(w: World, s: State, e: Event, item: Item)
    requires OnKafka(item)
    ensures item in Step(w, s, e).db.history <==> item in s.db.history || PublishesNow(s, e, item)
  {
    if (e.Archive? || e.ArchiveThenCrash?) && s.archQ != [] {
      MessagePublishes(s.db, s.archQ[0], e.faults, item);
    }
  }

  /** Over every run with any faults and crashes, exactly which items are on Kafka: those there at first
      and those of the archived messages whose writes went through up to the item's own. */
  lemma {:induction false} PublishedExactly(w: World, s: State, events: seq<Event>, item: Item)
    requires OnKafka(item)
    ensures item in Run(w, s, events).db.history <==> item in s.db.history || PublishedIn(w, s, events, item)
  {
    if events != [] {
      var n := |events| - 1;
      PublishedExactly(w, s, events[..n], item);
      StepPublishes(w, Run(w, s, events[..n]), events[n], item);
    }
  }

  // ---- metadata ----

  /** A version's metadata names a block no later than any row of that version. */
  ghost predicate MetaNotLater(d: Store) {
    forall n :: n in d.blocks ==> d.blocks[n].spec in d.metas && d.metas[d.blocks[n].spec].number <= n
  }

  /** Exactly when archiving a message leaves its row in the table: nothing before the insert fails,
      not even publishing new metadata to Kafka, and the insert takes effect. */
  predicate StoresRow(d: Store, m: Message, f: Faults) {
    && f.checkWorks
    && (m.row.spec in d.metas || (f.metadataKnown && f.insertMeta.Done? && f.sendMeta.Done?))
    && m.number < PARTITION_END && Effective(f.insertBlock)
  }

  /** The message would be stored although its version's metadata names a later block. */
  predicate Undercuts(d: Store, m: Message, f: Faults) {
    StoresRow(d, m, f) && m.row.spec in d.metas && d.metas[m.row.spec].number > m.number
  }

  lemma RowNotLater(d: Store, e: Store, m: Message)
    requires MetaNotLater(d) && m.row.spec in d.metas
    requires e.metas == d.metas && e.blocks == d.blocks[m.number := m.row]
    ensures MetaNotLater(e) <==> d.metas[m.row.spec].number <= m.number
  {
    assert m.number in e.blocks && e.blocks[m.number] == m.row;
  }

  /** Exactly which messages keep this, whatever fails on the way. */
  lemma NotLaterExactly(d: Store, m: Message, f: Faults)
    requires MetaNotLater(d)
    ensures MetaNotLater(StoreMessage(d, m, f).0) <==> !Undercuts(d, m, f)
  {
    var e := StoreMeta(d, m, f).0;
    assert MetaNotLater(e);
    if StoreMeta(d, m, f).1.Continue? && Accepts(e, m) && Effective(f.insertBlock) {
      RowNotLater(e, StoreBlock(e, m, f), m);
    }
  }

  /** The step archives such a message. */
  predicate UndercutsNow(s: State, e: Event) {
    (e.Archive? || e.ArchiveThenCrash?) && !s.archiverHalted && s.archQ != [] && Undercuts(s.db, s.archQ[0], e.faults)
  }

  lemma StepNotLater(w: World, s: State, e: Event)
    requires MetaNotLater(s.db)
    ensures MetaNotLater(Step(w, s, e).db) <==> !UndercutsNow(s, e)
  {
    if (e.Archive? || e.ArchiveThenCrash?) && s.archQ != [] {
      NotLaterExactly(s.db, s.archQ[0], e.faults);
    }
  }

  ghost predicate NeverUndercuts(w: World, s: State, events: seq<Event>) {
    events != [] ==>
      var n := |events| - 1;
      NeverUndercuts(w, s, events[..n]) && !UndercutsNow(Run(w, s, events[..n]), events[n])
  }

  /** After every step of a run no row precedes the block its version's metadata names. */
  ghost predicate NotLaterThroughout(w: World, s: State, events: seq<Event>) {
    && MetaNotLater(Run(w, s, events).db)
    && (events != [] ==> NotLaterThroughout(w, s, events[..|events| - 1]))
  }

  /** With any faults and crashes that is so exactly if no step archives a message that undercuts. */
  lemma {:induction false} MetadataNotLaterExactly(w: World, s: State, events: seq<Event>)
    requires MetaNotLater(s.db)
    ensures NotLaterThroughout(w, s, events) <==> NeverUndercuts(w, s, events)
  {
    if events != [] {
      var n := |events| - 1;
      MetadataNotLaterExactly(w, s, events[..n]);
      if MetaNotLater(Run(w, s, events[..n]).db) {
        StepNotLater(w, Run(w, s, events[..n]), events[n]);
      }
    }
  }

  /** Whenever the process starts, it starts no lower than the blocks the metadata rows name. */
  ghost predicate StartsAbove(w: World, s: State, events: seq<Event>) {
    events != [] ==>
      var n := |events| - 1;
      var before := Run(w, s, events[..n]);
      && StartsAbove(w, s, events[..n])
      && (events[n].Start? && !before.started ==>
            forall v :: v in before.db.metas ==> before.db.metas[v].number <= StartNumber(before.db))
  }

  /** Nothing in flight is below a block named by metadata. */
  ghost predicate MetasPassed(s: State) {
    forall v :: v in s.db.metas ==> AtLeast(s, s.db.metas[v].number)
  }

  lemma MessageNames(d: Store, m: Message, f: Faults, v: Spec)
    ensures var e := StoreMessage(d, m, f).0;
            v in e.metas ==> (v in d.metas && e.metas[v] == d.metas[v]) || e.metas[v].number == m.number
  {
  }

  lemma ArchivePassed(s: State, f: Faults)
    requires Rising(s) && MetasPassed(s)
    ensures MetasPassed(ArchiveStep(s, f))
  {
    if !s.archiverHalted && s.archQ != [] {
      var t := ArchiveStep(s, f);
      forall v | v in t.db.metas
        ensures AtLeast(t, t.db.metas[v].number)
      {
        MessageNames(s.db, s.archQ[0], f, v);
      }
    }
  }

  lemma PassedStep(w: World, s: State, e: Event)
    requires Rising(s) && MetasPassed(s)
    requires e.Start? && !s.started ==> forall v :: v in s.db.metas ==> s.db.metas[v].number <= StartNumber(s.db)
    ensures MetasPassed(Step(w, s, e))
  {
    match e
    case Archive(f) => ArchivePassed(s, f);
    case ArchiveThenCrash(f) => ArchivePassed(s, f);
    case _ =>
  }

  /** Under any faults and crashes, if the process never starts below a block that metadata names, no
      row precedes the block its version's metadata names. */
  lemma {:induction false} MetadataNotLater(w: World, s: State, events: seq<Event>)
    requires Fresh(s) && MetaNotLater(s.db) && StartsAbove(w, s, events)
    ensures MetaNotLater(Run(w, s, events).db) && MetasPassed(Run(w, s, events))
  {
    if events != [] {
      var n := |events| - 1;
      MetadataNotLater(w, s, events[..n]);
      RisingAlways(w, s, events[..n]);
      PassedStep(w, Run(w, s, events[..n]), events[n]);
      StepNotLater(w, Run(w, s, events[..n]), events[n]);
    }
  }
}
