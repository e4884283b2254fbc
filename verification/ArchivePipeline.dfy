/** The archive pipeline: executor, comparer and archiver connected by queues, Postgres tables that
    outlive crashes, and the Kafka log. */
module ArchivePipeline {
  import opened Results

  type Key = nat
  type Value = nat
  type Spec = nat
  type Hash = nat

  /** One block of the append-only chain. `changes` is the runtime's storage delta. */
  datatype BlockData = BlockData(spec: Spec, hash: Hash, parent: Hash, changes: seq<(Key, Option<Value>)>)

  datatype World = World(block: nat -> BlockData, genesisTop: map<Key, Value>)

  datatype Row = Row(spec: Spec, hash: Hash, parent: Hash, mainChanges: map<Key, Option<Value>>)

  datatype MetaRow = MetaRow(number: nat, hash: Hash)

  datatype Message = Message(number: nat, row: Row)

  /** What was written where, in order. */
  datatype Item =
    | DbMeta(spec: Spec, meta: MetaRow)
    | KafkaMeta(spec: Spec, meta: MetaRow)
    | DbBlock(number: nat, row: Row)
    | KafkaBlock(number: nat, row: Row)

  /** What outlives a crash: the two tables, and the order of all writes and publications. */
  datatype Store = Store(blocks: map<nat, Row>, metas: map<Spec, MetaRow>, history: seq<Item>)

  datatype State = State(
    best: nat,
    execQ: seq<nat>,
    compQ: seq<nat>,
    archQ: seq<Message>,
    started: bool,
    executorHalted: bool,
    archiverHalted: bool,
    db: Store)

  /** No partition takes blocks from here on. */
  const PARTITION_END: nat := 10_000_000

  /** What executing a block meets: its body and parent state readable, the execution itself
      successful, its runtime version readable. */
  datatype Attempt = Attempt(readable: bool, succeeds: bool, versionKnown: bool)

  /** A write takes effect, or fails, or takes effect although its acknowledgement is lost. */
  datatype Write = Done | Failed | Lost

  datatype Faults = Faults(
    checkWorks: bool, metadataKnown: bool,
    insertMeta: Write, sendMeta: Write, insertBlock: Write, sendBlock: Write)

  datatype Event =
    | Start
    | Execute(attempt: Attempt)
    | Compare
    | Archive(faults: Faults)
    | Crash
    | ArchiveThenCrash(faults: Faults)
    | Grow(best: nat)

  /** The last change of a key wins. */
  function Collect(changes: seq<(Key, Option<Value>)>): map<Key, Option<Value>> {
    if changes == [] then map[]
    else
      var n := |changes| - 1;
      Collect(changes[..n])[changes[n].0 := changes[n].1]
  }

  /** Genesis is taken from the chain specification; any other block from its execution, whose
      failure goes unnoticed and leaves no changes. */
  function RowOf(w: World, n: nat, succeeds: bool): Row {
    var b := w.block(n);
    Row(b.spec, b.hash, b.parent,
        if n == 0 then map k | k in w.genesisTop :: Some(w.genesisTop[k])
        else if succeeds then Collect(b.changes)
        else map[])
  }

  lemma {:induction false} MaxExists(s: set<nat>) returns (top: nat)
    requires s != {}
    ensures top in s && forall k :: k in s ==> k <= top
    decreases s
  {
    var x :| x in s;
    var rest := s - {x};
    top := x;
    if rest != {} {
      var other := MaxExists(rest);
      top := if other > x then other else x;
    }
    forall k | k in s
      ensures k <= top
    {
      assert k == x || k in rest;
    }
  }

  function MaxKey(m: map<nat, Row>): (r: Option<nat>)
    ensures m == map[] ==> r.None?
    ensures m != map[] ==> r.Some? && r.value in m && forall k :: k in m ==> k <= r.value
  {
    if m == map[] then None
    else
      assert exists top: nat :: top in m && forall k :: k in m ==> k <= top by {
        var top := MaxExists(m.Keys);
      }
      var top: nat :| top in m && forall k :: k in m ==> k <= top;
      Some(top)
  }

  /** A start goes on from the largest archived block, or from genesis. */
  function StartNumber(d: Store): (n: nat)
    ensures d.blocks == map[] ==> n == 0
    ensures d.blocks != map[] ==> n in d.blocks && forall k :: k in d.blocks ==> k <= n
  {
    if MaxKey(d.blocks).Some? then MaxKey(d.blocks).value else 0
  }

  function StartStep(s: State): State {
    if s.started then s else s.(started := true, execQ := s.execQ + [StartNumber(s.db)])
  }

  function ExecuteStep(w: World, s: State, a: Attempt): State {
    if s.executorHalted || s.execQ == [] then s
    else
      var n := s.execQ[0];
      var t := s.(execQ := s.execQ[1..]);
      if !a.readable && n == 0 then t.(compQ := s.compQ + [0])
      else if !a.readable || !a.versionKnown then t.(executorHalted := true)
      else t.(archQ := if s.archiverHalted then s.archQ else s.archQ + [Message(n, RowOf(w, n, a.succeeds))],
              compQ := s.compQ + [n])
  }

  function CompareStep(s: State): State {
    if s.compQ == [] then s
    else
      var n := s.compQ[0];
      s.(compQ := s.compQ[1..], execQ := s.execQ + [if n < s.best then n + 1 else n])
  }

  predicate Effective(w: Write) {
    !w.Failed?
  }

  datatype Progress = Continue | Stop | Panic

  /** The metadata part of archiving, and how it ends. */
  function StoreMeta(d: Store, m: Message, f: Faults): (Store, Progress) {
    var spec := m.row.spec;
    if !f.checkWorks then (d, Stop)
    else if spec in d.metas then (d, Continue)
    else if !f.metadataKnown then (d, Panic)
    else if f.insertMeta.Failed? then (d, Stop)
    else
      var meta := MetaRow(m.number, m.row.hash);
      var e := d.(metas := d.metas[spec := meta], history := d.history + [DbMeta(spec, meta)]);
      if f.insertMeta.Lost? || f.sendMeta.Failed? then (e, Stop)
      else (e.(history := e.history + [KafkaMeta(spec, meta)]), if f.sendMeta.Done? then Continue else Stop)
  }

  /** The table takes a block below the partition limit whose version has a metadata row. */
  predicate Accepts(d: Store, m: Message) {
    m.number < PARTITION_END && m.row.spec in d.metas
  }

  function StoreBlock(d: Store, m: Message, f: Faults): Store {
    if !Accepts(d, m) || f.insertBlock.Failed? then d
    else
      var e := d.(blocks := d.blocks[m.number := m.row], history := d.history + [DbBlock(m.number, m.row)]);
      if f.insertBlock.Lost? || f.sendBlock.Failed? then e
      else e.(history := e.history + [KafkaBlock(m.number, m.row)])
  }

  function StoreMessage(d: Store, m: Message, f: Faults): (Store, Progress) {
    var r := StoreMeta(d, m, f);
    if r.1.Continue? then (StoreBlock(r.0, m, f), Stop) else r
  }

  function ArchiveStep(s: State, f: Faults): State {
    if s.archiverHalted || s.archQ == [] then s
    else
      var r := StoreMessage(s.db, s.archQ[0], f);
      if r.1.Panic? then s.(archiverHalted := true, archQ := [], db := r.0)
      else s.(archQ := s.archQ[1..], db := r.0)
  }

  /** Everything in flight is lost; the tables and Kafka stay. */
  function CrashStep(s: State): State {
    s.(execQ := [], compQ := [], archQ := [], started := false, executorHalted := false, archiverHalted := false)
  }

  function Step(w: World, s: State, e: Event): State {
    match e
    case Start => StartStep(s)
    case Execute(a) => ExecuteStep(w, s, a)
    case Compare => CompareStep(s)
    case Archive(f) => ArchiveStep(s, f)
    case Crash => CrashStep(s)
    case ArchiveThenCrash(f) => CrashStep(ArchiveStep(s, f))
    case Grow(best) => s.(best := if best > s.best then best else s.best)
  }

  function Run(w: World, s: State, events: seq<Event>): State {
    if events == [] then s else Step(w, Run(w, s, events[..|events| - 1]), events[|events| - 1])
  }

  /** The four tasks as the program runs them. */
  class Pipeline {
    var s: State
    const world: World

    constructor (world: World, best: nat, blocks: map<nat, Row>, metas: map<Spec, MetaRow>)
      ensures this.world == world
      ensures s == State(best, [], [], [], false, false, false, Store(blocks, metas, []))
    {
      this.world := world;
      s := State(best, [], [], [], false, false, false, Store(blocks, metas, []));
    }

    method Initialize(maxBlockNumber: Option<nat>)
      requires !s.started && maxBlockNumber == MaxKey(s.db.blocks)
      modifies this`s
      ensures s == StartStep(old(s))
    {
      var number := 0;
      if maxBlockNumber.Some? {
        number := maxBlockNumber.value;
      }
      s := s.(started := true, execQ := s.execQ + [number]);
    }

    /** Collects a delta the way the executor builds the JSON map. */
    static method CollectChanges(changes: seq<(Key, Option<Value>)>) returns (m: map<Key, Option<Value>>)
      ensures m == Collect(changes)
    {
      m := map[];
      for i := 0 to |changes|
        invariant m == Collect(changes[..i])
      {
        assert changes[..i + 1][..i] == changes[..i];
        m := m[changes[i].0 := changes[i].1];
      }
      assert changes[..|changes|] == changes;
    }

    method ExecutorArchive(a: Attempt)
      requires !s.executorHalted && s.execQ != []
      modifies this`s
      ensures s == ExecuteStep(world, old(s), a)
    {
      var number := s.execQ[0];
      s := s.(execQ := s.execQ[1..]);
      if !a.readable && number != 0 {
        s := s.(executorHalted := true);
        return;
      }
      if !a.readable {
        s := s.(compQ := s.compQ + [number]);
        return;
      }
      var b := world.block(number);
      var changes: map<Key, Option<Value>>;
      if number == 0 {
        changes := map k | k in world.genesisTop :: Some(world.genesisTop[k]);
      } else {
        changes := CollectChanges(if a.succeeds then b.changes else []);
      }
      if !a.versionKnown {
        s := s.(executorHalted := true);
        return;
      }
      var row := Row(b.spec, b.hash, b.parent, changes);
      if !s.archiverHalted {
        s := s.(archQ := s.archQ + [Message(number, row)]);
      }
      s := s.(compQ := s.compQ + [number]);
    }

    method ComparerCompare()
      requires s.compQ != []
      modifies this`s
      ensures s == CompareStep(old(s))
    {
      var number := s.compQ[0];
      s := s.(compQ := s.compQ[1..]);
      if number < s.best {
        s := s.(execQ := s.execQ + [number + 1]);
      } else {
        s := s.(execQ := s.execQ + [number]);
      }
    }

    /** An upsert keyed by spec version. */
    method InsertMetadata(m: Message, outcome: Write) returns (acknowledged: bool)
      modifies this`s
      ensures acknowledged == outcome.Done?
      ensures var meta := MetaRow(m.number, m.row.hash);
              s == if outcome.Failed? then old(s)
                   else old(s).(db := old(s).db.(metas := old(s).db.metas[m.row.spec := meta],
                                                 history := old(s).db.history + [DbMeta(m.row.spec, meta)]))
    {
      if !outcome.Failed? {
        var meta := MetaRow(m.number, m.row.hash);
        s := s.(db := s.db.(metas := s.db.metas[m.row.spec := meta],
                            history := s.db.history + [DbMeta(m.row.spec, meta)]));
      }
      acknowledged := outcome.Done?;
    }

    /** An upsert keyed by block number; the foreign key on the version always holds here. */
    method InsertBlock(m: Message, outcome: Write) returns (acknowledged: bool)
      requires m.row.spec in s.db.metas
      modifies this`s
      ensures acknowledged == (Accepts(old(s).db, m) && outcome.Done?)
      ensures s == if !Accepts(old(s).db, m) || outcome.Failed? then old(s)
                   else old(s).(db := old(s).db.(blocks := old(s).db.blocks[m.number := m.row],
                                                 history := old(s).db.history + [DbBlock(m.number, m.row)]))
    {
      if m.number >= PARTITION_END {
        return false;
      }
      if !outcome.Failed? {
        s := s.(db := s.db.(blocks := s.db.blocks[m.number := m.row],
                            history := s.db.history + [DbBlock(m.number, m.row)]));
      }
      acknowledged := outcome.Done?;
    }

    method Send(item: Item, outcome: Write) returns (acknowledged: bool)
      modifies this`s
      ensures acknowledged == outcome.Done?
      ensures s == if outcome.Failed? then old(s) else old(s).(db := old(s).db.(history := old(s).db.history + [item]))
    {
      if !outcome.Failed? {
        s := s.(db := s.db.(history := s.db.history + [item]));
      }
      acknowledged := outcome.Done?;
    }

    /** Metadata first if the version is new, then the block; the database before Kafka each time;
        the first failure ends it. */
    method NotifierArchive(f: Faults)
      requires !s.archiverHalted && s.archQ != []
      modifies this`s
      ensures s == ArchiveStep(old(s), f)
    {
      var m := s.archQ[0];
      s := s.(archQ := s.archQ[1..]);
      if !f.checkWorks {
        return;
      }
      var exist := m.row.spec in s.db.metas;
      if !exist {
        if !f.metadataKnown {
          s := s.(archiverHalted := true, archQ := []);
          return;
        }
        var inserted := InsertMetadata(m, f.insertMeta);
        if !inserted {
          return;
        }
        var sent := Send(KafkaMeta(m.row.spec, MetaRow(m.number, m.row.hash)), f.sendMeta);
        if !sent {
          return;
        }
      }
      var inserted := InsertBlock(m, f.insertBlock);
      if !inserted {
        return;
      }
      var _ := Send(KafkaBlock(m.number, m.row), f.sendBlock);
    }
  }
}
