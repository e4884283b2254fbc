/** Gap-freedom of the archive: when the archived blocks form an interval, across crashes and restarts,
    and what then holds of their headers and of the metadata. */
module ArchiveSafety {
  import opened ArchivePipeline
  import opened ArchiveLoop
  import opened ArchiveWrites

  /** The message at the head of the queue is stored. */
  predicate Stores(s: State, f: Faults)
    requires s.archQ != []
  {
    StoresRow(s.db, s.archQ[0], f)
  }

  lemma StoresExactly(s: State, f: Faults)
    requires !s.archiverHalted && s.archQ != []
    ensures ArchiveStep(s, f).db.blocks ==
            if Stores(s, f) then s.db.blocks[s.archQ[0].number := s.archQ[0].row] else s.db.blocks
  {
  }

  /** Over every run no block from number 10,000,000 on gets into the table. */
  lemma {:induction false} NothingBeyondPartitions(w: World, s: State, events: seq<Event>)
    requires forall n :: n in s.db.blocks ==> n < 10_000_000
    ensures forall n :: n in Run(w, s, events).db.blocks ==> n < 10_000_000
  {
    if events != [] {
      var before, e := Run(w, s, events[..|events| - 1]), events[|events| - 1];
      NothingBeyondPartitions(w, s, events[..|events| - 1]);
      if (e.Archive? || e.ArchiveThenCrash?) && !before.archiverHalted && before.archQ != [] {
        StoresExactly(before, e.faults);
      }
    }
  }

  /** The archiver stops for good: the version is new and its metadata cannot be had. */
  predicate Halts(s: State, f: Faults)
    requires s.archQ != []
  {
    f.checkWorks && s.archQ[0].row.spec !in s.db.metas && !f.metadataKnown
  }

  /** The archiver is not asked to go on past a block it could not store: it stores it or has it
      already, or stops, or the process crashes. `low` and `high` bound the first block of an empty
      archive. */
  predicate Allowed(s: State, low: nat, high: nat, e: Event) {
    match e
    case Archive(f) =>
      s.archQ == [] || s.archiverHalted || s.archQ[0].number in s.db.blocks || Stores(s, f) || Halts(s, f)
    case Execute(a) => s.execQ != [] && s.execQ[0] == 0 ==> if a.readable then low == 0 else high == 1
    case _ => true
  }

  ghost predicate Interval(keys: set<nat>) {
    forall a, b, k: nat :: a in keys && b in keys && a <= k <= b ==> k in keys
  }

  /** `n` may be archived next: the last block again, or the one after it. */
  ghost predicate Frontier(low: nat, high: nat, keys: set<nat>, n: nat) {
    if keys == {} then low <= n <= high
    else (n in keys || (n > 0 && n - 1 in keys)) && forall k :: k in keys ==> k <= n
  }

  /** A frontier block extends an interval to an interval. */
  lemma IntervalOn(low: nat, high: nat, keys: set<nat>, n: nat)
    requires Interval(keys) && Frontier(low, high, keys, n)
    ensures Interval(keys + {n})
  {
    forall a, b, k: nat | a in keys + {n} && b in keys + {n} && a <= k <= b
      ensures k in keys + {n}
    {
      if n !in keys && b == n && k < n && keys != {} {
        assert a in keys && n - 1 in keys;
      }
    }
  }

  /** Adding a block above all others. */
  lemma IntervalAdds(keys: set<nat>, n: nat)
    requires Interval(keys) && forall k :: k in keys ==> k <= n
    ensures Interval(keys + {n}) <==> keys == {} || n in keys || (n > 0 && n - 1 in keys)
  {
    if keys == {} || n in keys || (n > 0 && n - 1 in keys) {
      IntervalOn(n, n, keys, n);
    } else {
      var k :| k in keys;
      assert k in keys + {n} && n in keys + {n} && n - 1 !in keys + {n};
    }
  }

  /** The step stores a new block although the one below it is missing. */
  predicate SkipsNow(s: State, e: Event) {
    && (e.Archive? || e.ArchiveThenCrash?) && !s.archiverHalted && s.archQ != [] && Stores(s, e.faults)
    && var n := s.archQ[0].number;
    s.db.blocks != map[] && n !in s.db.blocks && (n == 0 || n - 1 !in s.db.blocks)
  }

  lemma IntervalStep(w: World, s: State, e: Event)
    requires Rising(s) && Interval(s.db.blocks.Keys)
    ensures Interval(Step(w, s, e).db.blocks.Keys) <==> !SkipsNow(s, e)
  {
    if (e.Archive? || e.ArchiveThenCrash?) && !s.archiverHalted && s.archQ != [] {
      var m := s.archQ[0];
      StoresExactly(s, e.faults);
      IntervalAdds(s.db.blocks.Keys, m.number);
      assert s.db.blocks[m.number := m.row].Keys == s.db.blocks.Keys + {m.number};
    }
  }

  ghost predicate NeverSkips(w: World, s: State, events: seq<Event>) {
    events != [] ==>
      var n := |events| - 1;
      NeverSkips(w, s, events[..n]) && !SkipsNow(Run(w, s, events[..n]), events[n])
  }

  /** After every step the archived blocks form an interval. */
  ghost predicate IntervalThroughout(w: World, s: State, events: seq<Event>) {
    && Interval(Run(w, s, events).db.blocks.Keys)
    && (events != [] ==> IntervalThroughout(w, s, events[..|events| - 1]))
  }

  /** With any faults, crashes and restarts from the maximum, that is so exactly if no step stores a
      block above a missing one. */
  lemma {:induction false} IntervalExactly(w: World, s: State, events: seq<Event>)
    requires Fresh(s) && Interval(s.db.blocks.Keys)
    ensures IntervalThroughout(w, s, events) <==> NeverSkips(w, s, events)
  {
    if events != [] {
      var n := |events| - 1;
      IntervalExactly(w, s, events[..n]);
      RisingAlways(w, s, events[..n]);
      if Interval(Run(w, s, events[..n]).db.blocks.Keys) {
        IntervalStep(w, Run(w, s, events[..n]), events[n]);
      }
    }
  }

  lemma TableAfter(s: State, f: Faults)
    requires !s.archiverHalted && s.archQ != []
    ensures var t := ArchiveStep(s, f);
            && t.db.blocks.Keys == s.db.blocks.Keys + (if Stores(s, f) then {s.archQ[0].number} else {})
            && t.archiverHalted == Halts(s, f)
            && (!Halts(s, f) ==> t.archQ == s.archQ[1..])
  {
    StoresExactly(s, f);
    assert s.db.blocks[s.archQ[0].number := s.archQ[0].row].Keys == s.db.blocks.Keys + {s.archQ[0].number};
  }

  lemma OneOrTwoMore(keys: set<nat>, n: nat)
    requires Interval(keys) && keys != {} && n !in keys && Frontier(0, 1, keys, n)
    ensures Interval(keys + {n}) && Interval(keys + {n} + {n + 1}) && !Interval(keys + {n + 1})
  {
    IntervalAdds(keys, n);
    IntervalAdds(keys + {n}, n + 1);
    IntervalAdds(keys, n + 1);
  }

  /** Exactly when archiving a new block and then the next one leaves a gap: the second is stored if
      the archiver still runs, so the first must be stored or stop the archiver. */
  lemma GapExactly(s: State, f: Faults, g: Faults)
    requires !s.archiverHalted && |s.archQ| > 1 && s.archQ[1].number == s.archQ[0].number + 1
    requires s.db.blocks != map[] && Interval(s.db.blocks.Keys) && s.archQ[0].number !in s.db.blocks
    requires Frontier(0, 1, s.db.blocks.Keys, s.archQ[0].number)
    requires Halts(s, f) || Stores(ArchiveStep(s, f), g)
    ensures Interval(ArchiveStep(ArchiveStep(s, f), g).db.blocks.Keys) <==> Stores(s, f) || Halts(s, f)
  {
    var keys, n, t := s.db.blocks.Keys, s.archQ[0].number, ArchiveStep(s, f);
    OneOrTwoMore(keys, n);
    TableAfter(s, f);
    if !Halts(s, f) {
      assert t.archQ[0].number == n + 1;
      TableAfter(t, g);
      assert ArchiveStep(t, g).db.blocks.Keys == keys + (if Stores(s, f) then {n} else {}) + {n + 1};
      assert keys + {} == keys;
    }
  }

  ghost function Numbers(q: seq<Message>): set<nat> {
    set i | 0 <= i < |q| :: q[i].number
  }

  /** Each queued message continues what the table and the messages before it hold. */
  ghost predicate Feeds(low: nat, high: nat, keys: set<nat>, q: seq<Message>)
    decreases |q|
  {
    q != [] ==> Frontier(low, high, keys, q[0].number) && Feeds(low, high, keys + {q[0].number}, q[1..])
  }

  lemma NumbersSplit(q: seq<Message>)
    ensures q == [] ==> Numbers(q) == {}
    ensures q != [] ==> Numbers(q) == {q[0].number} + Numbers(q[1..])
  {
    if q != [] {
      forall n | n in Numbers(q)
        ensures n in {q[0].number} + Numbers(q[1..])
      {
        var i :| 0 <= i < |q| && q[i].number == n;
        if i > 0 {
          assert q[1..][i - 1].number == n;
        }
      }
      forall n | n in Numbers(q[1..])
        ensures n in Numbers(q)
      {
        var i :| 0 <= i < |q[1..]| && q[1..][i].number == n;
        assert q[i + 1].number == n;
      }
    }
  }

  lemma {:induction false} FeedsOn(low: nat, high: nat, keys: set<nat>, q: seq<Message>, m: Message)
    requires Feeds(low, high, keys, q) && Frontier(low, high, keys + Numbers(q), m.number)
    ensures Feeds(low, high, keys, q + [m])
    decreases |q|
  {
    NumbersSplit(q);
    if q == [] {
      assert keys + Numbers(q) == keys;
    } else {
      assert (q + [m])[1..] == q[1..] + [m];
      assert keys + {q[0].number} + Numbers(q[1..]) == keys + Numbers(q);
      FeedsOn(low, high, keys + {q[0].number}, q[1..], m);
    }
  }

  lemma NumbersOn(q: seq<Message>, m: Message)
    ensures Numbers(q + [m]) == Numbers(q) + {m.number}
  {
    forall n | n in Numbers(q) + {m.number}
      ensures n in Numbers(q + [m])
    {
      if n in Numbers(q) {
        var i :| 0 <= i < |q| && q[i].number == n;
        assert (q + [m])[i].number == n;
      } else {
        assert (q + [m])[|q|].number == n;
      }
    }
  }

  /** Stored blocks together with those on their way to the table. */
  ghost function Covered(s: State): set<nat> {
    s.db.blocks.Keys + Numbers(s.archQ)
  }

  /** The circulating number fits what is covered: the comparer holds the last block covered (or
      genesis that could not be read), the executor a block that may be archived next. */
  ghost predicate TokenFits(low: nat, high: nat, s: State) {
    && (s.compQ != [] ==>
          || (s.compQ[0] in Covered(s) && forall k :: k in Covered(s) ==> k <= s.compQ[0])
          || (Covered(s) == {} && s.compQ[0] == 0 && high == 1))
    && (s.execQ != [] ==>
          || Frontier(low, high, Covered(s), s.execQ[0])
          || (Covered(s) == {} && s.execQ[0] == 0))
  }

  ghost predicate HeaderOf(w: World, n: nat, row: Row) {
    row.spec == w.block(n).spec && row.hash == w.block(n).hash && row.parent == w.block(n).parent
  }

  ghost predicate Faithful(w: World, s: State) {
    && (forall n :: n in s.db.blocks ==> HeaderOf(w, n, s.db.blocks[n]))
    && (forall i :: 0 <= i < |s.archQ| ==> HeaderOf(w, s.archQ[i].number, s.archQ[i].row))
  }

  ghost predicate Inv(w: World, low: nat, high: nat, s: State) {
    && low <= high <= 1
    && OneToken(s)
    && (!s.started ==> s.archQ == [] && !s.executorHalted && !s.archiverHalted)
    && Faithful(w, s)
    && Interval(s.db.blocks.Keys)
    && (!s.archiverHalted ==> Feeds(low, high, s.db.blocks.Keys, s.archQ) && TokenFits(low, high, s))
  }

  lemma StartKeeps(w: World, low: nat, high: nat, s: State)
    requires Inv(w, low, high, s)
    ensures Inv(w, low, high, StartStep(s))
  {
    var t := StartStep(s);
    if !s.started {
      NumbersSplit(s.archQ);
      assert Covered(t) == s.db.blocks.Keys;
      assert s.db.blocks == map[] <==> s.db.blocks.Keys == {};
    }
  }

  lemma QueuedKeeps(w: World, low: nat, high: nat, s: State, n: nat, m: Message)
    requires Inv(w, low, high, s) && !s.archiverHalted && !s.executorHalted && s.execQ == [n]
    requires m.number == n && HeaderOf(w, n, m.row) && Frontier(low, high, Covered(s), n)
    ensures Inv(w, low, high, s.(execQ := [], archQ := s.archQ + [m], compQ := s.compQ + [n]))
  {
    var t := s.(execQ := [], archQ := s.archQ + [m], compQ := s.compQ + [n]);
    FeedsOn(low, high, s.db.blocks.Keys, s.archQ, m);
    NumbersOn(s.archQ, m);
    assert Covered(t) == Covered(s) + {n};
  }

  lemma ExecuteKeeps(w: World, low: nat, high: nat, s: State, a: Attempt)
    requires Inv(w, low, high, s) && Allowed(s, low, high, Execute(a))
    ensures Inv(w, low, high, ExecuteStep(w, s, a))
  {
    var t := ExecuteStep(w, s, a);
    if !s.executorHalted && s.execQ != [] {
      var n := s.execQ[0];
      assert s.execQ == [n];
      if a.readable && a.versionKnown && !s.archiverHalted {
        QueuedKeeps(w, low, high, s, n, Message(n, RowOf(w, n, a.succeeds)));
      } else {
        assert Covered(t) == Covered(s);
      }
    }
  }

  lemma CompareKeeps(w: World, low: nat, high: nat, s: State)
    requires Inv(w, low, high, s)
    ensures Inv(w, low, high, CompareStep(s))
  {
    if s.compQ != [] {
      assert Covered(CompareStep(s)) == Covered(s);
    }
  }

  /** The message at the head went to the table, or its block is there already. */
  lemma StoredKeeps(w: World, low: nat, high: nat, s: State, t: State)
    requires Inv(w, low, high, s) && !s.archiverHalted && s.archQ != [] && t == s.(archQ := s.archQ[1..], db := t.db)
    requires var m := s.archQ[0];
             t.db.blocks == s.db.blocks[m.number := m.row] || (t.db.blocks == s.db.blocks && m.number in s.db.blocks)
    ensures Inv(w, low, high, t)
  {
    var m := s.archQ[0];
    IntervalOn(low, high, s.db.blocks.Keys, m.number);
    NumbersSplit(s.archQ);
    assert t.db.blocks.Keys == s.db.blocks.Keys + {m.number};
    assert Covered(t) == Covered(s);
  }

  lemma ArchiveKeeps(w: World, low: nat, high: nat, s: State, f: Faults)
    requires Inv(w, low, high, s) && Allowed(s, low, high, Archive(f))
    ensures Inv(w, low, high, ArchiveStep(s, f))
  {
    if !s.archiverHalted && s.archQ != [] {
      if !Halts(s, f) {
        MessageStoresItself(s.db, s.archQ[0], f);
        StoredKeeps(w, low, high, s, ArchiveStep(s, f));
      }
    }
  }

  lemma CrashedKeeps(w: World, low: nat, high: nat, s: State, d: Store)
    requires Inv(w, low, high, s)
    requires || d.blocks == s.db.blocks
             || (!s.archiverHalted && s.archQ != [] && d.blocks == s.db.blocks[s.archQ[0].number := s.archQ[0].row])
    ensures Inv(w, low, high, CrashStep(s.(db := d)))
  {
    if d.blocks != s.db.blocks {
      IntervalOn(low, high, s.db.blocks.Keys, s.archQ[0].number);
      assert d.blocks.Keys == s.db.blocks.Keys + {s.archQ[0].number};
    }
  }

  /** An interrupted attempt stores the block or leaves the table alone. */
  lemma CrashKeeps(w: World, low: nat, high: nat, s: State, f: Faults)
    requires Inv(w, low, high, s)
    ensures Inv(w, low, high, CrashStep(s)) && Inv(w, low, high, CrashStep(ArchiveStep(s, f)))
  {
    CrashedKeeps(w, low, high, s, s.db);
    if !s.archiverHalted && s.archQ != [] {
      MessageStoresItself(s.db, s.archQ[0], f);
      CrashedKeeps(w, low, high, s, ArchiveStep(s, f).db);
      assert CrashStep(ArchiveStep(s, f)) == CrashStep(s.(db := ArchiveStep(s, f).db));
    }
  }

  lemma StepKeeps(w: World, low: nat, high: nat, s: State, e: Event)
    requires Inv(w, low, high, s) && Allowed(s, low, high, e)
    ensures Inv(w, low, high, Step(w, s, e))
  {
    match e
    case Start => StartKeeps(w, low, high, s);
    case Execute(a) => ExecuteKeeps(w, low, high, s, a);
    case Compare => CompareKeeps(w, low, high, s);
    case Archive(f) => ArchiveKeeps(w, low, high, s, f);
    case Crash => CrashKeeps(w, low, high, s, Faults(false, false, Failed, Failed, Failed, Failed));
    case ArchiveThenCrash(f) => CrashKeeps(w, low, high, s, f);
    case Grow(_) => assert Covered(Step(w, s, e)) == Covered(s);
  }

  ghost predicate AllowedRun(w: World, low: nat, high: nat, s: State, events: seq<Event>) {
    forall i :: 0 <= i < |events| ==> Allowed(Run(w, s, events[..i]), low, high, events[i])
  }

  lemma AllowedPrefix(w: World, low: nat, high: nat, s: State, events: seq<Event>)
    requires events != [] && AllowedRun(w, low, high, s, events)
    ensures AllowedRun(w, low, high, s, events[..|events| - 1])
    ensures Allowed(Run(w, s, events[..|events| - 1]), low, high, events[|events| - 1])
  {
    var front := events[..|events| - 1];
    forall i | 0 <= i < |front|
      ensures Allowed(Run(w, s, front[..i]), low, high, front[i])
    {
      assert front[..i] == events[..i];
    }
  }

  lemma {:induction false} RunKeeps(w: World, low: nat, high: nat, s: State, events: seq<Event>)
    requires Inv(w, low, high, s) && AllowedRun(w, low, high, s, events)
    ensures Inv(w, low, high, Run(w, s, events))
  {
    if events != [] {
      AllowedPrefix(w, low, high, s, events);
      RunKeeps(w, low, high, s, events[..|events| - 1]);
      StepKeeps(w, low, high, Run(w, s, events[..|events| - 1]), events[|events| - 1]);
    }
  }

  ghost predicate Linked(blocks: map<nat, Row>) {
    forall n :: n in blocks && n + 1 in blocks ==> blocks[n + 1].parent == blocks[n].hash
  }

  /** Gap-freedom across crashes: from tables holding an interval of the chain, any number of crashes
      at any step, lost queues and restarts from the maximum later, the archived blocks still form
      an interval, neighbours are hash-linked, and exactly one number circulates. */
  lemma ArchiveIsInterval(w: World, s: State, events: seq<Event>)
    requires forall n: nat :: w.block(n + 1).parent == w.block(n).hash
    requires Fresh(s) && Interval(s.db.blocks.Keys) && forall n :: n in s.db.blocks ==> HeaderOf(w, n, s.db.blocks[n])
    requires AllowedRun(w, 0, 1, s, events)
    ensures Interval(Run(w, s, events).db.blocks.Keys)
    ensures Linked(Run(w, s, events).db.blocks)
    ensures OneToken(Run(w, s, events))
  {
    RunKeeps(w, 0, 1, s, events);
  }

  /** The only way the table changes: the next block of the frontier is stored. */
  lemma TableGrows(w: World, low: nat, high: nat, s: State, e: Event)
    requires Inv(w, low, high, s) && Allowed(s, low, high, e)
    ensures var t := Step(w, s, e);
            || t.db.blocks == s.db.blocks
            || (&& !s.archiverHalted && s.archQ != []
                && t.db.blocks == s.db.blocks[s.archQ[0].number := s.archQ[0].row]
                && t.db.blocks.Keys == s.db.blocks.Keys + {s.archQ[0].number}
                && Frontier(low, high, s.db.blocks.Keys, s.archQ[0].number))
  {
    if (e.Archive? || e.ArchiveThenCrash?) && !s.archiverHalted && s.archQ != [] {
      MessageStoresItself(s.db, s.archQ[0], e.faults);
    }
  }

  lemma {:induction false} LowestBlock(w: World, low: nat, high: nat, s: State, events: seq<Event>)
    requires Inv(w, low, high, s) && s.db.blocks == map[] && AllowedRun(w, low, high, s, events)
    ensures var keys := Run(w, s, events).db.blocks.Keys;
            keys != {} ==> exists k :: low <= k <= high && k in keys
  {
    if events != [] {
      var front := events[..|events| - 1];
      AllowedPrefix(w, low, high, s, events);
      RunKeeps(w, low, high, s, front);
      LowestBlock(w, low, high, s, front);
      TableGrows(w, low, high, Run(w, s, front), events[|events| - 1]);
      var keys := Run(w, s, front).db.blocks.Keys;
      if keys != {} {
        var k :| low <= k <= high && k in keys;
        assert k in Run(w, s, events).db.blocks.Keys;
      }
    }
  }

  /** An archive that was empty at first holds block 0 or 1 as soon as it holds anything: it lacks at
      most genesis at the bottom, and not even that if genesis can always be read (`high` is 0). */
  lemma LacksAtMostGenesis(w: World, low: nat, high: nat, s: State, events: seq<Event>)
    requires Fresh(s) && s.db.blocks == map[] && low <= high <= 1 && AllowedRun(w, low, high, s, events)
    ensures var keys := Run(w, s, events).db.blocks.Keys;
            keys != {} ==> exists k :: low <= k <= high && k in keys
  {
    LowestBlock(w, low, high, s, events);
  }

  /** `v` is named by a block of its version that is archived, or next in line, and no later than any
      archived block of it. */
  ghost predicate NamesFirst(w: World, low: nat, d: Store, v: Spec)
    requires v in d.metas
  {
    var m := d.metas[v].number;
    && w.block(m).spec == v
    && (m in d.blocks || Frontier(low, low, d.blocks.Keys, m))
    && forall n :: n in d.blocks && d.blocks[n].spec == v ==> m <= n
  }

  /** The block recorded with a version's metadata is the first archived block of that version; it
      is archived itself, or next in line after an interruption. */
  ghost predicate MetaFirst(w: World, low: nat, d: Store) {
    forall v :: v in d.metas ==> NamesFirst(w, low, d, v)
  }

  lemma RowNamesFirst(w: World, low: nat, d: Store, e: Store, m: Message)
    requires MetaFirst(w, low, d) && HeaderOf(w, m.number, m.row)
    requires Frontier(low, low, d.blocks.Keys, m.number)
    requires m.number in d.blocks ==> HeaderOf(w, m.number, d.blocks[m.number])
    requires m.row.spec in d.metas && e.metas == d.metas && e.blocks == d.blocks[m.number := m.row]
    ensures MetaFirst(w, low, e)
  {
    assert e.blocks.Keys == d.blocks.Keys + {m.number};
    forall v | v in e.metas
      ensures NamesFirst(w, low, e, v)
    {
      assert NamesFirst(w, low, d, v);
    }
  }

  lemma MetaFirstBlock(w: World, low: nat, d: Store, m: Message, f: Faults)
    requires MetaFirst(w, low, d) && HeaderOf(w, m.number, m.row)
    requires Frontier(low, low, d.blocks.Keys, m.number)
    requires m.number in d.blocks ==> HeaderOf(w, m.number, d.blocks[m.number])
    ensures MetaFirst(w, low, StoreBlock(d, m, f))
  {
    if Accepts(d, m) && Effective(f.insertBlock) {
      RowNamesFirst(w, low, d, StoreBlock(d, m, f), m);
    }
  }

  lemma NewVersionNamesFirst(w: World, low: nat, d: Store, e: Store, m: Message)
    requires MetaFirst(w, low, d) && Referenced(d) && HeaderOf(w, m.number, m.row)
    requires Frontier(low, low, d.blocks.Keys, m.number)
    requires m.row.spec !in d.metas && e.blocks == d.blocks
    requires e.metas == d.metas[m.row.spec := MetaRow(m.number, m.row.hash)]
    ensures MetaFirst(w, low, e)
  {
    forall v | v in e.metas
      ensures NamesFirst(w, low, e, v)
    {
      assert v in d.metas ==> NamesFirst(w, low, d, v);
    }
  }

  lemma MetaFirstMeta(w: World, low: nat, d: Store, m: Message, f: Faults)
    requires MetaFirst(w, low, d) && Referenced(d) && HeaderOf(w, m.number, m.row)
    requires Frontier(low, low, d.blocks.Keys, m.number)
    ensures MetaFirst(w, low, StoreMeta(d, m, f).0) && StoreMeta(d, m, f).0.blocks == d.blocks
  {
    var e := StoreMeta(d, m, f).0;
    if e.metas == d.metas {
      assert forall v :: v in d.metas && NamesFirst(w, low, d, v) ==> NamesFirst(w, low, e, v);
    } else {
      NewVersionNamesFirst(w, low, d, e, m);
    }
  }

  lemma MetaFirstStep(w: World, low: nat, s: State, e: Event)
    requires Inv(w, low, low, s) && Referenced(s.db) && MetaFirst(w, low, s.db)
    ensures MetaFirst(w, low, Step(w, s, e).db)
  {
    if (e.Archive? || e.ArchiveThenCrash?) && !s.archiverHalted && s.archQ != [] {
      var m := s.archQ[0];
      MetaFirstMeta(w, low, s.db, m, e.faults);
      MetaFirstBlock(w, low, StoreMeta(s.db, m, e.faults).0, m, e.faults);
    }
  }

  /** Throughout the runs of gap-freedom in which reading genesis either always works or never does,
      a metadata row names the first block of its version. */
  lemma {:induction false} MetadataNamesFirstBlock(w: World, low: nat, s: State, events: seq<Event>)
    requires Fresh(s) && low <= 1 && AllowedRun(w, low, low, s, events)
    requires Interval(s.db.blocks.Keys) && forall n :: n in s.db.blocks ==> HeaderOf(w, n, s.db.blocks[n])
    requires Ordered(s.db.history) && Referenced(s.db) && MetaFirst(w, low, s.db)
    ensures MetaFirst(w, low, Run(w, s, events).db)
  {
    if events != [] {
      var front := events[..|events| - 1];
      AllowedPrefix(w, low, low, s, events);
      RunKeeps(w, low, low, s, front);
      WritesAreOrdered(w, s, front);
      MetadataNamesFirstBlock(w, low, s, front);
      MetaFirstStep(w, low, Run(w, s, front), events[|events| - 1]);
    }
  }
}
