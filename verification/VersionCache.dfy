/** The runtime version cache: versions keyed by a 64-bit hash of the code, filled by copy and swap
    from any number of threads. */
module VersionCache {
  import opened Results

  type Block = nat
  type Code = nat
  type Version = nat
  type CodeHash = nat
  type Cache = map<CodeHash, Version>

  /** The backend and the decoder: `code(b)` is None if the state of `b` is not available and
      Some(None) if that state holds no code; the hash is taken of the optional code. */
  datatype World = World(
    code: Block -> Option<Option<Code>>, hash: Option<Code> -> CodeHash, decode: Code -> Option<Version>)

  datatype Answer = Found(version: Version) | Absent | StateError | DecodeError | Panicked

  /** What decoding the block's code directly gives. */
  function Direct(w: World, b: Block): Answer {
    match w.code(b)
    case None => StateError
    case Some(None) => Panicked
    case Some(Some(c)) => if w.decode(c).Some? then Found(w.decode(c).value) else DecodeError
  }

  /** ... exactly when each answer is given; it is never absent. */
  lemma DirectAnswers(w: World, b: Block)
    ensures var code := w.code(b);
            && (Direct(w, b) == StateError <==> code.None?)
            && (Direct(w, b) == Panicked <==> code == Some(None))
            && (Direct(w, b) == DecodeError <==> exists c: Code :: code == Some(Some(c)) && w.decode(c).None?)
            && (forall v: Version ::
                  Direct(w, b) == Found(v) <==> exists c: Code :: code == Some(Some(c)) && w.decode(c) == Some(v))
            && Direct(w, b) != Absent
  {
    if w.code(b).Some? && w.code(b).value.Some? {
      var c := w.code(b).value.value;
      assert w.code(b) == Some(Some(c));
    }
  }

  /** Where a call of get_by_id stands. */
  datatype Stage =
    | Start
    | Read(code: Option<Code>)
    | Hit(code: Option<Code>)
    | Miss(code: Option<Code>)
    | Decoded(code: Option<Code>, version: Version)
    | Swapping(code: Option<Code>, version: Version, seen: Cache)
    | Finished(answer: Answer)

  datatype Thread = Thread(block: Block, stage: Stage)

  datatype State = State(cache: Cache, threads: seq<Thread>)

  /** One atomic step of one call. A swap succeeds only if the cache is still the one seen; it may
      fail without cause, and is then retried on a fresh copy. */
  function Step(w: World, cache: Cache, t: Thread, swapFails: bool): (Cache, Stage) {
    match t.stage
    case Start =>
      (cache, if w.code(t.block).None? then Finished(StateError) else Read(w.code(t.block).value))
    case Read(c) =>
      (cache, if w.hash(c) in cache then Hit(c) else Miss(c))
    case Hit(c) =>
      (cache, Finished(if w.hash(c) in cache then Found(cache[w.hash(c)]) else Absent))
    case Miss(c) =>
      (cache, if c.None? then Finished(Panicked)
              else if w.decode(c.value).None? then Finished(DecodeError)
              else Decoded(c, w.decode(c.value).value))
    case Decoded(c, v) =>
      (cache, Swapping(c, v, cache))
    case Swapping(c, v, seen) =>
      if swapFails || cache != seen then (cache, Decoded(c, v))
      else (seen[w.hash(c) := v], Finished(Found(v)))
    case Finished(_) =>
      (cache, t.stage)
  }

  /** Which call moves next, and whether its swap fails if it is at one. */
  datatype Turn = Turn(thread: nat, swapFails: bool)

  function Move(w: World, s: State, turn: Turn): State {
    if turn.thread >= |s.threads| then s
    else
      var t := s.threads[turn.thread];
      var r := Step(w, s.cache, t, turn.swapFails);
      State(r.0, s.threads[turn.thread := t.(stage := r.1)])
  }

  function Run(w: World, s: State, turns: seq<Turn>): State {
    if turns == [] then s else Move(w, Run(w, s, turns[..|turns| - 1]), turns[|turns| - 1])
  }

  predicate Initial(s: State) {
    s.cache == map[] && forall i :: 0 <= i < |s.threads| ==> s.threads[i].stage.Start?
  }

  predicate SameHash(w: World, a: Block, b: Block) {
    w.code(a).Some? && w.code(b).Some? && w.hash(w.code(a).value) == w.hash(w.code(b).value)
  }

  /** Codes that share a hash with a decodable code decode to the same version. An injective hash
      has this property. */
  ghost predicate Compatible(w: World) {
    forall a: Block, b: Block ::
      Direct(w, a).Found? && w.code(b).Some? && SameHash(w, a, b) ==> Direct(w, b) == Direct(w, a)
  }

  ghost predicate Stems(w: World, cache: Cache, h: CodeHash, from: Block) {
    && h in cache && w.code(from).Some? && w.hash(w.code(from).value) == h
    && Direct(w, from) == Found(cache[h])
  }

  /** Every entry was decoded from some block's code. */
  ghost predicate Grounded(w: World, cache: Cache) {
    forall h :: h in cache ==> exists from :: Stems(w, cache, h, from)
  }

  ghost predicate Within(small: Cache, large: Cache) {
    forall h :: h in small ==> h in large && large[h] == small[h]
  }

  ghost predicate OnTrack(w: World, cache: Cache, t: Thread) {
    match t.stage
    case Start => true
    case Read(c) => w.code(t.block) == Some(c)
    case Hit(c) => w.code(t.block) == Some(c) && w.hash(c) in cache
    case Miss(c) => w.code(t.block) == Some(c)
    case Decoded(c, v) => w.code(t.block) == Some(c) && Direct(w, t.block) == Found(v)
    case Swapping(c, v, seen) => w.code(t.block) == Some(c) && Direct(w, t.block) == Found(v) && Within(seen, cache)
    case Finished(answer) => answer == Direct(w, t.block)
  }

  lemma StepOnTrack(w: World, cache: Cache, t: Thread, swapFails: bool)
    requires Compatible(w) && Grounded(w, cache) && OnTrack(w, cache, t)
    ensures var r := Step(w, cache, t, swapFails);
            Grounded(w, r.0) && Within(cache, r.0) && OnTrack(w, r.0, t.(stage := r.1))
  {
    var r := Step(w, cache, t, swapFails);
    if t.stage.Hit? {
      var from :| Stems(w, cache, w.hash(t.stage.code), from);
      assert SameHash(w, from, t.block);
    }
    if t.stage.Swapping? && r.1.Finished? {
      var h := w.hash(t.stage.code);
      if h in cache {
        var from :| Stems(w, cache, h, from);
        assert SameHash(w, from, t.block);
      }
      forall x | x in r.0
        ensures exists from :: Stems(w, r.0, x, from)
      {
        if x == h {
          assert Stems(w, r.0, x, t.block);
        } else {
          var from :| Stems(w, cache, x, from);
          assert Stems(w, r.0, x, from);
        }
      }
    }
  }

  ghost predicate Sound(w: World, s: State) {
    Grounded(w, s.cache) && forall i :: 0 <= i < |s.threads| ==> OnTrack(w, s.cache, s.threads[i])
  }

  /** Over every interleaving the entries only grow, none is lost or changed, and every call that has
      finished answered what decoding directly gives; in particular the second load of a hit never
      comes back empty. */
  lemma {:induction false} CacheTransparent(w: World, s: State, turns: seq<Turn>)
    requires Compatible(w) && Sound(w, s)
    ensures var r := Run(w, s, turns);
            && Sound(w, r) && Within(s.cache, r.cache) && |r.threads| == |s.threads|
            && forall i :: 0 <= i < |r.threads| ==>
                             && r.threads[i].block == s.threads[i].block
                             && (r.threads[i].stage.Finished? ==>
                                   r.threads[i].stage.answer == Direct(w, s.threads[i].block))
  {
    if turns != [] {
      var n := |turns| - 1;
      CacheTransparent(w, s, turns[..n]);
      var before := Run(w, s, turns[..n]);
      var i := turns[n].thread;
      if i < |before.threads| {
        StepOnTrack(w, before.cache, before.threads[i], turns[n].swapFails);
        var r := Run(w, s, turns);
        forall j | 0 <= j < |r.threads|
          ensures OnTrack(w, r.cache, r.threads[j])
        {
          if j != i {
            assert OnTrack(w, before.cache, before.threads[j]);
          }
        }
      }
    }
  }

  /** A finished call that found a version has its entry in the cache from then on. */
  lemma {:induction false} NoInsertLost(w: World, s: State, turns: seq<Turn>, i: nat)
    requires Compatible(w) && Initial(s) && i < |s.threads|
    requires i < |Run(w, s, turns).threads|
    requires Run(w, s, turns).threads[i].stage.Finished? && Direct(w, s.threads[i].block).Found?
    ensures w.code(s.threads[i].block).Some?
    ensures var h := w.hash(w.code(s.threads[i].block).value);
            h in Run(w, s, turns).cache && Found(Run(w, s, turns).cache[h]) == Direct(w, s.threads[i].block)
  {
    if turns != [] {
      var n := |turns| - 1;
      CacheTransparent(w, s, turns[..n]);
      CacheTransparent(w, s, turns);
      var before := Run(w, s, turns[..n]);
      var h := w.hash(w.code(s.threads[i].block).value);
      assert OnTrack(w, before.cache, before.threads[i]);
      if turns[n].thread < |before.threads| {
        StepOnTrack(w, before.cache, before.threads[turns[n].thread], turns[n].swapFails);
      }
      if before.threads[i].stage.Finished? {
        NoInsertLost(w, s, turns[..n], i);
      }
    }
  }

  /** `next` is where one more turn of the given thread leads. */
  lemma RunNext(w: World, s: State, turns: seq<Turn>, at: State, thread: nat, next: State)
    requires Run(w, s, turns) == at
    requires thread < |at.threads| && thread < |next.threads|
    requires Step(w, at.cache, at.threads[thread], false) == (next.cache, next.threads[thread].stage)
    requires next.threads == at.threads[thread := Thread(at.threads[thread].block, next.threads[thread].stage)]
    ensures Run(w, s, turns + [Turn(thread, false)]) == next
  {
    assert (turns + [Turn(thread, false)])[..|turns|] == turns;
  }

  /** Two calls, `a` then `b`, one after the other on an empty cache. */
  function OneByOne(a: Block, b: Block): (State, seq<Turn>) {
    (State(map[], [Thread(a, Start), Thread(b, Start)]),
     [] + [Turn(0, false)] + [Turn(0, false)] + [Turn(0, false)] + [Turn(0, false)] + [Turn(0, false)]
     + [Turn(1, false)] + [Turn(1, false)] + [Turn(1, false)])
  }

  lemma FirstCall(w: World, a: Block, b: Block)
    requires Direct(w, a).Found?
    ensures var c, v := w.code(a).value, Direct(w, a).version;
            Run(w, OneByOne(a, b).0,
                [] + [Turn(0, false)] + [Turn(0, false)] + [Turn(0, false)] + [Turn(0, false)] + [Turn(0, false)]) ==
            State(map[w.hash(c) := v], [Thread(a, Finished(Found(v))), Thread(b, Start)])
  {
    var s := OneByOne(a, b).0;
    var c, v, turn := w.code(a).value, Direct(w, a).version, [Turn(0, false)];
    var s1 := State(map[], [Thread(a, Read(c)), Thread(b, Start)]);
    var s2 := State(map[], [Thread(a, Miss(c)), Thread(b, Start)]);
    var s3 := State(map[], [Thread(a, Decoded(c, v)), Thread(b, Start)]);
    var s4 := State(map[], [Thread(a, Swapping(c, v, map[])), Thread(b, Start)]);
    RunNext(w, s, [], s, 0, s1);
    RunNext(w, s, [] + turn, s1, 0, s2);
    RunNext(w, s, [] + turn + turn, s2, 0, s3);
    RunNext(w, s, [] + turn + turn + turn, s3, 0, s4);
    RunNext(w, s, [] + turn + turn + turn + turn, s4, 0,
            State(map[w.hash(c) := v], [Thread(a, Finished(Found(v))), Thread(b, Start)]));
  }

  /** Without compatibility the cache is not transparent: a call for `a` followed by one for `b`
      answers `b` with the version of `a`. */
  lemma CollisionLeaks(w: World, a: Block, b: Block)
    requires Direct(w, a).Found? && SameHash(w, a, b)
    ensures Initial(OneByOne(a, b).0)
    ensures Run(w, OneByOne(a, b).0, OneByOne(a, b).1).threads ==
            [Thread(a, Finished(Direct(w, a))), Thread(b, Finished(Direct(w, a)))]
  {
    var s := OneByOne(a, b).0;
    var c, d, v := w.code(a).value, w.code(b).value, Direct(w, a).version;
    var cache := map[w.hash(c) := v];
    var five := [] + [Turn(0, false)] + [Turn(0, false)] + [Turn(0, false)] + [Turn(0, false)] + [Turn(0, false)];
    var done := Thread(a, Finished(Found(v)));
    FirstCall(w, a, b);
    RunNext(w, s, five, State(cache, [done, Thread(b, Start)]), 1, State(cache, [done, Thread(b, Read(d))]));
    RunNext(w, s, five + [Turn(1, false)], State(cache, [done, Thread(b, Read(d))]), 1,
            State(cache, [done, Thread(b, Hit(d))]));
    RunNext(w, s, five + [Turn(1, false)] + [Turn(1, false)], State(cache, [done, Thread(b, Hit(d))]), 1,
            State(cache, [done, Thread(b, Finished(Found(v)))]));
  }

  /** Transparency over all interleavings is exactly compatibility of the codes. */
  lemma TransparentExactly(w: World)
    ensures Compatible(w) <==>
            forall s: State, turns: seq<Turn>, i: nat ::
              Initial(s) && i < |Run(w, s, turns).threads| && Run(w, s, turns).threads[i].stage.Finished? ==>
                Run(w, s, turns).threads[i].stage.answer == Direct(w, Run(w, s, turns).threads[i].block)
  {
    if Compatible(w) {
      forall s: State, turns: seq<Turn>, i: nat |
        Initial(s) && i < |Run(w, s, turns).threads| && Run(w, s, turns).threads[i].stage.Finished?
        ensures Run(w, s, turns).threads[i].stage.answer == Direct(w, Run(w, s, turns).threads[i].block)
      {
        CacheTransparent(w, s, turns);
      }
    } else {
      var a: Block, b: Block :|
        Direct(w, a).Found? && w.code(b).Some? && SameHash(w, a, b) && Direct(w, b) != Direct(w, a);
      CollisionLeaks(w, a, b);
      var (s, turns) := OneByOne(a, b);
      assert Run(w, s, turns).threads[1].stage.answer != Direct(w, Run(w, s, turns).threads[1].block);
    }
  }

  lemma GroundedOn(w: World, cache: Cache, b: Block)
    requires Grounded(w, cache) && Direct(w, b).Found? && w.hash(w.code(b).value) !in cache
    ensures Grounded(w, cache[w.hash(w.code(b).value) := Direct(w, b).version])
  {
    var h := w.hash(w.code(b).value);
    var more := cache[h := Direct(w, b).version];
    forall x | x in more
      ensures exists from :: Stems(w, more, x, from)
    {
      if x == h {
        assert Stems(w, more, x, b);
      } else {
        var from :| Stems(w, cache, x, from);
        assert Stems(w, more, x, from);
      }
    }
  }

  /** The cache as one caller at a time uses it. */
  class RuntimeVersionCache {
    var versions: Cache
    const world: World

    constructor (world: World)
      ensures this.world == world && versions == map[]
    {
      this.world, versions := world, map[];
    }

    /** A block whose code has an entry is answered from it, without decoding; otherwise the code is
        decoded and its version stored. A failed lookup or decoding leaves the cache as it was. With
        compatible codes the answer is the direct one. */
    method GetById(b: Block) returns (r: Answer)
      requires Grounded(world, versions)
      modifies this`versions
      ensures var hit := world.code(b).Some? && world.hash(world.code(b).value) in old(versions);
              r == if hit then Found(old(versions)[world.hash(world.code(b).value)]) else Direct(world, b)
      ensures Compatible(world) ==> r == Direct(world, b)
      ensures Grounded(world, versions) && Within(old(versions), versions)
      ensures !r.Found? ==> versions == old(versions)
      ensures r.Found? ==> versions == old(versions)[world.hash(world.code(b).value) := r.version]
    {
      if world.code(b).None? {
        return StateError;
      }
      var code := world.code(b).value;
      var hash := world.hash(code);
      if hash in versions {
        ghost var from :| Stems(world, versions, hash, from);
        assert SameHash(world, from, b);
        return Found(versions[hash]);
      }
      if code.None? {
        return Panicked;
      }
      var version := world.decode(code.value);
      if version.None? {
        return DecodeError;
      }
      GroundedOn(world, versions, b);
      versions := versions[hash := version.value];
      r := Found(version.value);
    }
  }
}
