/** The loop between executor and comparer: the number that circulates, what is sent to the archiver,
    and how what is in flight relates to what is stored. */
module ArchiveLoop {
  import opened ArchivePipeline

  /** A process that has not started yet, over whatever tables it finds. */
  predicate Fresh(s: State) {
    !s.started && s.execQ == [] && s.compQ == [] && s.archQ == [] && !s.executorHalted && !s.archiverHalted
  }

  lemma RunNext(w: World, s: State, events: seq<Event>, e: Event)
    ensures Run(w, s, events + [e]) == Step(w, Run(w, s, events), e)
  {
    assert (events + [e])[..|events|] == events;
  }

  lemma MessageStoresItself(d: Store, m: Message, f: Faults)
    ensures var e := StoreMessage(d, m, f).0;
            || e.blocks == d.blocks
            || (e.blocks == d.blocks[m.number := m.row] && e.blocks.Keys == d.blocks.Keys + {m.number})
  {
  }

  /** Exactly one number circulates between executor and comparer once started, until the executor
      halts. */
  predicate OneToken(s: State) {
    |s.execQ| + |s.compQ| == if s.started && !s.executorHalted then 1 else 0
  }

  lemma StepToken(w: World, s: State, e: Event)
    requires OneToken(s) && (!s.started ==> !s.executorHalted)
    ensures OneToken(Step(w, s, e)) && (!Step(w, s, e).started ==> !Step(w, s, e).executorHalted)
  {
  }

  /** ... over every run, whatever fails. */
  lemma {:induction false} OneTokenAlways(w: World, s: State, events: seq<Event>)
    requires OneToken(s) && (!s.started ==> !s.executorHalted)
    ensures OneToken(Run(w, s, events)) && (!Run(w, s, events).started ==> !Run(w, s, events).executorHalted)
  {
    if events != [] {
      OneTokenAlways(w, s, events[..|events| - 1]);
      StepToken(w, Run(w, s, events[..|events| - 1]), events[|events| - 1]);
    }
  }

  /** What the executor does with the number at the head of its queue: it stops for good at a block it
      cannot read, genesis excepted, or whose version it cannot read; otherwise the number goes on to
      the comparer, and a block that could be read to the archiver, if that still runs. */
  lemma ExecutorActs(w: World, s: State, a: Attempt)
    requires !s.executorHalted && s.execQ != []
    ensures var t, n := ExecuteStep(w, s, a), s.execQ[0];
            && t.execQ == s.execQ[1..]
            && (t.executorHalted <==> (!a.readable && n != 0) || (a.readable && !a.versionKnown))
            && t.compQ == (if t.executorHalted then s.compQ else s.compQ + [n])
            && (t.archQ != s.archQ <==> a.readable && a.versionKnown && !s.archiverHalted)
            && (t.archQ != s.archQ ==>
                  && |t.archQ| == |s.archQ| + 1 && t.archQ[..|s.archQ|] == s.archQ
                  && t.archQ[|s.archQ|].number == n)
  {
    if a.readable && a.versionKnown && !s.archiverHalted {
      assert |ExecuteStep(w, s, a).archQ| == |s.archQ| + 1;
    }
  }

  /** The step stops the executor. */
  predicate StopsExecutor(s: State, e: Event) {
    && e.Execute? && !s.executorHalted && s.execQ != []
    && if e.attempt.readable then !e.attempt.versionKnown else s.execQ[0] != 0
  }

  ghost predicate StoppedIn(w: World, s: State, events: seq<Event>) {
    && events != []
    && var n := |events| - 1;
    StoppedIn(w, s, events[..n]) || StopsExecutor(Run(w, s, events[..n]), events[n])
  }

  predicate Crashes(e: Event) {
    e.Crash? || e.ArchiveThenCrash?
  }

  /** In a process that does not crash the executor has stopped exactly if some step stopped it. */
  lemma {:induction false} StopsExactly(w: World, s: State, events: seq<Event>)
    requires forall i :: 0 <= i < |events| ==> !Crashes(events[i])
    ensures Run(w, s, events).executorHalted <==> s.executorHalted || StoppedIn(w, s, events)
  {
    if events != [] {
      var n := |events| - 1;
      StopsExactly(w, s, events[..n]);
      var before := Run(w, s, events[..n]);
      assert !Crashes(events[n]);
      if events[n].Execute? && !before.executorHalted && before.execQ != [] {
        ExecutorActs(w, before, events[n].attempt);
      }
    }
  }

  ghost predicate Announced(events: seq<Event>, best: nat) {
    exists i :: 0 <= i < |events| && events[i] == Grow(best)
  }

  lemma AnnouncedOn(events: seq<Event>, best: nat)
    requires events != []
    ensures Announced(events, best) <==>
            Announced(events[..|events| - 1], best) || events[|events| - 1] == Grow(best)
  {
    assert forall i :: 0 <= i < |events| - 1 ==> events[..|events| - 1][i] == events[i];
  }

  lemma StepBest(w: World, s: State, e: Event)
    ensures var t := Step(w, s, e);
            t.best == if e.Grow? && s.best < e.best then e.best else s.best
  {
  }

  /** The best number known is the highest announced, or the one at first, through crashes. */
  lemma {:induction false} BestIsHighest(w: World, s: State, events: seq<Event>, any: nat)
    ensures var best := Run(w, s, events).best;
            s.best <= best && (Announced(events, any) ==> any <= best) && (best == s.best || Announced(events, best))
  {
    if events != [] {
      var n := |events| - 1;
      BestIsHighest(w, s, events[..n], any);
      StepBest(w, Run(w, s, events[..n]), events[n]);
      AnnouncedOn(events, any);
      AnnouncedOn(events, Run(w, s, events).best);
    }
  }

  // ---- with best fixed ----

  /** Where the number that circulates is after `k` comparisons. */
  function Reached(n: nat, best: nat, k: nat): nat {
    if n >= best then n else if n + k <= best then n + k else best
  }

  /** How often the comparer found a number. */
  function Advances(w: World, s: State, events: seq<Event>): nat {
    if events == [] then 0
    else
      var n := |events| - 1;
      Advances(w, s, events[..n]) + if events[n].Compare? && Run(w, s, events[..n]).compQ != [] then 1 else 0
  }

  /** The event sends a number to the archiver. */
  predicate Sends(s: State, e: Event) {
    && e.Execute? && e.attempt.readable && e.attempt.versionKnown
    && !s.executorHalted && s.execQ != [] && !s.archiverHalted
  }

  /** The numbers sent to the archiver over a run. */
  function Sent(w: World, s: State, events: seq<Event>): seq<nat> {
    if events == [] then []
    else
      var n := |events| - 1;
      var before := Run(w, s, events[..n]);
      Sent(w, s, events[..n]) + if Sends(before, events[n]) then [before.execQ[0]] else []
  }

  /** Nothing crashes, blocks can be read, and best stays where it is. */
  predicate Steady(best: nat, e: Event) {
    match e
    case Execute(a) => a.readable && a.versionKnown
    case Crash | ArchiveThenCrash(_) => false
    case Grow(b) => b <= best
    case _ => true
  }

  lemma LoopStep(w: World, s: State, e: Event, x: nat)
    requires s.started && !s.executorHalted && s.execQ + s.compQ == [x] && Steady(s.best, e)
    ensures var t := Step(w, s, e);
            && t.started && !t.executorHalted && t.best == s.best
            && t.execQ + t.compQ == [if e.Compare? && s.compQ != [] && x < s.best then x + 1 else x]
  {
    assert |s.execQ + s.compQ| == 1 && (s.execQ + s.compQ)[0] == x;
  }

  /** With best fixed, whatever the executor, the comparer and the archiver do in between: the number
      that circulates goes up one by one to best, in exactly best - n comparisons, and stays there; a
      start beyond best stays where it is. */
  lemma {:induction false} LoopReachesBest(w: World, s: State, n: nat, events: seq<Event>)
    requires s.started && !s.executorHalted && s.execQ + s.compQ == [n]
    requires forall i :: 0 <= i < |events| ==> Steady(s.best, events[i])
    ensures var r := Run(w, s, events);
            && r.started && !r.executorHalted && r.best == s.best
            && r.execQ + r.compQ == [Reached(n, s.best, Advances(w, s, events))]
  {
    if events != [] {
      var front, e := events[..|events| - 1], events[|events| - 1];
      LoopReachesBest(w, s, n, front);
      assert Steady(s.best, e);
      LoopStep(w, Run(w, s, front), e, Reached(n, s.best, Advances(w, s, front)));
    }
  }

  /** ... and the i-th number sent to the archiver is the i-th on this way. */
  lemma {:induction false} SentOnTheWay(w: World, s: State, n: nat, events: seq<Event>)
    requires s.started && !s.executorHalted && s.execQ == [n] && s.compQ == []
    requires forall i :: 0 <= i < |events| ==> Steady(s.best, events[i])
    ensures forall i :: 0 <= i < |Sent(w, s, events)| ==> Sent(w, s, events)[i] == Reached(n, s.best, i)
    ensures !Run(w, s, events).archiverHalted ==>
              |Sent(w, s, events)| == Advances(w, s, events) + |Run(w, s, events).compQ|
  {
    if events != [] {
      var front, e := events[..|events| - 1], events[|events| - 1];
      SentOnTheWay(w, s, n, front);
      LoopReachesBest(w, s, n, front);
      assert Steady(s.best, e);
      var before := Run(w, s, front);
      assert |before.execQ + before.compQ| == 1;
      if before.execQ != [] {
        assert (before.execQ + before.compQ)[0] == before.execQ[0];
      }
    }
  }

  // ---- while best grows ----

  ghost predicate Unreadable(events: seq<Event>) {
    exists i :: 0 <= i < |events| && events[i].Execute? && !events[i].attempt.readable
  }

  /** What waits for the archiver is the last of what was sent, in order. */
  ghost predicate Awaits(q: seq<Message>, sent: seq<nat>) {
    && |q| <= |sent|
    && forall i :: 0 <= i < |q| ==> q[i].number == sent[|sent| - |q| + i]
  }

  lemma AwaitsMore(q: seq<Message>, sent: seq<nat>, m: Message)
    requires Awaits(q, sent)
    ensures Awaits(q + [m], sent + [m.number])
  {
  }

  /** The number that circulates is the last one sent, or in front of the executor perhaps the next;
      genesis that could not be read may have been passed on unsent. */
  ghost predicate Follows(s: State, n: nat, sent: seq<nat>, unreadable: bool) {
    if sent != [] then
      && (s.compQ != [] ==> s.compQ[0] == sent[|sent| - 1])
      && (s.execQ != [] ==> sent[|sent| - 1] <= s.execQ[0] <= sent[|sent| - 1] + 1)
    else
      && (s.compQ != [] ==> s.compQ[0] == 0 == n && unreadable)
      && (s.execQ != [] ==> s.execQ[0] == n || (s.execQ[0] == 1 && n == 0 && unreadable))
  }

  predicate StepsOn(sent: seq<nat>, i: nat) {
    0 < i < |sent| ==> sent[i - 1] <= sent[i] <= sent[i - 1] + 1
  }

  /** The numbers start at `n`, or at 1 if genesis could not be read, and step by 0 or 1. */
  ghost predicate Climbs(n: nat, sent: seq<nat>, unreadable: bool) {
    && (sent != [] ==> sent[0] == n || (sent[0] == 1 && n == 0 && unreadable))
    && forall i: nat :: StepsOn(sent, i)
  }

  lemma ClimbsMore(s: State, n: nat, sent: seq<nat>, unreadable: bool)
    requires Climbs(n, sent, unreadable) && Follows(s, n, sent, unreadable) && s.execQ != []
    ensures Climbs(n, sent + [s.execQ[0]], unreadable)
  {
    forall i: nat
      ensures StepsOn(sent + [s.execQ[0]], i)
    {
      assert StepsOn(sent, i);
    }
  }

  /** A process that started from `n`, or will. */
  ghost predicate Life(s: State, n: nat, sent: seq<nat>, unreadable: bool) {
    && OneToken(s)
    && (!s.started ==> sent == [] && Fresh(s) && StartNumber(s.db) == n)
    && Climbs(n, sent, unreadable)
    && (!s.archiverHalted ==> Follows(s, n, sent, unreadable) && Awaits(s.archQ, sent))
  }

  lemma LifeExecutes(w: World, s: State, a: Attempt, n: nat, sent: seq<nat>, unreadable: bool)
    requires Life(s, n, sent, unreadable)
    ensures var more := if Sends(s, Execute(a)) then [s.execQ[0]] else [];
            Life(ExecuteStep(w, s, a), n, sent + more, unreadable || !a.readable)
  {
    if !s.executorHalted && s.execQ != [] {
      if !s.archiverHalted {
        ClimbsMore(s, n, sent, unreadable);
        AwaitsMore(s.archQ, sent, Message(s.execQ[0], RowOf(w, s.execQ[0], a.succeeds)));
      }
    }
    assert sent + [] == sent;
  }

  lemma LifeArchives(s: State, f: Faults, n: nat, sent: seq<nat>, unreadable: bool)
    requires Life(s, n, sent, unreadable)
    ensures Life(ArchiveStep(s, f), n, sent, unreadable)
  {
  }

  lemma LifeGoesOn(w: World, s: State, e: Event, n: nat, sent: seq<nat>, unreadable: bool)
    requires !Crashes(e) && Life(s, n, sent, unreadable)
    ensures var more := if Sends(s, e) then [s.execQ[0]] else [];
            Life(Step(w, s, e), n, sent + more, unreadable || (e.Execute? && !e.attempt.readable))
  {
    assert sent + [] == sent;
    match e
    case Execute(a) => LifeExecutes(w, s, a, n, sent, unreadable);
    case Archive(f) => LifeArchives(s, f, n, sent, unreadable);
    case _ =>
  }

  lemma UnreadableOn(events: seq<Event>)
    requires events != []
    ensures var front, e := events[..|events| - 1], events[|events| - 1];
            Unreadable(events) <==> Unreadable(front) || (e.Execute? && !e.attempt.readable)
  {
    assert forall i :: 0 <= i < |events| - 1 ==> events[..|events| - 1][i] == events[i];
  }

  /** In a process that does not crash the numbers sent to the archiver start where the process started
      (or at block 1 if genesis could not be read), and each is the one before or the next one, however
      best grows and whatever fails; what waits for the archiver is the last of them, in order. */
  lemma {:induction false} SentClimbs(w: World, s: State, events: seq<Event>)
    requires Fresh(s) && forall i :: 0 <= i < |events| ==> !Crashes(events[i])
    ensures Climbs(StartNumber(s.db), Sent(w, s, events), Unreadable(events))
    ensures !Run(w, s, events).archiverHalted ==> Awaits(Run(w, s, events).archQ, Sent(w, s, events))
    ensures Life(Run(w, s, events), StartNumber(s.db), Sent(w, s, events), Unreadable(events))
  {
    if events != [] {
      var front, e := events[..|events| - 1], events[|events| - 1];
      SentClimbs(w, s, front);
      UnreadableOn(events);
      LifeGoesOn(w, Run(w, s, front), e, StartNumber(s.db), Sent(w, s, front), Unreadable(front));
    }
  }

  // ---- over any run ----

  /** No number in flight is below `n`. */
  ghost predicate AtLeast(s: State, n: nat) {
    && (forall i :: 0 <= i < |s.archQ| ==> n <= s.archQ[i].number)
    && (s.execQ != [] ==> n <= s.execQ[0])
    && (s.compQ != [] ==> n <= s.compQ[0])
  }

  /** What waits for the archiver rises towards the number that circulates, and nothing in flight is
      below a stored block. */
  ghost predicate Rising(s: State) {
    && OneToken(s)
    && (!s.started ==> s.archQ == [] && !s.executorHalted)
    && (forall i, j :: 0 <= i < j < |s.archQ| ==> s.archQ[i].number <= s.archQ[j].number)
    && (forall i :: 0 <= i < |s.archQ| && s.execQ != [] ==> s.archQ[i].number <= s.execQ[0])
    && (forall i :: 0 <= i < |s.archQ| && s.compQ != [] ==> s.archQ[i].number <= s.compQ[0])
    && (forall k :: k in s.db.blocks ==> AtLeast(s, k))
  }

  lemma RisingArchives(s: State, f: Faults)
    requires Rising(s)
    ensures Rising(ArchiveStep(s, f))
  {
    if s.archQ != [] {
      MessageStoresItself(s.db, s.archQ[0], f);
    }
  }

  lemma RisingExecutes(w: World, s: State, a: Attempt)
    requires Rising(s)
    ensures Rising(ExecuteStep(w, s, a))
  {
  }

  lemma RisingStep(w: World, s: State, e: Event)
    requires Rising(s)
    ensures Rising(Step(w, s, e))
  {
    match e
    case Execute(a) => RisingExecutes(w, s, a);
    case Archive(f) => RisingArchives(s, f);
    case ArchiveThenCrash(f) => RisingArchives(s, f);
    case _ =>
  }

  /** Over every run, with any faults, crashes and restarts. */
  lemma {:induction false} RisingAlways(w: World, s: State, events: seq<Event>)
    requires Rising(s)
    ensures Rising(Run(w, s, events))
  {
    if events != [] {
      RisingAlways(w, s, events[..|events| - 1]);
      RisingStep(w, Run(w, s, events[..|events| - 1]), events[|events| - 1]);
    }
  }

  ghost predicate AllUpTo(q: seq<nat>, top: nat) {
    forall i :: 0 <= i < |q| ==> q[i] <= top
  }

  /** Every number in flight or stored is at most `top`. */
  ghost predicate Within(s: State, top: nat) {
    && s.best <= top
    && AllUpTo(s.execQ, top)
    && AllUpTo(s.compQ, top)
    && (forall i :: 0 <= i < |s.archQ| ==> s.archQ[i].number <= top)
    && (forall n :: n in s.db.blocks ==> n <= top)
  }

  lemma ArchiveWithin(s: State, f: Faults, top: nat)
    requires Within(s, top)
    ensures Within(ArchiveStep(s, f), top)
  {
    if s.archQ != [] {
      MessageStoresItself(s.db, s.archQ[0], f);
    }
  }

  lemma StepWithin(w: World, s: State, e: Event, top: nat)
    requires Within(s, top) && (e.Grow? ==> e.best <= top)
    ensures Within(Step(w, s, e), top)
  {
    match e
    case Archive(f) => ArchiveWithin(s, f, top);
    case ArchiveThenCrash(f) => ArchiveWithin(s, f, top);
    case _ =>
  }

  /** The loop never runs ahead of what it started from or the highest best block seen. */
  lemma {:induction false} NeverBeyondBest(w: World, s: State, events: seq<Event>, top: nat)
    requires Within(s, top) && forall i :: 0 <= i < |events| && events[i].Grow? ==> events[i].best <= top
    ensures Within(Run(w, s, events), top)
  {
    if events != [] {
      NeverBeyondBest(w, s, events[..|events| - 1], top);
      StepWithin(w, Run(w, s, events[..|events| - 1]), events[|events| - 1], top);
    }
  }
}
