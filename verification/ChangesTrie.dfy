/** Queries over changes tries along one chain. Blocks are known by their number; a configuration is
    active from its zero block on, until the next zero block. */
module ChangesTrie {
  import opened Results

  type Config = nat
  type Extrinsic = nat

  /** What the storage answers for a block: the zero block of the configuration in force, the next
      zero block, and the configuration if tries are enabled. */
  datatype ConfigRange = ConfigRange(zero: nat, end: Option<nat>, config: Option<Config>)

  datatype ActiveRange = ActiveRange(zero: nat, end: Option<nat>, config: Config) {

    /** The first block the query searches under this configuration. */
    function SearchFirst(first: nat): nat {
      if first > zero + 1 then first else zero + 1
    }

    function SearchAnchor(last: nat): nat {
      if end.Some? && last > end.value then end.value else last
    }
  }

  /** Blocks 0..|touched|-1; `touched[n]` are the extrinsics of block `n` that changed the key. */
  datatype Chain = Chain(
    touched: seq<seq<Extrinsic>>, zeros: seq<nat>, configs: seq<Option<Config>>, triesSupported: bool)
  {

    predicate Before(i: nat, j: nat) {
      i < j < |zeros| ==> zeros[i] < zeros[j]
    }

    ghost predicate Valid() {
      && |zeros| == |configs| > 0
      && zeros[0] == 0
      && (forall i :: 0 <= i < |zeros| ==> zeros[i] < |touched|)
      && (forall i: nat, j: nat {:trigger Before(i, j)} :: Before(i, j))
    }

    /** The configuration in force at block `n`. */
    function IndexAt(n: nat): (i: nat)
      requires Valid()
      ensures i < |zeros| && zeros[i] <= n && (i + 1 < |zeros| ==> n < zeros[i + 1])
    {
      IndexBelow(n, |zeros| - 1)
    }

    function IndexBelow(n: nat, top: nat): (i: nat)
      requires Valid() && top < |zeros| && (top + 1 < |zeros| ==> n < zeros[top + 1])
      ensures i < |zeros| && zeros[i] <= n && (i + 1 < |zeros| ==> n < zeros[i + 1])
      decreases top
    {
      if zeros[top] <= n then top else IndexBelow(n, top - 1)
    }

    lemma ZerosOrdered(i: nat, j: nat)
      requires Valid()
      ensures i <= j < |zeros| ==> zeros[i] <= zeros[j]
      ensures i < j < |zeros| ==> zeros[i] < zeros[j]
    {
      assert Before(i, j);
    }

    lemma IndexUnique(n: nat, i: nat)
      requires Valid() && i < |zeros| && zeros[i] <= n && (i + 1 < |zeros| ==> n < zeros[i + 1])
      ensures IndexAt(n) == i
    {
      ZerosOrdered(IndexAt(n) + 1, i);
      ZerosOrdered(i + 1, IndexAt(n));
    }

    lemma IndexMonotone(n: nat, m: nat)
      requires Valid() && n <= m
      ensures IndexAt(n) <= IndexAt(m)
    {
      ZerosOrdered(IndexAt(m) + 1, IndexAt(n));
    }

    function End(i: nat): Option<nat>
      requires Valid() && i < |zeros|
    {
      if i + 1 < |zeros| then Some(zeros[i + 1]) else None
    }

    /** -1 stands for the parent of genesis, which names no block. */
    function ConfigurationAt(n: int): Result<ConfigRange>
      requires Valid()
    {
      if 0 <= n < |touched| then Ok(ConfigRange(zeros[IndexAt(n)], End(IndexAt(n)), configs[IndexAt(n)]))
      else Err(UnknownBlock)
    }

    ghost predicate Enabled(n: nat)
      requires Valid()
    {
      configs[IndexAt(n)].Some?
    }

    /** Where the walk from `last` down to `first` ends if nothing is disabled on the way. */
    ghost function StopIndex(first: nat, last: nat): nat
      requires Valid() && first > 0
    {
      if first - 1 <= last then IndexAt(first - 1) else IndexAt(last)
    }

    ghost predicate EnabledIn(low: nat, high: nat)
      requires Valid() && high < |zeros|
    {
      forall i :: low <= i <= high ==> configs[i].Some?
    }

    function RangeOf(i: nat): ActiveRange
      requires Valid() && i < |zeros| && configs[i].Some?
    {
      ActiveRange(zeros[i], End(i), configs[i].value)
    }

    /** The interval searched under a configuration: from after its zero block, or `first` if that is
        higher, up to the next zero block, or `last` if that is lower. */
    function Interval(i: nat, first: nat, last: nat): (nat, nat)
      requires Valid() && i < |zeros|
    {
      (if first > zeros[i] + 1 then first else zeros[i] + 1,
       if End(i).Some? && last > End(i).value then End(i).value else last)
    }

    ghost predicate NoneFails(low: nat, high: int, first: nat, last: nat, failing: set<(nat, nat)>)
      requires Valid() && high < |zeros|
    {
      forall i :: low <= i <= high ==> Interval(i, first, last) !in failing
    }

    ghost predicate IsRange(i: nat, range: ActiveRange)
      requires Valid()
    {
      i < |zeros| && configs[i].Some? && range == RangeOf(i)
    }

    /** Tries are enabled from the block before `first`, or genesis, through `last`; if that is empty, at
        `last`. */
    ghost predicate EnabledDown(first: nat, last: nat)
      requires Valid()
    {
      && Enabled(last)
      && forall n :: first - 1 <= n <= last && 0 <= n ==> Enabled(n)
    }

    /** Block by block and configuration by configuration it is the same. */
    lemma EnabledByBlock(first: nat, last: nat)
      requires Valid()
      ensures first > 0 ==> (EnabledIn(StopIndex(first, last), IndexAt(last)) <==> EnabledDown(first, last))
      ensures first == 0 ==> (EnabledIn(0, IndexAt(last)) <==> EnabledDown(first, last))
    {
      var stop := if first > 0 then StopIndex(first, last) else 0;
      if 0 < first <= last + 1 {
        IndexMonotone(first - 1, last);
      }
      if EnabledIn(stop, IndexAt(last)) {
        forall n | first - 1 <= n <= last && 0 <= n
          ensures Enabled(n)
        {
          IndexMonotone(n, last);
          if first > 0 {
            IndexMonotone(first - 1, n);
          }
        }
      }
      if EnabledDown(first, last) {
        forall i | stop <= i <= IndexAt(last)
          ensures configs[i].Some?
        {
          EnabledHere(first, last, stop, i);
        }
      }
    }

    lemma EnabledHere(first: nat, last: nat, stop: nat, i: nat)
      requires Valid() && EnabledDown(first, last) && stop <= i <= IndexAt(last)
      requires stop == if first > 0 then StopIndex(first, last) else 0
      ensures configs[i].Some?
    {
      ZerosOrdered(i, IndexAt(last));
      ZerosOrdered(i, i + 1);
      if i == stop && 0 < first <= last + 1 {
        assert Enabled((first - 1) as nat);
      } else if i < IndexAt(last) {
        IndexUnique(zeros[i], i);
        ZerosOrdered(stop + 1, i);
        assert Enabled(zeros[i]);
      }
    }

    /** The ranges are those of the configurations from the one at `last` down to `low`. */
    ghost predicate Descends(last: nat, low: nat, ranges: seq<ActiveRange>)
      requires Valid()
    {
      var top := IndexAt(last);
      && low + |ranges| == top + 1
      && forall m :: 0 <= m < |ranges| ==> IsRange(top - m, ranges[m])
    }

    lemma DescendsEnabled(last: nat, low: nat, ranges: seq<ActiveRange>)
      requires Valid() && Descends(last, low, ranges) && low <= IndexAt(last)
      ensures EnabledIn(low, IndexAt(last))
    {
      forall i | low <= i <= IndexAt(last)
        ensures configs[i].Some?
      {
        assert IsRange(i, ranges[IndexAt(last) - i]);
      }
    }

    /** `low` is the lowest configuration a walk from `last` gets to: tries are enabled from it up, and
        it covers `first` or the one below it has them disabled. */
    ghost predicate LowestEnabled(first: nat, last: nat, low: nat)
      requires Valid()
    {
      && low <= IndexAt(last) && EnabledIn(low, IndexAt(last))
      && (first > 0 ==> StopIndex(first, last) <= low)
      && ((first > 0 && low == StopIndex(first, last)) || (low > 0 && configs[low - 1].None?))
    }

    lemma DescendsOn(last: nat, low: nat, ranges: seq<ActiveRange>)
      requires Valid() && 0 < low <= |zeros| && Descends(last, low, ranges) && configs[low - 1].Some?
      ensures Descends(last, low - 1, ranges + [RangeOf(low - 1)])
    {
    }

    /** Below the zero block of a configuration the one before it is in force; only the first
        configuration starts at genesis. */
    lemma BelowZero(i: nat)
      requires Valid() && i < |zeros|
      ensures zeros[i] == 0 <==> i == 0
      ensures i > 0 ==> IndexAt(zeros[i] - 1) == i - 1
    {
      ZerosOrdered(0, i);
      if i > 0 {
        ZerosOrdered(i - 1, i);
        IndexUnique(zeros[i] - 1, i - 1);
      }
    }

    /** Exactly when and how far the walk from `last` down to `first` gets: to the configuration
        that covers `first` if all on the way are enabled; otherwise, if it may, to just above the
        first disabled one. From block 0 it never arrives, for it then looks below genesis. */
    ghost predicate Walks(first: nat, last: nat, failIfDisabled: bool, r: Result<seq<ActiveRange>>)
      requires Valid()
    {
      var top := IndexAt(last);
      if !triesSupported then r == Err(ChangesTriesNotSupported)
      else if first > 0 && EnabledIn(StopIndex(first, last), top) then
        r.Ok? && Descends(last, StopIndex(first, last), r.value)
      else if first == 0 && EnabledIn(0, top) then
        r == Err(UnknownBlock)
      else if failIfDisabled then
        r == Err(ChangesTriesNotSupported)
      else
        && r.Ok? && |r.value| <= top
        && configs[top - |r.value|].None?
        && Descends(last, top + 1 - |r.value|, r.value)
    }

    lemma WalkStops(first: nat, last: nat, low: nat, r: Result<seq<ActiveRange>>)
      requires Valid() && triesSupported && low <= IndexAt(last) && r.Ok? && Descends(last, low, r.value)
      requires zeros[low] < first && (low < IndexAt(last) ==> first <= zeros[low + 1])
      ensures Walks(first, last, true, r) && Walks(first, last, false, r)
    {
      DescendsEnabled(last, low, r.value);
      if first - 1 <= last {
        IndexUnique(first - 1, low);
      } else {
        ZerosOrdered(low + 1, IndexAt(last));
      }
    }

    lemma WalkDisabled(first: nat, last: nat, low: nat, ranges: seq<ActiveRange>)
      requires Valid() && triesSupported && 0 < low <= IndexAt(last) + 1 && Descends(last, low, ranges)
      requires configs[low - 1].None? && (low <= IndexAt(last) ==> first <= zeros[low])
      ensures Walks(first, last, true, Err(ChangesTriesNotSupported)) && Walks(first, last, false, Ok(ranges))
    {
      if 0 < first {
        if first - 1 <= last {
          IndexMonotone(first - 1, last);
        }
        ZerosOrdered(low, StopIndex(first, last));
        assert StopIndex(first, last) <= low - 1;
      }
    }

    lemma WalkFallsOff(first: nat, last: nat, ranges: seq<ActiveRange>)
      requires Valid() && triesSupported && Descends(last, 0, ranges) && first == 0
      ensures Walks(first, last, true, Err(UnknownBlock)) && Walks(first, last, false, Err(UnknownBlock))
    {
      DescendsEnabled(last, 0, ranges);
    }

    /** The walk is about to look at `current`, and has passed all configurations down to `low`. */
    ghost predicate Walking(first: nat, last: nat, current: int, low: nat, ranges: seq<ActiveRange>)
      requires Valid()
    {
      && 0 <= current <= last && 0 < low <= IndexAt(last) + 1
      && IndexAt(current) == low - 1
      && Descends(last, low, ranges)
      && (low <= IndexAt(last) ==> first <= zeros[low])
    }

    /** Passing one more configuration: the walk arrives, falls off below genesis, or goes on. */
    lemma WalkOn(first: nat, last: nat, current: int, low: nat, ranges: seq<ActiveRange>)
      requires Valid() && triesSupported && Walking(first, last, current, low, ranges) && configs[low - 1].Some?
      ensures var zero, next := zeros[low - 1], ranges + [RangeOf(low - 1)];
              && zero <= current
              && (zero < first ==> Walks(first, last, true, Ok(next)) && Walks(first, last, false, Ok(next)))
              && (first <= zero == 0 ==>
                    Walks(first, last, true, Err(UnknownBlock)) && Walks(first, last, false, Err(UnknownBlock)))
              && (first <= zero && zero > 0 ==> low > 1 && Walking(first, last, zero - 1, low - 1, next))
    {
      var next := ranges + [RangeOf(low - 1)];
      DescendsOn(last, low, ranges);
      BelowZero(low - 1);
      if zeros[low - 1] < first {
        WalkStops(first, last, low - 1, Ok(next));
      } else if low == 1 {
        WalkFallsOff(first, last, next);
      }
    }
  }

  /** The configurations active in [first; last], newest first. */
  method RequireChangesTrie(c: Chain, first: nat, last: nat, failIfDisabled: bool) returns (r: Result<seq<ActiveRange>>)
    requires c.Valid() && last < |c.touched|
    ensures c.Walks(first, last, failIfDisabled, r)
  {
    if !c.triesSupported {
      return Err(ChangesTriesNotSupported);
    }
    var ranges: seq<ActiveRange> := [];
    var current: int := last;
    ghost var low: nat := c.IndexAt(last) + 1;
    while true
      invariant c.Walking(first, last, current, low, ranges)
      decreases current
    {
      var configRange := c.ConfigurationAt(current).value;
      if configRange.config.None? {
        c.WalkDisabled(first, last, low, ranges);
        return if failIfDisabled then Err(ChangesTriesNotSupported) else Ok(ranges);
      }
      c.WalkOn(first, last, current, low, ranges);
      ranges := ranges + [ActiveRange(configRange.zero, configRange.end, configRange.config.value)];
      low := low - 1;
      if configRange.zero < first {
        break;
      }
      current := configRange.zero - 1;
      if current < 0 {
        return Err(UnknownBlock);
      }
    }
    r := Ok(ranges);
  }

  function At(extrinsics: seq<Extrinsic>, n: nat): seq<(nat, Extrinsic)> {
    seq(|extrinsics|, i requires 0 <= i < |extrinsics| => (n, extrinsics[i]))
  }

  /** The changes of the key in blocks lo..hi, newest block first. */
  function Scan(touched: seq<seq<Extrinsic>>, lo: nat, hi: int): seq<(nat, Extrinsic)>
    requires hi < |touched|
    decreases hi
  {
    if hi < lo then [] else At(touched[hi], hi) + Scan(touched, lo, hi - 1)
  }

  lemma {:induction false} ScanBounded(touched: seq<seq<Extrinsic>>, lo: nat, hi: int)
    requires hi < |touched|
    ensures forall i :: 0 <= i < |Scan(touched, lo, hi)| ==> lo <= Scan(touched, lo, hi)[i].0 <= hi
    decreases hi
  {
    if lo <= hi {
      ScanBounded(touched, lo, hi - 1);
    }
  }

  /** A scan comes in descending order of blocks ... */
  lemma {:induction false} ScanDescends(touched: seq<seq<Extrinsic>>, lo: nat, hi: int, i: nat, j: nat)
    requires hi < |touched| && i < j < |Scan(touched, lo, hi)|
    ensures Scan(touched, lo, hi)[i].0 >= Scan(touched, lo, hi)[j].0
    decreases hi
  {
    if lo <= hi {
      var first, rest := At(touched[hi], hi), Scan(touched, lo, hi - 1);
      ScanBounded(touched, lo, hi - 1);
      assert Scan(touched, lo, hi) == first + rest;
      if |first| <= i {
        ScanDescends(touched, lo, hi - 1, i - |first|, j - |first|);
      }
    }
  }

  lemma {:induction false} AtCounts(extrinsics: seq<Extrinsic>, at: nat, n: nat, x: Extrinsic)
    ensures multiset(At(extrinsics, at))[(n, x)] == if n == at then multiset(extrinsics)[x] else 0
  {
    if extrinsics != [] {
      var k := |extrinsics| - 1;
      AtCounts(extrinsics[..k], at, n, x);
      assert At(extrinsics, at) == At(extrinsics[..k], at) + [(at, extrinsics[k])];
      assert extrinsics == extrinsics[..k] + [extrinsics[k]];
    }
  }

  /** ... and has each change of each block in the range as often as the block has it, and no other. */
  lemma {:induction false} ScanCounts(touched: seq<seq<Extrinsic>>, lo: nat, hi: int, n: nat, x: Extrinsic)
    requires hi < |touched|
    ensures multiset(Scan(touched, lo, hi))[(n, x)] == if lo <= n <= hi then multiset(touched[n])[x] else 0
    decreases hi
  {
    if lo <= hi {
      ScanCounts(touched, lo, hi - 1, n, x);
      AtCounts(touched[hi], hi, n, x);
      assert Scan(touched, lo, hi) == At(touched[hi], hi) + Scan(touched, lo, hi - 1);
    }
  }

  lemma {:induction false} ScanSplits(touched: seq<seq<Extrinsic>>, lo: nat, mid: nat, hi: int)
    requires hi < |touched| && lo <= mid <= hi + 1
    ensures Scan(touched, lo, hi) == Scan(touched, mid, hi) + Scan(touched, lo, mid - 1)
    decreases hi
  {
    if mid <= hi {
      ScanSplits(touched, lo, mid, hi - 1);
    }
  }

  /** Where the blocks not searched yet begin, going down, once the ranges down to the
      configuration `low` were searched. */
  ghost function Searched(c: Chain, first: nat, last: nat, low: nat): nat
    requires c.Valid() && low <= c.IndexAt(last) + 1
  {
    if low == c.IndexAt(last) + 1 then last + 1
    else if first > c.zeros[low] + 1 then first
    else c.zeros[low] + 1
  }

  /** The ranges a query from `first` to `last` searches. */
  ghost predicate Covers(c: Chain, first: nat, last: nat, ranges: seq<ActiveRange>) {
    && c.Valid() && last < |c.touched| && 0 < first <= last
    && c.Descends(last, c.StopIndex(first, last), ranges)
  }

  /** Each interval starts exactly below the one before, and the last one starts at `first`. */
  lemma IntervalsAdjacent(c: Chain, first: nat, last: nat, ranges: seq<ActiveRange>, m: nat)
    requires Covers(c, first, last, ranges) && m < |ranges|
    ensures var i := c.IndexAt(last) - m;
            && ranges[m].SearchFirst(first) == Searched(c, first, last, i)
            && ranges[m].SearchAnchor(last) + 1 == Searched(c, first, last, i + 1)
            && first <= Searched(c, first, last, i) <= Searched(c, first, last, i + 1)
            && (m == |ranges| - 1 ==> Searched(c, first, last, i) == first)
  {
    var i, top, stop := c.IndexAt(last) - m, c.IndexAt(last), c.StopIndex(first, last);
    assert c.IsRange(i, ranges[m]);
    c.ZerosOrdered(i, i + 1);
    c.ZerosOrdered(i, top);
    c.ZerosOrdered(i + 1, top);
    c.ZerosOrdered(stop + 1, i + 1);
  }

  lemma SearchedFalls(c: Chain, first: nat, last: nat, j: nat, k: nat)
    requires c.Valid() && first <= last && j <= k <= c.IndexAt(last) + 1
    ensures Searched(c, first, last, j) <= Searched(c, first, last, k)
  {
    c.ZerosOrdered(j, k);
    c.ZerosOrdered(j, c.IndexAt(last));
  }

  /** The intervals a successful query searches come in descending order without overlap. */
  lemma IntervalsDescend(c: Chain, first: nat, last: nat, ranges: seq<ActiveRange>, j: nat, k: nat)
    requires Covers(c, first, last, ranges) && j < k < |ranges|
    ensures ranges[k].SearchAnchor(last) < ranges[j].SearchFirst(first)
  {
    var top := c.IndexAt(last);
    assert ranges[j].SearchFirst(first) == Searched(c, first, last, top - j) by {
      IntervalsAdjacent(c, first, last, ranges, j);
    }
    assert ranges[k].SearchAnchor(last) + 1 == Searched(c, first, last, top - k + 1) by {
      IntervalsAdjacent(c, first, last, ranges, k);
    }
    SearchedFalls(c, first, last, top - k + 1, top - j);
  }

  lemma SomeIntervalHolds(c: Chain, first: nat, last: nat, ranges: seq<ActiveRange>, n: nat) returns (m: nat)
    requires Covers(c, first, last, ranges) && first <= n <= last
    ensures m < |ranges| && ranges[m].SearchFirst(first) <= n <= ranges[m].SearchAnchor(last)
  {
    var top := c.IndexAt(last);
    m := 0;
    c.IndexMonotone(first - 1, last);
    IntervalsAdjacent(c, first, last, ranges, |ranges| - 1);
    while n < Searched(c, first, last, top - m)
      invariant m < |ranges| && n < Searched(c, first, last, top - m + 1)
      decreases |ranges| - m
    {
      m := m + 1;
    }
    IntervalsAdjacent(c, first, last, ranges, m);
  }

  /** ... and every block of [first..last] is in one of them, and in no other. */
  lemma IntervalsPartition(c: Chain, first: nat, last: nat, ranges: seq<ActiveRange>, n: nat)
    requires Covers(c, first, last, ranges) && first <= n <= last
    ensures exists m :: 0 <= m < |ranges| && ranges[m].SearchFirst(first) <= n <= ranges[m].SearchAnchor(last)
    ensures forall k, m :: 0 <= k < m < |ranges| ==>
                             !(ranges[k].SearchFirst(first) <= n && n <= ranges[m].SearchAnchor(last))
  {
    var _ := SomeIntervalHolds(c, first, last, ranges, n);
    forall k, m | 0 <= k < m < |ranges|
      ensures !(ranges[k].SearchFirst(first) <= n && n <= ranges[m].SearchAnchor(last))
    {
      IntervalsDescend(c, first, last, ranges, k, m);
    }
  }

  lemma ScanJoins(touched: seq<seq<Extrinsic>>, lo: nat, mid: int, hi: int, result: seq<(nat, Extrinsic)>)
    requires hi < |touched| && lo <= mid + 1 <= hi + 1
    requires result == Scan(touched, mid + 1, hi)
    ensures result + Scan(touched, lo, mid) == Scan(touched, lo, hi)
  {
    ScanSplits(touched, lo, mid + 1, hi);
  }

  /** Searching one more interval extends what was scanned so far. */
  lemma SearchOn(c: Chain, first: nat, last: nat, ranges: seq<ActiveRange>, m: nat, result: seq<(nat, Extrinsic)>)
    requires Covers(c, first, last, ranges) && m < |ranges|
    requires result == Scan(c.touched, Searched(c, first, last, c.IndexAt(last) + 1 - m), last)
    ensures var i := c.IndexAt(last) - m;
            && result + Scan(c.touched, ranges[m].SearchFirst(first), ranges[m].SearchAnchor(last)) ==
               Scan(c.touched, Searched(c, first, last, i), last)
            && (m == |ranges| - 1 ==> Searched(c, first, last, i) == first)
  {
    IntervalsAdjacent(c, first, last, ranges, m);
    ScanJoins(c.touched, ranges[m].SearchFirst(first), ranges[m].SearchAnchor(last), last, result);
  }

  lemma IntervalSearched(c: Chain, first: nat, last: nat, low: nat, ranges: seq<ActiveRange>, m: nat)
    requires c.Valid() && c.Descends(last, low, ranges) && m < |ranges|
    ensures low <= c.IndexAt(last) - m
    ensures (ranges[m].SearchFirst(first), ranges[m].SearchAnchor(last)) == c.Interval(c.IndexAt(last) - m, first, last)
  {
    assert c.IsRange(c.IndexAt(last) - m, ranges[m]);
  }

  /** All changes of a key in [first; last]. The search of one interval, when it does not fail, is
      correct; `failing` are the intervals whose search fails. The query succeeds exactly if tries are
      enabled on the whole way, no searched interval fails and it does not start at block 0; then the
      result is what scanning the blocks one by one gives: nothing missed, nothing repeated. */
  method KeyChanges(c: Chain, first: nat, last: nat, failing: set<(nat, nat)>)
    returns (r: Result<seq<(nat, Extrinsic)>>)
    requires c.Valid()
    ensures last >= |c.touched| ==> r == Err(UnknownBlock)
    ensures r.Ok? ==> first > 0 && (first <= last ==> r.value == Scan(c.touched, first, last))
    ensures last < |c.touched| ==>
              (r.Ok? <==>
               && c.triesSupported && first > 0
               && c.EnabledDown(first, last)
               && c.NoneFails(c.StopIndex(first, last), c.IndexAt(last), first, last, failing))
    ensures r == Err(ChangesTriesNotSupported) <==>
            last < |c.touched| && !(c.triesSupported && c.EnabledDown(first, last))
    ensures r == Err(UnknownBlock) <==>
            last >= |c.touched| || (c.triesSupported && first == 0 && c.EnabledDown(first, last))
  {
    if last >= |c.touched| {
      return Err(UnknownBlock);
    }
    c.EnabledByBlock(first, last);
    var required := RequireChangesTrie(c, first, last, true);
    if required.Err? {
      return Err(required.error);
    }
    var ranges := required.value;
    var result: seq<(nat, Extrinsic)> := [];
    ghost var top, low := c.IndexAt(last), c.StopIndex(first, last);
    for m := 0 to |ranges|
      invariant c.NoneFails(top - m + 1, top, first, last, failing)
      invariant first <= last ==> result == Scan(c.touched, Searched(c, first, last, top + 1 - m), last)
      invariant first <= last && m > 0 && m == |ranges| ==> Searched(c, first, last, top + 1 - m) == first
    {
      var rangeFirst, anchor := ranges[m].SearchFirst(first), ranges[m].SearchAnchor(last);
      IntervalSearched(c, first, last, low, ranges, m);
      if (rangeFirst, anchor) in failing {
        return Err(ChangesTrieAccessFailed);
      }
      if first <= last {
        SearchOn(c, first, last, ranges, m, result);
      }
      result := result + Scan(c.touched, rangeFirst, anchor);
    }
    r := Ok(result);
  }

  lemma LowestReached(c: Chain, first: nat, last: nat, ranges: seq<ActiveRange>)
    requires c.Valid() && c.triesSupported && first <= last && ranges != [] && c.Walks(first, last, false, Ok(ranges))
    ensures |ranges| <= c.IndexAt(last) + 1 && c.LowestEnabled(first, last, c.IndexAt(last) + 1 - |ranges|)
  {
    var top, low := c.IndexAt(last), c.IndexAt(last) + 1 - |ranges|;
    c.DescendsEnabled(last, low, ranges);
    if first > 0 {
      c.IndexMonotone(first - 1, last);
      if !c.EnabledIn(c.StopIndex(first, last), top) {
        var i :| c.StopIndex(first, last) <= i <= top && c.configs[i].None?;
        assert i < low;
      }
    }
  }

  lemma EnabledAbove(c: Chain, last: nat, low: nat, ranges: seq<ActiveRange>)
    requires c.Valid() && c.Descends(last, low, ranges) && ranges != []
    ensures ranges[|ranges| - 1].zero == c.zeros[low]
    ensures forall n :: c.zeros[low] <= n <= last ==> c.Enabled(n)
  {
    assert c.IsRange(low, ranges[|ranges| - 1]);
    c.DescendsEnabled(last, low, ranges);
    forall n | c.zeros[low] <= n <= last
      ensures c.Enabled(n)
    {
      c.IndexMonotone(n, last);
      c.ZerosOrdered(c.IndexAt(n) + 1, low);
      assert c.configs[c.IndexAt(n)].Some?;
    }
  }

  /** The largest range ending at `last` that can be queried: it starts at the zero block of the lowest
      configuration reached, or at the oldest block not pruned if that is higher. Tries are enabled in
      every block after its first one. */
  method MaxKeyChangesRange(c: Chain, first: nat, last: nat, oldestUnpruned: nat) returns (r: Result<Option<nat>>)
    requires c.Valid()
    ensures r == Err(UnknownBlock) <==> last >= |c.touched|
    ensures r == Err(ChangesTrieAccessFailed) <==> last < |c.touched| && first > last
    ensures r.Err? <==> last >= |c.touched| || first > last
    ensures r.Ok? ==>
              (r.value.Some? <==>
               && c.triesSupported && c.Enabled(last)
               && !(first == 0 && c.EnabledIn(0, c.IndexAt(last))))
    ensures r.Ok? && r.value.Some? ==>
              exists low: nat :: c.LowestEnabled(first, last, low) &&
                            r.value.value == if c.zeros[low] > oldestUnpruned then c.zeros[low] else oldestUnpruned
    ensures r.Ok? && r.value.Some? ==>
              && oldestUnpruned <= r.value.value
              && (forall n :: r.value.value < n <= last ==> c.Enabled(n))
  {
    if last >= |c.touched| {
      return Err(UnknownBlock);
    }
    if first > last {
      return Err(ChangesTrieAccessFailed);
    }
    var required := RequireChangesTrie(c, first, last, false);
    if first > 0 {
      c.IndexMonotone(first - 1, last);
    }
    if required.Err? {
      return Ok(None);
    }
    var ranges := required.value;
    if |ranges| == 0 {
      return Ok(None);
    }
    var zero := ranges[|ranges| - 1].zero;
    ghost var low := c.IndexAt(last) + 1 - |ranges|;
    EnabledAbove(c, last, low, ranges);
    LowestReached(c, first, last, ranges);
    r := Ok(Some(if zero > oldestUnpruned then zero else oldestUnpruned));
  }

  /** Only one configuration is the lowest. */
  lemma LowestUnique(c: Chain, first: nat, last: nat, i: nat, j: nat)
    requires c.Valid() && c.LowestEnabled(first, last, i) && c.LowestEnabled(first, last, j)
    ensures i == j
  {
  }
}
