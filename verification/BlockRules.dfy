/** Chain-specification rules: configured fork hashes and known bad blocks. */
module BlockRules {
  import opened Results
  import opened BlockTree

  datatype LookupResult = NotSpecial | KnownBad | Expected(hash: Hash)

  /** The rules as a value. */
  datatype Rules = Rules(bad: set<Hash>, forks: map<nat, Hash>) {

    function Lookup(number: nat, hash: Hash): LookupResult {
      if number in forks && forks[number] != hash then Expected(forks[number])
      else if hash in bad then KnownBad
      else NotSpecial
    }
  }

  /** The hash configured for a height: the last entry of the list wins. */
  function ForkAt(entries: seq<(nat, Hash)>, number: nat): Option<Hash> {
    if entries == [] then None
    else if entries[|entries| - 1].0 == number then Some(entries[|entries| - 1].1)
    else ForkAt(entries[..|entries| - 1], number)
  }

  function AfterRevert(r: Rules, reverted: seq<Hash>, blacklist: bool): Rules {
    if blacklist then r.(bad := r.bad + set h | h in reverted) else r
  }

  /** The entry is the last one for its height. */
  ghost predicate LastAt(entries: seq<(nat, Hash)>, i: int) {
    0 <= i < |entries| && forall j :: i < j < |entries| ==> entries[j].0 != entries[i].0
  }

  lemma {:induction false} ForkOfLast(entries: seq<(nat, Hash)>, i: int)
    requires LastAt(entries, i)
    ensures ForkAt(entries, entries[i].0) == Some(entries[i].1)
  {
    if i < |entries| - 1 {
      assert LastAt(entries[..|entries| - 1], i);
      ForkOfLast(entries[..|entries| - 1], i);
    }
  }

  lemma {:induction false} ForkOfSome(entries: seq<(nat, Hash)>, number: nat)
    ensures ForkAt(entries, number).Some? ==>
              exists i :: LastAt(entries, i) && entries[i] == (number, ForkAt(entries, number).value)
  {
    if entries != [] {
      var n := |entries| - 1;
      if entries[n].0 == number {
        assert LastAt(entries, n);
      } else {
        ForkOfSome(entries[..n], number);
        if ForkAt(entries, number).Some? {
          var i :| LastAt(entries[..n], i) && entries[..n][i] == (number, ForkAt(entries[..n], number).value);
          forall j | i < j < |entries|
            ensures entries[j].0 != entries[i].0
          {
            assert j < n ==> entries[..n][j] == entries[j];
          }
          assert LastAt(entries, i);
        }
      }
    }
  }

  /** The rules hold the configured lists: at each height the hash of the last entry, and the bad
      blocks; an absent list is empty. */
  ghost predicate Configured(r: Rules, forkBlocks: Option<seq<(nat, Hash)>>, badBlocks: Option<set<Hash>>) {
    && (forall h :: h in r.bad <==> badBlocks.Some? && h in badBlocks.value)
    && (forkBlocks.None? ==> r.forks == map[])
    && (forkBlocks.Some? ==>
          && (forall i :: LastAt(forkBlocks.value, i) ==>
                            var (number, hash) := forkBlocks.value[i];
                            number in r.forks && r.forks[number] == hash)
          && (forall n :: n in r.forks ==> exists i :: LastAt(forkBlocks.value, i) && forkBlocks.value[i].0 == n))
  }

  lemma ConfiguredBy(r: Rules, entries: seq<(nat, Hash)>, badBlocks: Option<set<Hash>>)
    requires r.bad == if badBlocks.Some? then badBlocks.value else {}
    requires forall n: nat :: n in r.forks <==> ForkAt(entries, n).Some?
    requires forall n: nat :: n in r.forks ==> r.forks[n] == ForkAt(entries, n).value
    ensures Configured(r, Some(entries), badBlocks)
  {
    forall i | LastAt(entries, i)
      ensures entries[i].0 in r.forks && r.forks[entries[i].0] == entries[i].1
    {
      ForkOfLast(entries, i);
    }
    forall n | n in r.forks
      ensures exists i :: LastAt(entries, i) && entries[i].0 == n
    {
      ForkOfSome(entries, n);
    }
  }

  /** Exactly which rule speaks against a block: the fork rule first, then the bad blocks. */
  lemma LookupExactly(r: Rules, number: nat, hash: Hash)
    ensures var wrongFork := number in r.forks && r.forks[number] != hash;
            && (r.Lookup(number, hash).Expected? <==> wrongFork)
            && (wrongFork ==> r.Lookup(number, hash).hash == r.forks[number])
            && (r.Lookup(number, hash).KnownBad? <==> hash in r.bad && !wrongFork)
            && (r.Lookup(number, hash).NotSpecial? <==> hash !in r.bad && !wrongFork)
  {
  }

  class BlockRules {
    var bad: set<Hash>
    var forks: map<nat, Hash>

    function View(): Rules
      reads this
    {
      Rules(bad, forks)
    }

    constructor (forkBlocks: Option<seq<(nat, Hash)>>, badBlocks: Option<set<Hash>>)
      ensures Configured(View(), forkBlocks, badBlocks)
    {
      bad := if badBlocks.Some? then badBlocks.value else {};
      forks := map[];
      new;
      if forkBlocks.Some? {
        var entries := forkBlocks.value;
        for i := 0 to |entries|
          invariant bad == if badBlocks.Some? then badBlocks.value else {}
          invariant forall n: nat :: (n in forks <==> ForkAt(entries[..i], n).Some?)
          invariant forall n: nat :: n in forks ==> forks[n] == ForkAt(entries[..i], n).value
        {
          assert entries[..i + 1][..i] == entries[..i];
          forks := forks[entries[i].0 := entries[i].1];
        }
        assert entries[..|entries|] == entries;
        ConfiguredBy(View(), entries, badBlocks);
      }
    }

    method MarkBad(hash: Hash)
      modifies this`bad
      ensures bad == old(bad) + {hash}
    {
      bad := bad + {hash};
    }

    /** The blacklisting part of an unsafe revert. */
    method UnsafeRevert(reverted: seq<Hash>, blacklist: bool)
      modifies this`bad
      ensures View() == AfterRevert(old(View()), reverted, blacklist)
    {
      if blacklist {
        for i := 0 to |reverted|
          invariant bad == old(bad) + set h | h in reverted[..i]
        {
          assert reverted[..i + 1] == reverted[..i] + [reverted[i]];
          MarkBad(reverted[i]);
        }
        assert reverted[..|reverted|] == reverted;
      }
    }
  }
}
