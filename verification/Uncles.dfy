/** The uncles query: side branches hanging off the last generations of a block's ancestry. */
module Uncles {
  import opened Results
  import opened BlockTree

  const MAX_U32: nat := 0xFFFF_FFFF

  function Saturated(n: nat): nat {
    if n <= MAX_U32 then n else MAX_U32
  }

  predicate IsChild(t: Tree, parent: Hash, x: Hash) {
    x in t.headers && x != t.genesis && t.headers[x].parent == parent
  }

  /** The backend's index of children lists each child of each block once. */
  ghost predicate Indexes(t: Tree, children: map<Hash, seq<Hash>>) {
    && t.headers.Keys <= children.Keys
    && forall h, x :: h in t.headers ==> multiset(children[h])[x] == if IsChild(t, h, x) then 1 else 0
  }

  /** `x` is not on the way to `target`, but its parent is one of the `k` blocks above `target`. */
  ghost predicate IsUncle(t: Tree, target: Hash, k: nat, x: Hash)
    requires t.Valid() && target in t.headers
  {
    && x in t.headers && x != t.genesis && t.Linked(x)
    && t.IsAncestor(t.headers[x].parent, target)
    && !t.IsAncestor(x, target)
    && t.headers[target].number - k < t.headers[x].number <= t.headers[target].number
  }

  function Without(s: seq<Hash>, h: Hash): seq<Hash> {
    if s == [] then []
    else (if s[0] == h then [] else [s[0]]) + Without(s[1..], h)
  }

  lemma {:induction false} WithoutCounts(s: seq<Hash>, h: Hash, x: Hash)
    ensures multiset(Without(s, h))[x] == if x == h then 0 else multiset(s)[x]
  {
    if s != [] {
      WithoutCounts(s[1..], h, x);
      assert s == [s[0]] + s[1..];
    }
  }

  /** A child of the `k`-th ancestor is an uncle of generation exactly `k` unless it is the next
      block on the way to the target. */
  lemma NextGeneration(t: Tree, target: Hash, k: nat, x: Hash)
    requires t.Valid() && target in t.headers && k < t.headers[target].number
    ensures var path, n := t.Path(target), t.headers[target].number;
            && (IsUncle(t, target, k + 1, x) <==>
                IsUncle(t, target, k, x) || (IsChild(t, path[n - k - 1], x) && x != path[n - k]))
            && !(IsUncle(t, target, k, x) && IsChild(t, path[n - k - 1], x))
  {
    var path, n := t.Path(target), t.headers[target].number;
    t.PathBlock(target, n - k - 1);
    t.PathBlock(target, n - k);
    if x in t.headers && x != t.genesis {
      assert t.Linked(x);
      t.AncestorByHeight(x, target);
      t.AncestorByHeight(t.headers[x].parent, target);
    }
  }

  /** Just the uncles of the first `k` generations, each once. */
  ghost predicate Holds(t: Tree, target: Hash, k: nat, uncles: seq<Hash>)
    requires t.Valid() && target in t.headers
  {
    forall x :: multiset(uncles)[x] == if IsUncle(t, target, k, x) then 1 else 0
  }

  /** Appending the siblings of the block on the way adds one generation. */
  lemma SiblingsAppended(t: Tree, children: map<Hash, seq<Hash>>, target: Hash, k: nat, uncles: seq<Hash>)
    requires t.Valid() && Indexes(t, children) && target in t.headers && k < t.headers[target].number
    requires Holds(t, target, k, uncles)
    ensures var path, n := t.Path(target), t.headers[target].number;
            && path[n - k - 1] in t.headers
            && Holds(t, target, k + 1, uncles + Without(children[path[n - k - 1]], path[n - k]))
  {
    var path, n := t.Path(target), t.headers[target].number;
    t.PathBlock(target, n - k - 1);
    var siblings := Without(children[path[n - k - 1]], path[n - k]);
    forall x
      ensures multiset(uncles + siblings)[x] == if IsUncle(t, target, k + 1, x) then 1 else 0
    {
      WithoutCounts(children[path[n - k - 1]], path[n - k], x);
      NextGeneration(t, target, k, x);
    }
  }

  /** `current` is the `i`-th block above the target and `ancestor` its parent. */
  ghost predicate Climbed(t: Tree, target: Hash, i: nat, current: Hash, ancestor: Hash)
    requires t.Valid() && target in t.headers
  {
    var path, n := t.Path(target), t.headers[target].number;
    && i < n && current == path[n - i] && ancestor == path[n - i - 1]
  }

  /** One block up there is genesis, or a block whose parent is there. */
  lemma ClimbOn(t: Tree, target: Hash, i: nat, current: Hash, ancestor: Hash)
    requires t.Valid() && target in t.headers && Climbed(t, target, i, current, ancestor)
    ensures ancestor in t.headers
    ensures ancestor == t.genesis <==> i + 1 == t.headers[target].number
    ensures ancestor != t.genesis ==>
              t.headers[ancestor].parent in t.headers && Climbed(t, target, i + 1, ancestor, t.headers[ancestor].parent)
  {
    var n := t.headers[target].number;
    t.PathsStartAtGenesis(target);
    if i + 1 < n {
      t.PathLinked(target, n - i - 1);
      assert t.Linked(ancestor);
    }
  }

  /** Every uncle of the first `min(maxGeneration, height)` generations, each once and nothing else.
      Only an unknown target fails: genesis' own parent is never looked up. */
  method FindUncles(t: Tree, children: map<Hash, seq<Hash>>, target: Hash, maxGeneration: nat)
    returns (r: Result<seq<Hash>>)
    requires t.Valid() && Indexes(t, children)
    ensures r.Err? <==> target !in t.headers
    ensures r.Ok? ==>
              var n := t.headers[target].number;
              var most := if maxGeneration < 0x1_0000_0000 then maxGeneration else 0xFFFF_FFFF;
              Holds(t, target, if most < n then most else n, r.value)
  {
    if t.genesis == target {
      return Ok([]);
    }
    if target !in t.headers {
      return Err(UnknownBlock);
    }
    var current := target;
    assert t.Linked(target);
    var ancestor := t.headers[target].parent;
    if ancestor !in t.headers {
      return Err(UnknownBlock);
    }
    var uncles: seq<Hash> := [];
    var generations, i := Saturated(maxGeneration), 0;
    t.PathLinked(target, t.headers[target].number);
    while i < generations
      invariant i <= generations && Climbed(t, target, i, current, ancestor)
      invariant Holds(t, target, i, uncles)
    {
      SiblingsAppended(t, children, target, i, uncles);
      ClimbOn(t, target, i, current, ancestor);
      uncles := uncles + Without(children[ancestor], current);
      i := i + 1;
      current := ancestor;
      if t.genesis == current {
        break;
      }
      ancestor := t.headers[current].parent;
      if ancestor !in t.headers {
        return Err(UnknownBlock);
      }
    }
    r := Ok(uncles);
  }
}
