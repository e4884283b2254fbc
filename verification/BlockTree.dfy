/** The block tree kept by the backend: headers linked to their parents, the path that leads from
    genesis to a block, and the route between two blocks. */
module BlockTree {
  import opened Results

  // A hash identifies its header; collisions are outside the model.
  type Hash = nat

  datatype Header = Header(parent: Hash, number: nat)

  /** What lies between two blocks: the blocks left (newest first), the block where the branches
      meet, and the blocks entered (oldest first). */
  datatype TreeRoute = TreeRoute(retracted: seq<Hash>, common: Hash, enacted: seq<Hash>)

  /** How far two sequences agree. */
  ghost function Agreement(a: seq<Hash>, b: seq<Hash>): (k: nat)
    ensures k <= |a| && k <= |b| && a[..k] == b[..k]
    ensures k < |a| && k < |b| ==> a[k] != b[k]
    ensures a != [] && b != [] && a[0] == b[0] ==> k > 0
  {
    if a == [] || b == [] || a[0] != b[0] then 0
    else
      var k := Agreement(a[1..], b[1..]);
      assert a[..k + 1] == [a[0]] + a[1..][..k];
      assert b[..k + 1] == [b[0]] + b[1..][..k];
      k + 1
  }

  lemma {:induction false} AgreementUnique(a: seq<Hash>, b: seq<Hash>, k: nat)
    requires k <= |a| && k <= |b| && a[..k] == b[..k]
    requires k < |a| && k < |b| ==> a[k] != b[k]
    ensures Agreement(a, b) == k
    decreases k
  {
    if k > 0 {
      assert a[..k][0] == a[0] && b[..k][0] == b[0];
      assert a[1..][..k - 1] == a[..k][1..] && b[1..][..k - 1] == b[..k][1..];
      AgreementUnique(a[1..], b[1..], k - 1);
    }
  }

  lemma AgreementOfPrefix(a: seq<Hash>, b: seq<Hash>)
    ensures a <= b <==> Agreement(a, b) == |a|
  {
    if a <= b {
      AgreementUnique(a, b, |a|);
    }
  }

  lemma AgreementCommutes(a: seq<Hash>, b: seq<Hash>)
    ensures Agreement(a, b) == Agreement(b, a)
  {
    AgreementUnique(b, a, Agreement(a, b));
  }

  /** The blocks in the opposite order. */
  function Reversed(s: seq<Hash>): seq<Hash> {
    seq(|s|, i requires 0 <= i < |s| => s[|s| - 1 - i])
  }

  lemma ReversedTwice(s: seq<Hash>)
    ensures Reversed(Reversed(s)) == s
  {
  }

  lemma AgreementSplits(a: seq<Hash>, b: seq<Hash>)
    ensures var k := Agreement(a, b);
            && a == a[..k] + Reversed(Reversed(a[k..]))
            && b == a[..k] + b[k..]
            && (k < |a| && k < |b| ==> Reversed(a[k..])[|a| - k - 1] != b[k..][0])
  {
    var k := Agreement(a, b);
    ReversedTwice(a[k..]);
    assert b == b[..k] + b[k..];
  }

  datatype Tree = Tree(genesis: Hash, headers: map<Hash, Header>) {

    predicate Linked(h: Hash) {
      h in headers && h != genesis ==>
        var hd := headers[h];
        hd.parent in headers && hd.number == headers[hd.parent].number + 1
    }

    ghost predicate Valid() {
      && genesis in headers
      && headers[genesis].number == 0
      && forall h {:trigger Linked(h)} :: Linked(h)
    }

    /** The blocks from genesis to `h`, both included. */
    ghost function Path(h: Hash): (path: seq<Hash>)
      requires Valid() && h in headers
      ensures |path| == headers[h].number + 1
      ensures path[|path| - 1] == h
      decreases headers[h].number
    {
      assert Linked(h);
      if h == genesis then [h] else Path(headers[h].parent) + [h]
    }

    ghost predicate IsAncestor(a: Hash, h: Hash)
      requires Valid() && a in headers && h in headers
    {
      Path(a) <= Path(h)
    }

    /** The blocks after `a` on the way to its descendant `h`, oldest first. */
    ghost function After(a: Hash, h: Hash): seq<Hash>
      requires Valid() && a in headers && h in headers && IsAncestor(a, h)
    {
      Path(h)[headers[a].number + 1..]
    }

    /** The route as the two paths define it: split where they stop agreeing. */
    ghost function Route(a: Hash, b: Hash): TreeRoute
      requires Valid() && a in headers && b in headers
    {
      PathsStartAtGenesis(a);
      PathsStartAtGenesis(b);
      var k := Agreement(Path(a), Path(b));
      TreeRoute(Reversed(Path(a)[k..]), Path(a)[k - 1], Path(b)[k..])
    }

    lemma {:induction false} PathsStartAtGenesis(h: Hash)
      requires Valid() && h in headers
      ensures Path(h)[0] == genesis
      decreases headers[h].number
    {
      assert Linked(h);
      if h != genesis {
        PathsStartAtGenesis(headers[h].parent);
      }
    }

    /** The block at height `i` of a path is at height `i` of the tree, and its own path is the
        part up to it. */
    lemma {:induction false} PathBlock(h: Hash, i: nat)
      requires Valid() && h in headers && i < |Path(h)|
      ensures Path(h)[i] in headers
      ensures headers[Path(h)[i]].number == i
      ensures Path(Path(h)[i]) == Path(h)[..i + 1]
      decreases headers[h].number
    {
      assert Linked(h);
      if h != genesis && i < |Path(h)| - 1 {
        var parent := headers[h].parent;
        PathBlock(parent, i);
        assert Path(h)[i] == Path(parent)[i];
        assert Path(h)[..i + 1] == Path(parent)[..i + 1];
      } else {
        assert Path(h)[..i + 1] == Path(h);
      }
    }

    /** Being an ancestor is being found at one's own height on the path. */
    lemma AncestorByHeight(a: Hash, h: Hash)
      requires Valid() && a in headers && h in headers
      ensures IsAncestor(a, h) <==>
              headers[a].number <= headers[h].number && Path(h)[headers[a].number] == a
    {
      var n := headers[a].number;
      if n <= headers[h].number && Path(h)[n] == a {
        PathBlock(h, n);
      }
    }

    /** Neighbours on a path are parent and child. */
    lemma {:induction false} PathLinked(h: Hash, i: nat)
      requires Valid() && h in headers && 0 < i < |Path(h)|
      ensures var b := Path(h)[i];
              && b in headers && b != genesis
              && headers[b].number == i
              && headers[b].parent == Path(h)[i - 1]
      decreases headers[h].number
    {
      assert Linked(h);
      var parent := headers[h].parent;
      if i < |Path(h)| - 1 {
        PathLinked(parent, i);
      }
    }

    /** Consecutive blocks of `After` are parent and child, and the first is a child of `a`. */
    lemma AfterIsLinked(a: Hash, h: Hash, i: nat)
      requires Valid() && a in headers && h in headers && IsAncestor(a, h)
      requires i < |After(a, h)|
      ensures var b := After(a, h)[i];
              && b in headers
              && b != genesis
              && headers[b].number == headers[a].number + 1 + i
              && headers[b].parent == (if i == 0 then a else After(a, h)[i - 1])
    {
      AncestorByHeight(a, h);
      PathLinked(h, headers[a].number + 1 + i);
    }

    /** `After` cut at a block on the way is the two legs, one after the other. */
    lemma AfterSplits(a: Hash, m: Hash, h: Hash)
      requires Valid() && a in headers && m in headers && h in headers
      requires IsAncestor(a, m) && IsAncestor(m, h)
      ensures IsAncestor(a, h)
      ensures After(a, h) == After(a, m) + After(m, h)
    {
      assert Path(m) == Path(h)[..|Path(m)|];
    }

    /** The two paths are the shared part followed by what is retracted and what is enacted, and
        the shared part is as long as it can be. */
    lemma RouteSplits(a: Hash, b: Hash)
      requires Valid() && a in headers && b in headers
      ensures var r := Route(a, b);
              && r.common in headers
              && Path(a) == Path(r.common) + Reversed(r.retracted)
              && Path(b) == Path(r.common) + r.enacted
              && (r.retracted != [] && r.enacted != [] ==> r.retracted[|r.retracted| - 1] != r.enacted[0])
    {
      PathsStartAtGenesis(a);
      PathsStartAtGenesis(b);
      var k := Agreement(Path(a), Path(b));
      PathBlock(a, k - 1);
      AgreementSplits(Path(a), Path(b));
    }

    lemma RouteAncestors(a: Hash, b: Hash)
      requires Valid() && a in headers && b in headers
      ensures Route(a, b).retracted == [] <==> IsAncestor(a, b)
      ensures Route(a, b).common == b <==> IsAncestor(b, a)
      ensures IsAncestor(a, b) ==> Route(a, b).enacted == After(a, b)
    {
      RouteSplits(a, b);
      AgreementOfPrefix(Path(a), Path(b));
      AgreementOfPrefix(Path(b), Path(a));
      AgreementCommutes(Path(a), Path(b));
      var r := Route(a, b);
      if r.common == b {
        assert Path(b) <= Path(a);
      }
    }

    /** A larger tree keeps the paths of the smaller one. */
    lemma {:induction false} PathKept(t: Tree, h: Hash)
      requires Valid() && t.Valid() && genesis == t.genesis
      requires headers.Keys <= t.headers.Keys
      requires forall x :: x in headers ==> headers[x] == t.headers[x]
      requires h in headers
      ensures Path(h) == t.Path(h)
      decreases headers[h].number
    {
      assert Linked(h) && t.Linked(h);
      if h != genesis {
        PathKept(t, headers[h].parent);
      }
    }

    predicate ExtendedBy(t: Tree) {
      && genesis == t.genesis
      && headers.Keys <= t.headers.Keys
      && forall x :: x in headers ==> headers[x] == t.headers[x]
    }

    lemma AncestorKept(t: Tree, a: Hash, h: Hash)
      requires Valid() && t.Valid() && ExtendedBy(t)
      requires a in headers && h in headers
      ensures IsAncestor(a, h) <==> t.IsAncestor(a, h)
      ensures IsAncestor(a, h) ==> After(a, h) == t.After(a, h)
    {
      PathKept(t, a);
      PathKept(t, h);
    }

    /** Adding a block below its parent (or adding a known block again) keeps the tree valid. */
    lemma Insert(h: Hash, hd: Header)
      requires Valid()
      requires hd.parent in headers && hd.number == headers[hd.parent].number + 1
      requires h in headers ==> headers[h] == hd
      ensures var t := Tree(genesis, headers[h := hd]);
              t.Valid() && ExtendedBy(t) && h != genesis && t.Path(h) == Path(hd.parent) + [h]
    {
      var t := Tree(genesis, headers[h := hd]);
      forall x
        ensures t.Linked(x)
      {
        assert Linked(x);
      }
      assert t.Linked(h);
      PathKept(t, hd.parent);
    }
  }

  lemma ReversedGrows(s: seq<Hash>, x: Hash)
    ensures Reversed([x] + s) == Reversed(s) + [x]
  {
  }

  /** `x` lies on the path to `goal`, and `branch` holds the blocks above it, newest first. */
  ghost predicate Walked(t: Tree, goal: Hash, x: Hash, branch: seq<Hash>)
    requires t.Valid() && goal in t.headers
  {
    && x in t.headers
    && t.headers[x].number < |t.Path(goal)|
    && t.Path(goal)[t.headers[x].number] == x
    && branch == Reversed(t.Path(goal)[t.headers[x].number + 1..])
  }

  lemma WalkOn(t: Tree, goal: Hash, x: Hash, branch: seq<Hash>)
    requires t.Valid() && goal in t.headers && Walked(t, goal, x, branch)
    requires t.headers[x].number > 0
    ensures x != t.genesis
    ensures t.headers[x].parent in t.headers
    ensures t.headers[t.headers[x].parent].number == t.headers[x].number - 1
    ensures Walked(t, goal, t.headers[x].parent, branch + [x])
  {
    var n := t.headers[x].number;
    var path := t.Path(goal);
    t.PathBlock(goal, n);
    assert t.Linked(x);
    assert path[..n + 1] == t.Path(t.headers[x].parent) + [x];
    assert path[n - 1] == path[..n + 1][n - 1];
    assert path[n..] == [x] + path[n + 1..];
    ReversedGrows(path[n + 1..], x);
  }

  /** The paths do not hold the same block at height `k`. */
  ghost predicate Apart(t: Tree, a: Hash, b: Hash, k: nat)
    requires t.Valid() && a in t.headers && b in t.headers
  {
    k < |t.Path(a)| && k < |t.Path(b)| ==> t.Path(a)[k] != t.Path(b)[k]
  }

  lemma WalkMeets(t: Tree, a: Hash, b: Hash, x: Hash, fromBranch: seq<Hash>, toBranch: seq<Hash>)
    requires t.Valid() && a in t.headers && b in t.headers
    requires Walked(t, a, x, fromBranch) && Walked(t, b, x, toBranch)
    requires Apart(t, a, b, t.headers[x].number + 1)
    ensures TreeRoute(fromBranch, x, Reversed(toBranch)) == t.Route(a, b)
  {
    var k := t.headers[x].number + 1;
    t.PathBlock(a, k - 1);
    t.PathBlock(b, k - 1);
    AgreementUnique(t.Path(a), t.Path(b), k);
    ReversedTwice(t.Path(b)[k..]);
  }

  /** Walks both branches back to the block they share, as the client's tree_route queries do. */
  method FindRoute(t: Tree, a: Hash, b: Hash) returns (r: Result<TreeRoute>)
    requires t.Valid()
    ensures r.Err? <==> a !in t.headers || b !in t.headers
    ensures r.Ok? ==> r.value == t.Route(a, b)
  {
    if a !in t.headers || b !in t.headers {
      return Err(UnknownBlock);
    }
    var from, to := a, b;
    var fromBranch, toBranch := [], [];
    while t.headers[to].number > t.headers[from].number
      invariant Walked(t, b, to, toBranch)
      invariant to == b || t.headers[to].number >= t.headers[a].number
      decreases t.headers[to].number
    {
      WalkOn(t, b, to, toBranch);
      toBranch := toBranch + [to];
      to := t.headers[to].parent;
    }
    while t.headers[from].number > t.headers[to].number
      invariant Walked(t, a, from, fromBranch)
      invariant t.headers[from].number >= t.headers[to].number
      invariant to == b || t.headers[to].number == t.headers[a].number
      decreases t.headers[from].number
    {
      WalkOn(t, a, from, fromBranch);
      fromBranch := fromBranch + [from];
      from := t.headers[from].parent;
    }
    assert Apart(t, a, b, t.headers[to].number + 1);
    while to != from
      invariant Walked(t, a, from, fromBranch) && Walked(t, b, to, toBranch)
      invariant t.headers[from].number == t.headers[to].number
      invariant Apart(t, a, b, t.headers[to].number + 1)
      decreases t.headers[to].number
    {
      t.PathsStartAtGenesis(a);
      t.PathsStartAtGenesis(b);
      WalkOn(t, a, from, fromBranch);
      WalkOn(t, b, to, toBranch);
      toBranch := toBranch + [to];
      to := t.headers[to].parent;
      fromBranch := fromBranch + [from];
      from := t.headers[from].parent;
    }
    WalkMeets(t, a, b, to, fromBranch, toBranch);
    r := Ok(TreeRoute(fromBranch, to, Reversed(toBranch)));
  }
}
