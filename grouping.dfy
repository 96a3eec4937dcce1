/** `groupby("player_id")`: the rows of one player in table order, and where a
    row stands among them. */
module Grouping {
  import opened Rows

  /** The rows of player p, in the order the table holds them. */
  function Group(t: seq<Row>, p: string): (g: seq<Row>)
    ensures |g| <= |t|
    ensures forall j :: 0 <= j < |g| ==> g[j].playerId == p
  {
    if t == [] then []
    else Group(t[..|t| - 1], p) + (if t[|t| - 1].playerId == p then [t[|t| - 1]] else [])
  }

  /** The position of row k among its player's rows: how many of that player's
      rows come before it. */
  function Rank(t: seq<Row>, k: nat): nat
    requires k < |t|
  {
    |Group(t[..k], t[k].playerId)|
  }

  lemma GroupStep(t: seq<Row>, k: nat, p: string)
    requires k < |t|
    ensures Group(t[..k + 1], p) == Group(t[..k], p) + (if t[k].playerId == p then [t[k]] else [])
  {
    assert t[..k + 1][..k] == t[..k];
  }

  /** The group of a prefix of the table is a prefix of the group. */
  lemma {:induction false} GroupOfPrefix(t: seq<Row>, j: nat, p: string)
    requires j <= |t|
    ensures |Group(t[..j], p)| <= |Group(t, p)|
    ensures Group(t[..j], p) == Group(t, p)[..|Group(t[..j], p)|]
  {
    if j == |t| {
      assert t[..j] == t;
    } else {
      var init := t[..|t| - 1];
      GroupOfPrefix(init, j, p);
      assert init[..j] == t[..j];
    }
  }

  /** Row k is the Rank(t, k)-th row of its player's group. */
  lemma RankLocates(t: seq<Row>, k: nat)
    requires k < |t|
    ensures Rank(t, k) < |Group(t, t[k].playerId)|
    ensures Group(t, t[k].playerId)[Rank(t, k)] == t[k]
    ensures Group(t[..k + 1], t[k].playerId) == Group(t, t[k].playerId)[..Rank(t, k) + 1]
  {
    var p := t[k].playerId;
    GroupStep(t, k, p);
    GroupOfPrefix(t, k + 1, p);
  }

  /** Grouping keeps exactly the player's rows, each as often as the table
      holds it. */
  lemma {:induction false} GroupCount(t: seq<Row>, p: string, r: Row)
    ensures multiset(Group(t, p))[r] == if r.playerId == p then multiset(t)[r] else 0
  {
    if t != [] {
      var init := t[..|t| - 1];
      GroupCount(init, p, r);
      assert t == init + [t[|t| - 1]];
    }
  }

  /** The rows of p in two tables holding the same rows are the same rows. */
  lemma GroupOfPermutation(t: seq<Row>, u: seq<Row>, p: string)
    requires multiset(t) == multiset(u)
    ensures multiset(Group(t, p)) == multiset(Group(u, p))
  {
    forall r ensures multiset(Group(t, p))[r] == multiset(Group(u, p))[r] {
      GroupCount(t, p, r);
      GroupCount(u, p, r);
    }
  }

  lemma GroupSubMultiset(t: seq<Row>, p: string)
    ensures multiset(Group(t, p)) <= multiset(t)
  {
    forall r ensures multiset(Group(t, p))[r] <= multiset(t)[r] {
      GroupCount(t, p, r);
    }
  }

  /** A row that every row of u precedes also follows every row of p in u. */
  lemma GroupBelow(u: seq<Row>, p: string, x: Row)
    requires forall m :: 0 <= m < |u| ==> RowLe(u[m], x)
    ensures forall i :: 0 <= i < |Group(u, p)| ==> RowLe(Group(u, p)[i], x)
  {
    var g := Group(u, p);
    forall i | 0 <= i < |g| ensures RowLe(g[i], x) {
      GroupSubMultiset(u, p);
      assert g[i] in multiset(u);
      var m :| 0 <= m < |u| && u[m] == g[i];
    }
  }

  lemma SortedPush(g: seq<Row>, x: Row)
    requires Sorted(g)
    requires forall i :: 0 <= i < |g| ==> RowLe(g[i], x)
    ensures Sorted(g + [x])
  {
  }

  /** The rows of one player in a sorted table are sorted. */
  lemma {:induction false} GroupSorted(t: seq<Row>, p: string)
    requires Sorted(t)
    ensures Sorted(Group(t, p))
  {
    if t != [] {
      var init, x := t[..|t| - 1], t[|t| - 1];
      assert Sorted(init);
      GroupSorted(init, p);
      if x.playerId == p {
        assert forall m :: 0 <= m < |init| ==> init[m] == t[m];
        GroupBelow(init, p, x);
        SortedPush(Group(init, p), x);
      } else {
        assert Group(t, p) == Group(init, p) + [];
      }
    }
  }

  /** In a sorted table a player's rows are contiguous. */
  lemma SortedContiguous(t: seq<Row>, i: nat, j: nat, k: nat)
    requires Sorted(t)
    requires i <= j <= k < |t|
    requires t[i].playerId == t[k].playerId
    ensures t[j].playerId == t[i].playerId
  {
    if i < j < k {
      RowLePlayerId(t[i], t[j]);
      RowLePlayerId(t[j], t[k]);
      StrLeAntisymmetric(t[i].playerId, t[j].playerId);
    }
  }

  /** Rows start .. k are one player's and start is where that player's block
      begins. */
  predicate InBlock(t: seq<Row>, start: nat, k: nat)
  {
    && start <= k < |t|
    && (forall j :: start <= j <= k ==> t[j].playerId == t[k].playerId)
    && (start == 0 || t[start - 1].playerId != t[k].playerId)
  }

  lemma {:induction false} GroupOfAbsent(u: seq<Row>, p: string)
    requires forall j :: 0 <= j < |u| ==> u[j].playerId != p
    ensures Group(u, p) == []
  {
    if u != [] {
      GroupOfAbsent(u[..|u| - 1], p);
    }
  }

  lemma GroupPush(t: seq<Row>, x: Row, p: string)
    ensures Group(t + [x], p) == Group(t, p) + (if x.playerId == p then [x] else [])
  {
    assert (t + [x])[..|t|] == t;
  }

  lemma {:induction false} GroupOfPresent(v: seq<Row>, u: seq<Row>, p: string)
    requires forall j :: 0 <= j < |u| ==> u[j].playerId == p
    ensures Group(v + u, p) == Group(v, p) + u
  {
    if u == [] {
      assert v + u == v;
    } else {
      var init, x := u[..|u| - 1], u[|u| - 1];
      assert u == init + [x];
      assert v + u == (v + init) + [x];
      GroupOfPresent(v, init, p);
      GroupPush(v + init, x, p);
    }
  }

  /** In a sorted table no row before a player's block belongs to that player. */
  lemma BeforeBlockAbsent(t: seq<Row>, start: nat, k: nat)
    requires Sorted(t) && InBlock(t, start, k)
    ensures Group(t[..start], t[k].playerId) == []
  {
    var p := t[k].playerId;
    var v := t[..start];
    forall j | 0 <= j < |v| ensures v[j].playerId != p {
      if t[j].playerId == p {
        SortedContiguous(t, j, start - 1, k);
      }
    }
    GroupOfAbsent(v, p);
  }

  lemma BlockSplit(t: seq<Row>, start: nat, m: nat, p: string)
    requires start <= m <= |t|
    requires forall j :: start <= j < m ==> t[j].playerId == p
    ensures Group(t[..m], p) == Group(t[..start], p) + t[start..m]
  {
    var u := t[start..m];
    assert forall j :: 0 <= j < |u| ==> u[j] == t[start + j];
    assert t[..m] == t[..start] + u;
    GroupOfPresent(t[..start], u, p);
  }

  /** In a sorted table, the player's rows up to row k are exactly its block
      start .. k, so row k stands at position k - start within its group. */
  lemma BlockIsGroupPrefix(t: seq<Row>, start: nat, k: nat)
    requires Sorted(t) && InBlock(t, start, k)
    ensures Group(t[..k + 1], t[k].playerId) == t[start..k + 1]
    ensures Rank(t, k) == k - start
  {
    var p := t[k].playerId;
    BeforeBlockAbsent(t, start, k);
    BlockSplit(t, start, k + 1, p);
    BlockSplit(t, start, k, p);
  }

  /** Row k opens a player's block: it is the first row or follows another
      player's row. */
  predicate NewBlock(t: seq<Row>, k: nat)
  {
    k < |t| && (k == 0 || t[k - 1].playerId != t[k].playerId)
  }

  /** No player's rows appear before the row that opens that player's block. */
  ghost predicate BlocksFresh(t: seq<Row>)
  {
    forall k: nat {:trigger NewBlock(t, k)} :: NewBlock(t, k) ==> Group(t[..k], t[k].playerId) == []
  }

  /** In a sorted table every block is fresh: a player's rows are contiguous. */
  lemma SortedBlocksFresh(t: seq<Row>)
    requires Sorted(t)
    ensures BlocksFresh(t)
  {
    forall k: nat | NewBlock(t, k) ensures Group(t[..k], t[k].playerId) == [] {
      assert k < |t|;
      assert InBlock(t, k, k);
      BeforeBlockAbsent(t, k, k);
    }
  }
}
