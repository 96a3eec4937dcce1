/** The weekly per-player table that the feature pass reads, its sort key
    (player_id, season, week) and the sort that puts the table in canonical order. */
module Rows {

  /** One row of the weekly table. The columns the feature pass only carries
      along (name, position, passing and yardage numbers, snaps, fantasy points)
      are kept so that the output visibly holds the same rows as the input. */
  datatype Row = Row(
    playerId: string,
    playerName: string,
    position: string,
    season: int,
    week: int,
    carries: int,
    targets: int,
    passAtt: int,
    rushYds: int,
    recYds: int,
    routes: int,
    snaps: int,
    fantasyPoints: real,
    injured: int)

  /** The sort key of a row. */
  datatype Key = Key(playerId: string, season: int, week: int)

  function KeyOf(r: Row): Key
  {
    Key(r.playerId, r.season, r.week)
  }

  // ---------------------------------------------------------------------------
  // Order on player ids: Python's `<=` on str, code point by code point, with a
  // proper prefix ordered first.
  // ---------------------------------------------------------------------------

  predicate StrLe(a: string, b: string)
  {
    a == [] || (b != [] && (a[0] < b[0] || (a[0] == b[0] && StrLe(a[1..], b[1..]))))
  }

  lemma {:induction false} StrLeTotal(a: string, b: string)
    ensures StrLe(a, b) || StrLe(b, a)
  {
    if a != [] && b != [] && a[0] == b[0] {
      StrLeTotal(a[1..], b[1..]);
    }
  }

  lemma {:induction false} StrLeAntisymmetric(a: string, b: string)
    requires StrLe(a, b) && StrLe(b, a)
    ensures a == b
  {
    if a != [] && b != [] {
      StrLeAntisymmetric(a[1..], b[1..]);
      assert a == [a[0]] + a[1..] && b == [b[0]] + b[1..];
    }
  }

  lemma {:induction false} StrLeTransitive(a: string, b: string, c: string)
    requires StrLe(a, b) && StrLe(b, c)
    ensures StrLe(a, c)
  {
    if a != [] && a[0] == b[0] && b[0] == c[0] {
      StrLeTransitive(a[1..], b[1..], c[1..]);
    }
  }

  // ---------------------------------------------------------------------------
  // The lexicographic order of `sort_values(["player_id", "season", "week"])`.
  // ---------------------------------------------------------------------------

  predicate KeyLe(a: Key, b: Key)
  {
    if a.playerId != b.playerId then StrLe(a.playerId, b.playerId)
    else if a.season != b.season then a.season < b.season
    else a.week <= b.week
  }

  predicate RowLe(x: Row, y: Row)
  {
    KeyLe(KeyOf(x), KeyOf(y))
  }

  lemma KeyLeTotal(a: Key, b: Key)
    ensures KeyLe(a, b) || KeyLe(b, a)
  {
    StrLeTotal(a.playerId, b.playerId);
  }

  lemma KeyLeAntisymmetric(a: Key, b: Key)
    requires KeyLe(a, b) && KeyLe(b, a)
    ensures a == b
  {
    if a.playerId != b.playerId {
      StrLeAntisymmetric(a.playerId, b.playerId);
    }
  }

  lemma KeyLeTransitive(a: Key, b: Key, c: Key)
    requires KeyLe(a, b) && KeyLe(b, c)
    ensures KeyLe(a, c)
  {
    if a.playerId != b.playerId && b.playerId != c.playerId {
      StrLeTransitive(a.playerId, b.playerId, c.playerId);
      if a.playerId == c.playerId {
        StrLeAntisymmetric(a.playerId, b.playerId);
      }
    }
  }

  /** A player's rows share a player id; rows with a smaller id come first. */
  lemma RowLePlayerId(x: Row, y: Row)
    requires RowLe(x, y)
    ensures StrLe(x.playerId, y.playerId)
  {
    if x.playerId == y.playerId {
      StrLeTotal(x.playerId, x.playerId);
    }
  }

  /** Ascending by (player_id, season, week), every pair of positions compared. */
  predicate Sorted(t: seq<Row>)
  {
    forall i, j :: 0 <= i < j < |t| ==> RowLe(t[i], t[j])
  }

  /** No two different rows share a (player_id, season, week) key. The sort
      does not check this; it is what makes the sorted order unique. */
  predicate KeysUnique(m: multiset<Row>)
  {
    forall x, y :: x in m && y in m && KeyOf(x) == KeyOf(y) ==> x == y
  }

  // ---------------------------------------------------------------------------
  // The sort itself, as an insertion sort.
  // ---------------------------------------------------------------------------

  lemma SortedTail(a: seq<Row>)
    requires Sorted(a) && a != []
    ensures Sorted(a[1..]) && multiset(a[1..]) == multiset(a) - multiset{a[0]}
  {
    assert forall i, j :: 0 <= i < j < |a| - 1 ==> a[1..][i] == a[i + 1] && a[1..][j] == a[j + 1];
    assert a == [a[0]] + a[1..];
  }

  /** A row that precedes every row of a sorted table can go in front of it. */
  lemma SortedCons(y: Row, r: seq<Row>)
    requires Sorted(r)
    requires forall j :: 0 <= j < |r| ==> RowLe(y, r[j])
    ensures Sorted([y] + r)
  {
    var t := [y] + r;
    forall i, j | 0 <= i < j < |t| ensures RowLe(t[i], t[j]) {
      if i > 0 {
        assert t[i] == r[i - 1] && t[j] == r[j - 1];
      } else {
        assert t[j] == r[j - 1];
      }
    }
  }

  function Insert(x: Row, s: seq<Row>): (r: seq<Row>)
    ensures |r| == |s| + 1
    ensures multiset(r) == multiset(s) + multiset{x}
  {
    if s == [] || RowLe(x, s[0]) then [x] + s
    else
      assert s == [s[0]] + s[1..];
      [s[0]] + Insert(x, s[1..])
  }

  /** Inserting into a sorted table keeps it sorted. */
  lemma {:induction false} InsertSorted(x: Row, s: seq<Row>)
    requires Sorted(s)
    ensures Sorted(Insert(x, s))
  {
    if s == [] || RowLe(x, s[0]) {
      forall j | 0 <= j < |s| ensures RowLe(x, s[j]) {
        if j > 0 { KeyLeTransitive(KeyOf(x), KeyOf(s[0]), KeyOf(s[j])); }
      }
      SortedCons(x, s);
    } else {
      var tail := s[1..];
      SortedTail(s);
      InsertSorted(x, tail);
      var rest := Insert(x, tail);
      KeyLeTotal(KeyOf(x), KeyOf(s[0]));
      forall j | 0 <= j < |rest| ensures RowLe(s[0], rest[j]) {
        assert rest[j] in multiset(rest);
        if rest[j] != x {
          assert rest[j] in multiset(tail);
          var m :| 0 <= m < |tail| && tail[m] == rest[j];
          assert tail[m] == s[m + 1];
        }
      }
      SortedCons(s[0], rest);
    }
  }

  /** `sort_values(["player_id", "season", "week"])`: N rows in, the same N
      rows out, ascending by key. */
  function SortByKey(t: seq<Row>): (r: seq<Row>)
    ensures |r| == |t|
    ensures multiset(r) == multiset(t)
    ensures Sorted(r)
  {
    if t == [] then []
    else
      assert t == [t[0]] + t[1..];
      InsertSorted(t[0], SortByKey(t[1..]));
      Insert(t[0], SortByKey(t[1..]))
  }

  /** The rows of t whose key is K, in table order. */
  function WithKey(t: seq<Row>, K: Key): (w: seq<Row>)
    ensures |w| <= |t|
  {
    if t == [] then []
    else (if KeyOf(t[0]) == K then [t[0]] else []) + WithKey(t[1..], K)
  }

  /** Inserting x puts it before every row that shares its key. */
  lemma {:induction false} InsertWithKey(x: Row, s: seq<Row>, K: Key)
    ensures WithKey(Insert(x, s), K) == (if KeyOf(x) == K then [x] else []) + WithKey(s, K)
  {
    if s == [] || RowLe(x, s[0]) {
      assert ([x] + s)[1..] == s;
    } else {
      assert KeyOf(x) != KeyOf(s[0]);
      var rest := Insert(x, s[1..]);
      InsertWithKey(x, s[1..], K);
      assert ([s[0]] + rest)[1..] == rest;
    }
  }

  /** The sort is stable: rows with equal keys keep their input order. */
  lemma {:induction false} SortByKeyStable(t: seq<Row>, K: Key)
    ensures WithKey(SortByKey(t), K) == WithKey(t, K)
  {
    if t != [] {
      SortByKeyStable(t[1..], K);
      InsertWithKey(t[0], SortByKey(t[1..]), K);
    }
  }

  /** Sorting a table that is already in canonical order leaves it as it is. */
  lemma {:induction false} SortByKeyOfSorted(t: seq<Row>)
    requires Sorted(t)
    ensures SortByKey(t) == t
  {
    if t != [] {
      SortByKeyOfSorted(t[1..]);
      assert t == [t[0]] + t[1..];
    }
  }

  /** The first row of a sorted table precedes every row of it. */
  lemma SortedHeadFirst(a: seq<Row>, x: Row)
    requires Sorted(a) && x in multiset(a)
    ensures RowLe(a[0], x)
  {
    var i :| 0 <= i < |a| && a[i] == x;
    if i == 0 {
      KeyLeTotal(KeyOf(x), KeyOf(x));
    }
  }

  lemma KeysUniqueSub(m: multiset<Row>, n: multiset<Row>)
    requires KeysUnique(m) && n <= m
    ensures KeysUnique(n)
  {
    forall x, y | x in n && y in n && KeyOf(x) == KeyOf(y) ensures x == y {
      assert x in m && y in m;
    }
  }

  /** Two sorted arrangements of the same rows with unique keys start with the
      same row. */
  lemma SortedHeadsAgree(a: seq<Row>, b: seq<Row>)
    requires Sorted(a) && Sorted(b) && a != [] && b != []
    requires multiset(a) == multiset(b)
    requires KeysUnique(multiset(a))
    ensures a[0] == b[0]
  {
    assert b[0] in multiset(b) && a[0] in multiset(a);
    SortedHeadFirst(a, b[0]);
    SortedHeadFirst(b, a[0]);
    KeyLeAntisymmetric(KeyOf(a[0]), KeyOf(b[0]));
  }

  /** What is left after removing the common first row meets the same
      conditions. */
  lemma SortedTailsAgree(a: seq<Row>, b: seq<Row>)
    requires Sorted(a) && Sorted(b) && a != []
    requires multiset(a) == multiset(b)
    requires KeysUnique(multiset(a))
    ensures b != [] && a[0] == b[0]
    ensures Sorted(a[1..]) && Sorted(b[1..])
    ensures multiset(a[1..]) == multiset(b[1..])
    ensures KeysUnique(multiset(a[1..]))
  {
    assert |b| == |multiset(b)| == |multiset(a)| == |a|;
    SortedHeadsAgree(a, b);
    SortedTail(a);
    SortedTail(b);
    KeysUniqueSub(multiset(a), multiset(a[1..]));
  }

  /** With unique keys, two sorted arrangements of the same rows are equal: the
      canonical order does not depend on how the sort is carried out. */
  lemma {:induction false} SortedPermutationUnique(a: seq<Row>, b: seq<Row>)
    requires Sorted(a) && Sorted(b)
    requires multiset(a) == multiset(b)
    requires KeysUnique(multiset(a))
    ensures a == b
  {
    if a == [] {
      assert |b| == |multiset(b)| == 0;
    } else {
      SortedTailsAgree(a, b);
      SortedPermutationUnique(a[1..], b[1..]);
      assert a == [a[0]] + a[1..] && b == [b[0]] + b[1..];
    }
  }
}
