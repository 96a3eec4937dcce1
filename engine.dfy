/** `engineer_features` as one pass over the sorted table: per player it keeps
    the last (at most three) rows with running sums of their touches, routes and
    flags, the previous row's touches and the running injury count, and resets
    them where a new player's block begins. */
module Engine {
  import opened Rows
  import opened Grouping
  import opened Windows
  import opened Features
  import opened Table

  /** Running sums over the kept window. */
  datatype Tally = Tally(touches: int, routes: int, healthy: int, injured: int)

  function TallyOf(w: seq<Row>): Tally
  {
    Tally(Sum(ColumnOf(Touches, w)), Sum(ColumnOf(Routes, w)),
          Sum(ColumnOf(Healthy, w)), Sum(ColumnOf(Injured, w)))
  }

  /** A row enters the window. */
  function Add(t: Tally, r: Row): Tally
  {
    Tally(t.touches + TouchesOf(r), t.routes + r.routes, t.healthy + (1 - r.injured), t.injured + r.injured)
  }

  /** A row leaves the window. */
  function Remove(t: Tally, r: Row): (t': Tally)
    ensures Add(t', r) == t
  {
    Tally(t.touches - TouchesOf(r), t.routes - r.routes, t.healthy - (1 - r.injured), t.injured - r.injured)
  }

  lemma TallyPush(w: seq<Row>, r: Row)
    ensures TallyOf(w + [r]) == Add(TallyOf(w), r)
  {
    ColumnOfPush(Touches, w, r);
    ColumnOfPush(Routes, w, r);
    ColumnOfPush(Healthy, w, r);
    ColumnOfPush(Injured, w, r);
  }

  lemma TallyDropFirst(w: seq<Row>)
    requires w != []
    ensures TallyOf(w[1..]) == Remove(TallyOf(w), w[0])
  {
    ColumnOfDropFirst(Touches, w);
    ColumnOfDropFirst(Routes, w);
    ColumnOfDropFirst(Healthy, w);
    ColumnOfDropFirst(Injured, w);
  }

  /** The rows the window of a block's last row holds: its last three or fewer. */
  function Trailing(block: seq<Row>): (w: seq<Row>)
    ensures |w| <= Width
    ensures block != [] ==> w != [] && w[|w| - 1] == block[|block| - 1]
  {
    if block == [] then [] else block[WindowStart(|block| - 1)..]
  }

  /** Pushing a row onto the kept window, after dropping its oldest row when
      it is full, gives the window of the longer block. */
  lemma TrailingPush(block: seq<Row>, buf: seq<Row>, r: Row)
    requires buf == Trailing(block) || (|Trailing(block)| == Width && buf == Trailing(block)[1..])
    requires |buf| < Width
    ensures buf + [r] == Trailing(block + [r])
  {
  }

  lemma SlicePush<T>(s: seq<T>, a: nat, b: nat)
    requires a <= b < |s|
    ensures s[a..b + 1] == s[a..b] + [s[b]]
  {
  }

  /** What the pass keeps between rows: where the current player's block
      began, that block's trailing window with the window's sums, the previous
      row's touches and the block's injury count. */
  datatype State = State(start: nat, buf: seq<Row>, tally: Tally, prevTouches: int, injuries: int)

  /** The state the pass must hold once rows 0 .. k - 1 of s are taken in. */
  ghost function StateAt(s: seq<Row>, k: nat): State
    requires k <= |s|
  {
    if k == 0 then State(0, [], Tally(0, 0, 0, 0), 0, 0)
    else
      var start := BlockStart(s, k - 1);
      var w := Trailing(s[start..k]);
      State(start, w, TallyOf(w), TouchesOf(s[k - 1]), Sum(ColumnOf(Injured, s[start..k])))
  }

  /** Takes row k into the kept state: a new player resets the block, a full
      window drops its oldest row, and then row k is pushed. */
  method Slide(s: seq<Row>, k: nat, st: State) returns (st': State)
    requires k < |s| && st == StateAt(s, k)
    ensures st' == StateAt(s, k + 1)
  {
    var r := s[k];
    if k == 0 || r.playerId != s[k - 1].playerId {
      // A new player: every window and counter starts afresh.
      SlideReset(s, k);
      st' := State(k, [r], Add(Tally(0, 0, 0, 0), r), TouchesOf(r), r.injured);
    } else {
      var w, t := st.buf, st.tally;
      if |w| == Width {
        // The window is full: the oldest row leaves it.
        TallyDropFirst(w);
        t := Remove(t, w[0]);
        w := w[1..];
      }
      SlideExtend(s, k, w);
      st' := State(st.start, w + [r], Add(t, r), TouchesOf(r), st.injuries + r.injured);
    }
  }

  /** The state after the row that opens a player's block. */
  lemma SlideReset(s: seq<Row>, k: nat)
    requires k < |s| && (k == 0 || s[k].playerId != s[k - 1].playerId)
    ensures StateAt(s, k + 1) == State(k, [s[k]], Add(Tally(0, 0, 0, 0), s[k]), TouchesOf(s[k]), s[k].injured)
  {
    assert s[k..k + 1] == [s[k]];
    TallyPush([], s[k]);
    ColumnOfPush(Injured, [], s[k]);
  }

  /** The state after a row that continues its player's block, pushed onto a
      window that has room for it. */
  lemma SlideExtend(s: seq<Row>, k: nat, w: seq<Row>)
    requires 0 < k < |s| && s[k].playerId == s[k - 1].playerId
    requires var kept := StateAt(s, k).buf; w == kept || (|kept| == Width && w == kept[1..])
    requires |w| < Width
    ensures StateAt(s, k + 1)
         == State(StateAt(s, k).start, w + [s[k]], Add(TallyOf(w), s[k]), TouchesOf(s[k]),
                  StateAt(s, k).injuries + s[k].injured)
  {
    var start := BlockStart(s, k - 1);
    assert BlockStart(s, k) == start;
    var block := s[start..k];
    TrailingPush(block, w, s[k]);
    TallyPush(w, s[k]);
    ColumnOfPush(Injured, block, s[k]);
    SlicePush(s, start, k);
  }

  /** The derived columns of a row as the pass computes them from the kept
      state once the row is taken in: the window's size and sums, the injury
      count, and the previous row's touches unless the row opens its block. */
  function Streamed(r: Row, first: bool, prevTouches: int, st: State): Derived
    requires st.buf != []
  {
    Derived(
      TouchesOf(r),
      WorkloadOf(r),
      st.tally.touches as real / |st.buf| as real,
      if first then 0 else TouchesOf(r) - prevTouches,
      st.tally.routes as real / |st.buf| as real,
      st.tally.healthy,
      st.tally.injured,
      st.injuries)
  }

  /** Row k with its derived columns, computed from the kept state once row k
      is taken in. */
  method Emit(s: seq<Row>, k: nat, st: State, prevTouches: int) returns (a: Augmented)
    requires BlocksFresh(s) && k < |s|
    requires st == StateAt(s, k + 1)
    requires 0 < k ==> prevTouches == TouchesOf(s[k - 1])
    ensures a == Augmented(s[k], DerivedOfRow(s, k))
  {
    EmitCorrect(s, k, st, prevTouches);
    a := Augmented(s[k], Streamed(s[k], k == st.start, prevTouches, st));
  }

  /** What the pass emits for row k is the row of the groupwise definition. */
  lemma EmitCorrect(s: seq<Row>, k: nat, st: State, prevTouches: int)
    requires BlocksFresh(s) && k < |s|
    requires st == StateAt(s, k + 1)
    requires 0 < k ==> prevTouches == TouchesOf(s[k - 1])
    ensures st.buf != []
    ensures Streamed(s[k], k == st.start, prevTouches, st) == DerivedOfRow(s, k)
  {
    var start := BlockStart(s, k);
    assert st.start == start;
    assert NewBlock(s, start);
    EmitMatchesSpec(s, start, k, s[start..k + 1], st.buf,
      Streamed(s[k], k == start, prevTouches, st));
  }

  /** `engineer_features`: sort df, then emit each row with its derived
      columns in a single pass. */
  method EngineerFeatures(df: seq<Row>) returns (out: seq<Augmented>)
    ensures out == EngineerSpec(df)
  {
    var s := SortByKey(df);
    SortedBlocksFresh(s);
    out := [];
    var st := State(0, [], Tally(0, 0, 0, 0), 0, 0);
    var k: nat := 0;
    assert s[..0] == [];
    while k < |s|
      invariant k <= |s|
      invariant st == StateAt(s, k)
      invariant out == Augment(s[..k])
    {
      var prevTouches := st.prevTouches;
      st := Slide(s, k, st);
      var a := Emit(s, k, st, prevTouches);
      AugmentStep(s, k);
      out := out + [a];
      k := k + 1;
    }
    assert s[..k] == s;
  }

  /** The row the one-pass computation emits is the row of the groupwise
      definition. */
  lemma EmitMatchesSpec(s: seq<Row>, start: nat, k: nat, block: seq<Row>, buf: seq<Row>, d: Derived)
    requires InBlock(s, start, k) && Group(s[..start], s[k].playerId) == []
    requires block == s[start..k + 1]
    requires buf == Trailing(block)
    requires d == Derived(
      TouchesOf(s[k]),
      WorkloadOf(s[k]),
      Sum(ColumnOf(Touches, buf)) as real / |buf| as real,
      if k == start then 0 else TouchesOf(s[k]) - TouchesOf(s[k - 1]),
      Sum(ColumnOf(Routes, buf)) as real / |buf| as real,
      Sum(ColumnOf(Healthy, buf)),
      Sum(ColumnOf(Injured, buf)),
      Sum(ColumnOf(Injured, block)))
    ensures d == DerivedOfRow(s, k)
  {
    BlockEnds(s, start, k, block);
    DerivedOfLastFromWindow(block, buf);
    DerivedOfRowIsBlockLast(s, start, k, block);
  }

  /** The last row of the block start .. k is row k, and the one before it
      row k - 1. */
  lemma BlockEnds(s: seq<Row>, start: nat, k: nat, block: seq<Row>)
    requires start <= k < |s| && block == s[start..k + 1]
    ensures |block| == k - start + 1 && block[|block| - 1] == s[k]
    ensures k > start ==> block[|block| - 2] == s[k - 1]
  {
  }

  lemma DerivedOfRowIsBlockLast(s: seq<Row>, start: nat, k: nat, block: seq<Row>)
    requires InBlock(s, start, k) && Group(s[..start], s[k].playerId) == []
    requires block == s[start..k + 1]
    ensures DerivedOfRow(s, k) == DerivedAt(block, |block| - 1)
  {
    BlockSplit(s, start, k + 1, s[k].playerId);
    assert [] + block == block;
    DerivedOfGroupPrefix(s, k, block);
  }
}
