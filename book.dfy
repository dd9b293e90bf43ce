/**
 * Opening-book statistics: per (board, action) win/loss counters, the
 * confidence gate and win ratio derived from them, the fold of one game's
 * recorded choices into the counters, and the choice of the best-rated
 * action of a book entry.
 */
module Book {
  import opened Wrappers
  import opened Game

  /** Fewest recorded games before a book entry is trusted. */
  const MinNrOfGames := 3

  datatype Counters = Counters(wins: nat, losses: nat)

  /** board -> action -> counters. */
  type BookData = map<Board, map<Action, Counters>>

  /** The choices of one game: board -> action played there. */
  type Context = map<Board, Action>

  /** Enough games recorded for the counters to be taken into account. */
  predicate Enough(c: Counters)
  {
    c.wins + c.losses >= MinNrOfGames
  }

  /** `use_action(results)`: enough games, and at least as many wins as losses. */
  function UseAction(c: Counters): (use: bool)
    ensures use <==> Enough(c) && c.wins >= c.losses
  {
    if c.wins + c.losses < MinNrOfGames then false
    else if c.wins < c.losses then false
    else true
  }

  /** `get_ratio(results)`: the fraction of won games, 0 while too few games are recorded. */
  function GetRatio(c: Counters): (ratio: real)
    ensures 0.0 <= ratio <= 1.0
    ensures !Enough(c) ==> ratio == 0.0
    ensures Enough(c) ==> ratio * (c.wins + c.losses) as real == c.wins as real
  {
    if c.wins + c.losses < MinNrOfGames then 0.0
    else c.wins as real / (c.wins + c.losses) as real
  }

  lemma UseActionExamples()
    ensures !UseAction(Counters(2, 0))
    ensures UseAction(Counters(3, 0))
    ensures !UseAction(Counters(1, 2))
  {
  }

  /** The gate is the ratio test: an action is used iff it is rated and wins at least half its games. */
  lemma UseActionIffRatio(c: Counters)
    ensures UseAction(c) <==> Enough(c) && GetRatio(c) >= 0.5
  {
    if Enough(c) {
      var w, l := c.wins as real, c.losses as real;
      assert GetRatio(c) == w / (w + l);
      HalfIff(w, l);
    }
  }

  /** More wins never lower the ratio. */
  lemma RatioMonotoneInWins(c: Counters, wins: nat)
    requires c.wins <= wins
    ensures GetRatio(c) <= GetRatio(Counters(wins, c.losses))
  {
    if Enough(c) {
      var w, w', l := c.wins as real, wins as real, c.losses as real;
      assert GetRatio(c) == w / (w + l);
      assert GetRatio(Counters(wins, c.losses)) == w' / (w' + l);
      CrossWins(w, w', l);
      DivLe(w, w + l, w', w' + l);
    }
  }

  /** Once an entry is rated, more losses never raise the ratio. */
  lemma RatioAntitoneInLosses(c: Counters, losses: nat)
    requires Enough(c) && c.losses <= losses
    ensures GetRatio(Counters(c.wins, losses)) <= GetRatio(c)
  {
    var w, l, l' := c.wins as real, c.losses as real, losses as real;
    assert GetRatio(c) == w / (w + l);
    assert GetRatio(Counters(c.wins, losses)) == w / (w + l');
    CrossLosses(w, l, l');
    DivLe(w, w + l', w, w + l);
  }

  // Real-arithmetic steps of the ratio lemmas, stated on plain variables.

  lemma DivLe(w: real, n: real, v: real, m: real)
    requires n > 0.0 && m > 0.0 && w * m <= v * n
    ensures w / n <= v / m
  {
  }

  lemma CrossWins(w: real, w': real, l: real)
    requires 0.0 <= w <= w' && 0.0 <= l
    ensures w * (w' + l) <= w' * (w + l)
  {
  }

  lemma CrossLosses(w: real, l: real, l': real)
    requires 0.0 <= w && 0.0 <= l <= l'
    ensures w * (w + l) <= w * (w + l')
  {
  }

  lemma HalfIff(w: real, l: real)
    requires 0.0 <= w && 0.0 <= l && w + l > 0.0
    ensures w / (w + l) >= 0.5 <==> w >= l
  {
  }

  /**
   * Below the threshold the ratio is 0, so one more loss can raise it: the
   * ratio is not antitone in losses across the threshold.
   */
  lemma RatioNotAntitoneBelowThreshold()
    ensures GetRatio(Counters(2, 0)) < GetRatio(Counters(2, 1))
  {
  }

  /** `a` has the highest ratio in the book entry. */
  predicate IsBestRated(entry: map<Action, Counters>, a: Action)
  {
    a in entry && forall b :: b in entry ==> GetRatio(entry[b]) <= GetRatio(entry[a])
  }

  /**
   * `max(self.data[board], key=get_ratio)`: scans the entry (in an order the
   * model leaves open) and keeps an action of highest ratio; None on an
   * empty entry, where `max` raises.
   */
  method BestRated(entry: map<Action, Counters>) returns (best: Option<Action>)
    ensures best.None? <==> entry == map[]
    ensures best.Some? ==> IsBestRated(entry, best.value)
  {
    if entry == map[] {
      return None;
    }
    var rest := entry.Keys;
    HasElement(rest);
    var k :| k in rest;
    var bestRatio := GetRatio(entry[k]);
    rest := rest - {k};
    while rest != {}
      invariant rest <= entry.Keys
      invariant k in entry && bestRatio == GetRatio(entry[k])
      invariant forall b :: b in entry && b !in rest ==> GetRatio(entry[b]) <= bestRatio
      decreases |rest|
    {
      HasElement(rest);
      var b :| b in rest;
      var r := GetRatio(entry[b]);
      if r > bestRatio {
        k, bestRatio := b, r;
      }
      rest := rest - {b};
    }
    best := Some(k);
  }

  /** The counters of (k, a), {0, 0} when the book has none. */
  function CountersOf(data: BookData, k: Board, a: Action): Counters
  {
    if k in data && a in data[k] then data[k][a] else Counters(0, 0)
  }

  /** One more won (or lost) game. */
  function Bump(c: Counters, won: bool): (d: Counters)
    ensures d.wins + d.losses == c.wins + c.losses + 1
    ensures won ==> d.wins == c.wins + 1 && d.losses == c.losses
    ensures !won ==> d.wins == c.wins && d.losses == c.losses + 1
  {
    if won then c.(wins := c.wins + 1) else c.(losses := c.losses + 1)
  }

  /** The entry of board `k` after recording one game in which `a` was played there. */
  function RecordedEntry(data: BookData, k: Board, a: Action, won: bool): map<Action, Counters>
  {
    (if k in data then data[k] else map[])[a := Bump(CountersOf(data, k, a), won)]
  }

  /** The book after folding in one game's context and its outcome. */
  function Record(data: BookData, ctx: Context, won: bool): BookData
  {
    map k | k in data.Keys + ctx.Keys ::
      if k in ctx then RecordedEntry(data, k, ctx[k], won) else data[k]
  }

  /**
   * `d` is `data` with the boards of `ctx` outside `rest` recorded and those
   * in `rest` not yet touched: the state of a fold of `ctx` into `data` that
   * visits the boards in any order.
   */
  ghost predicate PartlyRecorded(data: BookData, ctx: Context, won: bool, rest: set<Board>, d: BookData)
  {
    && d.Keys == data.Keys + (ctx.Keys - rest)
    && forall k :: k in d ==>
         d[k] == if k in ctx && k !in rest then RecordedEntry(data, k, ctx[k], won) else data[k]
  }

  /** Recording one more board `k` of `rest`, whose entry is still the original one. */
  lemma RecordStep(data: BookData, ctx: Context, won: bool, rest: set<Board>, d: BookData, k: Board)
    requires rest <= ctx.Keys && k in rest && PartlyRecorded(data, ctx, won, rest, d)
    ensures (if k in d then d[k] else map[]) == (if k in data then data[k] else map[])
    ensures PartlyRecorded(data, ctx, won, rest - {k}, d[k := RecordedEntry(data, k, ctx[k], won)])
  {
  }

  /** With nothing left to visit, the fold is `Record`. */
  lemma RecordDone(data: BookData, ctx: Context, won: bool, d: BookData)
    requires PartlyRecorded(data, ctx, won, {}, d)
    ensures d == Record(data, ctx, won)
  {
    var r := Record(data, ctx, won);
    assert d.Keys == r.Keys;
    forall k | k in d
      ensures d[k] == r[k]
    {
    }
  }

  /**
   * The loop of `store_book`: visits the recorded boards (in an order the
   * model leaves open) and, for each, creates the board's entry and the
   * action's counters at {0, 0} when missing, then counts the game as won
   * or lost.
   */
  method FoldContext(data: BookData, ctx: Context, won: bool) returns (d: BookData)
    ensures d == Record(data, ctx, won)
  {
    d := data;
    var rest := ctx.Keys;
    while rest != {}
      invariant rest <= ctx.Keys
      invariant PartlyRecorded(data, ctx, won, rest, d)
      decreases |rest|
    {
      HasElement(rest);
      var k :| k in rest;
      var v := ctx[k];
      var entry := if k in d then d[k] else map[];
      var c := if v in entry then entry[v] else Counters(0, 0);
      if won {
        c := c.(wins := c.wins + 1);
      } else {
        c := c.(losses := c.losses + 1);
      }
      RecordStep(data, ctx, won, rest, d, k);
      assert c == Bump(CountersOf(data, k, v), won);
      d := d[k := entry[v := c]];
      rest := rest - {k};
    }
    RecordDone(data, ctx, won, d);
  }

  /**
   * Recording a game bumps exactly the counters of the recorded pairs, by
   * one game each, creating them at {0, 0} first, and leaves every other
   * board, action and counter as it was.
   */
  lemma RecordSpec(data: BookData, ctx: Context, won: bool, k: Board, a: Action)
    ensures var r := Record(data, ctx, won);
      && (k in r && a in r[k] <==> (k in data && a in data[k]) || (k in ctx && ctx[k] == a))
      && (k in ctx && ctx[k] == a ==> CountersOf(r, k, a) == Bump(CountersOf(data, k, a), won))
      && (k !in ctx || ctx[k] != a ==> CountersOf(r, k, a) == CountersOf(data, k, a))
  {
  }

  /** Counters never decrease. */
  lemma RecordMonotone(data: BookData, ctx: Context, won: bool, k: Board, a: Action)
    ensures CountersOf(data, k, a).wins <= CountersOf(Record(data, ctx, won), k, a).wins
    ensures CountersOf(data, k, a).losses <= CountersOf(Record(data, ctx, won), k, a).losses
  {
  }
}
