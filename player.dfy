/**
 * The agent: per-turn decision policy (random opening moves, opening-book
 * lookup, iterative-deepening alpha-beta), the per-game training context
 * kept during self-play, and the fold of a finished game into the opening
 * book. The result channel the agent pushes moves to is the sequence
 * `queue`; a push appends to it.
 */
module Player {
  import opened Wrappers
  import opened Game
  import opened Book
  import Search

  /** Iterative-deepening bounds. */
  const MinDepth := 3
  const MaxDepth := 3
  /** Plies played at random before any search. */
  const RandomPlies := 2
  /** Plies during which the book is consulted and the training context recorded. */
  const BookPlies := 8

  /** The exceptions `get_action` and its helpers raise, each named for its cause. */
  datatype Error =
    | NoLegalAction   // `random.choice` or `max` over an empty list of actions
    | ContextMissing  // writing into a context that was never created
    | BookMissing     // looking a board up in a book that was never loaded
    | EmptyBookEntry  // `max` over a book entry with no actions

  /** How a turn ended: moves pushed to the queue, a move returned (self-play), or an exception. */
  datatype Turn = Queued | Chose(action: Action) | Raised(error: Error)

  /**
   * The moves iterative deepening pushes, one per completed depth from
   * `MinDepth` on: the alpha-beta choice at each depth.
   */
  function Deepening(t: Tree, p: PlayerId, count: nat): (moves: seq<Action>)
    requires |t.moves| > 0
    ensures |moves| == count
    ensures forall j :: 0 <= j < count ==> IsLegal(t, moves[j])
    ensures forall j :: 0 <= j < count ==> moves[j] == Search.BestMove(t, MinDepth + j, p).value
  {
    if count == 0 then []
    else
      Search.BestMoveIsMinimax(t, MinDepth + count - 1, p);
      Deepening(t, p, count - 1) + [Search.BestMove(t, MinDepth + count - 1, p).value]
  }

  /** Exactly one move was pushed, and it is legal. */
  ghost predicate RandomlyQueued(t: Tree, before: seq<Action>, after: seq<Action>)
  {
    |after| == |before| + 1 && after[..|before|] == before && IsLegal(t, after[|before|])
  }

  /** A turn played without the book: random before `RandomPlies`, search after. */
  ghost predicate WithoutBook(t: Tree, p: PlayerId, before: seq<Action>, after: seq<Action>, r: Turn)
  {
    if |t.moves| == 0 then r == Raised(NoLegalAction) && after == before
    else if t.ply < RandomPlies then r == Queued && RandomlyQueued(t, before, after)
    else r == Queued && after == before + Deepening(t, p, MaxDepth - MinDepth + 1)
  }

  /** A turn whose board is in the book: its best-rated action if usable, else as without the book. */
  ghost predicate FromBook(entry: map<Action, Counters>, t: Tree, p: PlayerId, before: seq<Action>, after: seq<Action>, r: Turn)
  {
    if entry == map[] then r == Raised(EmptyBookEntry) && after == before
    else
      exists a ::
        && IsBestRated(entry, a)
        && if UseAction(entry[a]) then r == Queued && after == before + [a]
           else WithoutBook(t, p, before, after, r)
  }

  /** A turn in play (not self-play), with or without the book. */
  ghost predicate NormalTurn(t: Tree, p: PlayerId, useBook: bool, data: Option<BookData>,
                             before: seq<Action>, after: seq<Action>, r: Turn)
  {
    if useBook && t.ply < BookPlies then
      if data.None? then r == Raised(BookMissing) && after == before
      else if t.board in data.value then FromBook(data.value[t.board], t, p, before, after, r)
      else WithoutBook(t, p, before, after, r)
    else WithoutBook(t, p, before, after, r)
  }

  /**
   * A self-play turn: a random move before `RandomPlies` starts a fresh
   * context, a searched move after it; before `BookPlies` the move is
   * recorded in the context under the board.
   */
  ghost predicate SimulationTurn(t: Tree, p: PlayerId, ctx: Option<Context>, ctx': Option<Context>, r: Turn)
  {
    if |t.moves| == 0 then r == Raised(NoLegalAction) && ctx' == ctx
    else if t.ply < RandomPlies then r.Chose? && IsLegal(t, r.action) && ctx' == Some(map[t.board := r.action])
    else if t.ply < BookPlies && ctx.None? then r == Raised(ContextMissing) && ctx' == ctx
    else
      && r == Chose(Search.BestMove(t, MaxDepth, p).value)
      && ctx' == if t.ply < BookPlies then Some(ctx.value[t.board := r.action]) else ctx
  }

  /** The book `store_book` writes into: the loaded one, or a fresh one when none was loaded. */
  function BaseBook(data: Option<BookData>): BookData
  {
    if data.Some? then data.value else map[]
  }

  class CustomPlayer {
    const playerId: PlayerId
    /** The opening book loaded at start-up, None when there was none. */
    var data: Option<BookData>
    /** The current self-play game's board -> action record. */
    var context: Option<Context>
    /** The moves pushed to the result channel so far. */
    var queue: seq<Action>

    constructor (playerId: PlayerId, data: Option<BookData>)
      ensures this.playerId == playerId && this.data == data
      ensures context == None && queue == []
    {
      this.playerId := playerId;
      this.data := data;
      context := None;
      queue := [];
    }

    /** `random_action(state)`: pushes a move picked among the legal ones. */
    method RandomAction(t: Tree) returns (ok: bool)
      modifies this`queue
      ensures ok <==> |t.moves| > 0
      ensures ok ==> RandomlyQueued(t, old(queue), queue)
      ensures !ok ==> queue == old(queue)
    {
      if |t.moves| == 0 {
        return false;
      }
      var i :| 0 <= i < |t.moves|;  // 0 is a witness, since the list is not empty
      queue := queue + [t.moves[i].action];
      ok := true;
    }

    /** `find_actions(state)`: pushes the alpha-beta move of each depth from `MinDepth` to `MaxDepth`. */
    method FindActions(t: Tree) returns (ok: bool)
      modifies this`queue
      ensures ok <==> |t.moves| > 0
      ensures ok ==> queue == old(queue) + Deepening(t, playerId, MaxDepth - MinDepth + 1)
      ensures !ok ==> queue == old(queue)
    {
      for depth := MinDepth to MaxDepth + 1
        invariant |t.moves| == 0 ==> depth == MinDepth && queue == old(queue)
        invariant |t.moves| > 0 ==> queue == old(queue) + Deepening(t, playerId, depth - MinDepth)
      {
        var best := Search.AlphaBeta(t, depth, playerId);
        if best.None? {
          return false;
        }
        queue := queue + [best.value];
      }
      ok := true;
    }

    /** The turn without the book: the branch `get_action` repeats in each of its book cases. */
    method PlayWithoutBook(t: Tree) returns (r: Turn)
      modifies this`queue
      ensures WithoutBook(t, playerId, old(queue), queue, r)
    {
      var ok;
      if t.ply < RandomPlies {
        ok := RandomAction(t);
      } else {
        ok := FindActions(t);
      }
      r := if ok then Queued else Raised(NoLegalAction);
    }

    /** `get_simulated_action(state)`: the self-play move, recorded in the context. */
    method GetSimulatedAction(t: Tree) returns (r: Turn)
      modifies this`context
      ensures SimulationTurn(t, playerId, old(context), context, r)
    {
      var book: Option<Context>;
      var action: Action;
      if t.ply < RandomPlies {
        book := Some(map[]);
        if |t.moves| == 0 {
          return Raised(NoLegalAction);
        }
        var i :| 0 <= i < |t.moves|;  // 0 is a witness, since the list is not empty
        action := t.moves[i].action;
      } else {
        book := context;
        var best := Search.AlphaBeta(t, MaxDepth, playerId);
        if best.None? {
          return Raised(NoLegalAction);
        }
        action := best.value;
      }
      if t.ply < BookPlies {
        if book.None? {
          return Raised(ContextMissing);
        }
        context := Some(book.value[t.board := action]);
      }
      r := Chose(action);
    }

    /**
     * `store_book(won)`: folds the context into the book, creating missing
     * counters at {0, 0} and counting one won or lost game for each recorded
     * (board, action). Returns the book that is written out, None when
     * there is no context. When no book was loaded the counts go to a
     * fresh book that is written out but not kept.
     */
    method StoreBook(won: bool) returns (saved: Option<BookData>)
      modifies this`data
      ensures context.None? ==> saved.None? && data == old(data)
      ensures context.Some? ==> saved == Some(Record(BaseBook(old(data)), context.value, won))
      ensures data == if old(data).Some? && context.Some? then saved else old(data)
    {
      if context.None? {
        return None;
      }
      var d := FoldContext(BaseBook(data), context.value, won);
      saved := Some(d);
      if data.Some? {
        data := saved;
      }
    }

    /**
     * `get_action(state, simulation, use_book)`: the per-turn entry point.
     * Self-play returns its move; play pushes one or more moves to the queue.
     */
    method GetAction(t: Tree, simulation: bool, useBook: bool) returns (r: Turn)
      modifies this`queue, this`context
      ensures simulation ==> queue == old(queue) && SimulationTurn(t, playerId, old(context), context, r)
      ensures !simulation ==> context == old(context) && NormalTurn(t, playerId, useBook, data, old(queue), queue, r)
    {
      if simulation {
        r := GetSimulatedAction(t);
        return;
      }
      if !useBook {
        r := PlayWithoutBook(t);
      } else if t.ply < BookPlies {
        if data.None? {
          return Raised(BookMissing);
        }
        if t.board in data.value {
          var entry := data.value[t.board];
          var best := BestRated(entry);
          if best.None? {
            return Raised(EmptyBookEntry);
          }
          var action := best.value;
          if UseAction(entry[action]) {
            queue := queue + [action];
            r := Queued;
          } else {
            r := PlayWithoutBook(t);
          }
        } else {
          r := PlayWithoutBook(t);
        }
      } else {
        r := PlayWithoutBook(t);
      }
    }
  }

  /** Every turn in play that does not raise pushes at least one move (the result-channel protocol). */
  lemma NormalTurnQueues(t: Tree, p: PlayerId, useBook: bool, data: Option<BookData>,
                         before: seq<Action>, after: seq<Action>, r: Turn)
    requires NormalTurn(t, p, useBook, data, before, after, r) && !r.Raised?
    ensures |after| > |before| && after[..|before|] == before
  {
  }

  /** Without the book every queued move is legal, and a search turn queues one per depth. */
  lemma WithoutBookQueues(t: Tree, p: PlayerId, before: seq<Action>, after: seq<Action>, r: Turn)
    requires WithoutBook(t, p, before, after, r) && !r.Raised?
    ensures |after| > |before| && after[..|before|] == before
    ensures forall j :: |before| <= j < |after| ==> IsLegal(t, after[j])
    ensures t.ply >= RandomPlies ==> |after| == |before| + MaxDepth - MinDepth + 1
  {
  }

  /** The context a self-play turn leaves behind. */
  lemma SimulationTurnContext(t: Tree, p: PlayerId, ctx: Option<Context>, ctx': Option<Context>, r: Turn)
    requires SimulationTurn(t, p, ctx, ctx', r) && r.Chose?
    ensures IsLegal(t, r.action)
    ensures t.ply < RandomPlies ==> ctx' == Some(map[t.board := r.action])
    ensures t.ply < BookPlies ==> ctx'.Some? && t.board in ctx'.value && ctx'.value[t.board] == r.action
    ensures t.ply >= BookPlies ==> ctx' == ctx
  {
  }
}
