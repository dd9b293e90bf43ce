/**
 * The game engine as the move-selection engine sees it. The engine itself
 * (move generation, move application, terminal detection, liberties) is not
 * part of this model: a position is given together with everything the
 * engine would answer about it, and with the ordered list of its legal moves
 * and the positions they lead to.
 */
module Game {
  import opened Values

  /** Players are numbered 0 and 1. */
  type PlayerId = p: int | 0 <= p < 2

  /** A move is the linear index of the cell it moves to. */
  type Action = int

  /** The engine's encoding of the board layout, used as the opening-book key. */
  type Board = int

  /**
   * A position: its ply count and board key, whether it is terminal, the
   * utility each player would be given there, each player's location and
   * the liberties (open neighbouring cells) of that location, and the
   * legal moves in the order the engine lists them.
   */
  datatype Tree = Node(
    ply: nat,
    board: Board,
    terminal: bool,
    utilities: (Value, Value),
    locs: (Action, Action),
    liberties: (seq<Action>, seq<Action>),
    moves: seq<Move>)

  /** A legal move and the position it produces. */
  datatype Move = Move(action: Action, result: Tree)

  /** The component of a per-player pair that belongs to player `p`. */
  function Of<T>(pair: (T, T), p: PlayerId): T
  {
    if p == 0 then pair.0 else pair.1
  }

  /** The other player. */
  function Opponent(p: PlayerId): PlayerId
  {
    1 - p
  }

  /** `state.utility(p)`. */
  function Utility(t: Tree, p: PlayerId): Value
  {
    Of(t.utilities, p)
  }

  /** `a in state.actions()`. */
  predicate IsLegal(t: Tree, a: Action)
  {
    exists i :: 0 <= i < |t.moves| && t.moves[i].action == a
  }

  /** A non-empty set of cells or board keys has an element to pick. */
  lemma HasElement(s: set<int>)
    requires s != {}
    ensures exists x :: x in s
  {
    if forall x :: x !in s {
      assert false;
    }
  }
}
