/**
 * The fixed-depth minimax search of `player/basicAI/MiniMax.java`. The
 * search runs over an abstract game: the classes `Board`, `Player`,
 * `MoveTransition` and `RegularBoardEvaluator` are not part of this
 * model, so a `Game` supplies the current player's legal moves in their
 * enumeration order, `makeMove`, the side to move, the checkmate and
 * stalemate tests and the evaluator, each as a total function. Scores are
 * Java `int`s; `Integer.MIN_VALUE` and `Integer.MAX_VALUE` start the
 * running maximum and minimum.
 */
module MiniMax {

  import opened Wrappers
  import opened Geometry
  import opened Moves

  const MIN_VALUE: int := -0x8000_0000
  const MAX_VALUE: int := 0x7fff_ffff

  /** A Java `int`. */
  type Int32 = v: int | MIN_VALUE <= v <= MAX_VALUE

  /** `MoveTransition`: the board after the attempt and whether the move was made. */
  datatype MoveTransition<B> = MoveTransition(transitionBoard: B, moveStatus: MoveStatus)

  datatype Game<!B, !M> = Game(
    legalMoves: B -> seq<M>,
    makeMove: (B, M) -> MoveTransition<B>,
    currentAlliance: B -> Alliance,
    isInCheckmate: B -> bool,
    isInStalemate: B -> bool,
    evaluate: (B, int) -> Int32)

  /** `isEndGame`: the side to move is checkmated or stalemated. */
  predicate IsEndGame<B, M>(g: Game<B, M>, b: B)
  {
    g.isInCheckmate(b) || g.isInStalemate(b)
  }

  /** Playing `m` on `b` is a made move (status `DONE`). */
  predicate IsDoneMove<B, M>(g: Game<B, M>, b: B, m: M)
  {
    g.makeMove(b, m).moveStatus.IsDone()
  }

  function Child<B, M>(g: Game<B, M>, b: B, m: M): B
  {
    g.makeMove(b, m).transitionBoard
  }

  /** The value `max(board, depth)` computes. */
  function MaxValue<B, M>(g: Game<B, M>, b: B, depth: nat): Int32
    decreases depth, 1
  {
    if depth == 0 || IsEndGame(g, b) then g.evaluate(b, depth)
    else Highest(g, b, g.legalMoves(b), depth)
  }

  /** The value `min(board, depth)` computes. */
  function MinValue<B, M>(g: Game<B, M>, b: B, depth: nat): Int32
    decreases depth, 1
  {
    if depth == 0 || IsEndGame(g, b) then g.evaluate(b, depth)
    else Lowest(g, b, g.legalMoves(b), depth)
  }

  /** `highestEncounteredValue` after `max`'s loop has visited `moves`. */
  function Highest<B, M>(g: Game<B, M>, b: B, moves: seq<M>, depth: nat): Int32
    requires depth >= 1
    decreases depth, 0, |moves|
  {
    if moves == [] then MIN_VALUE
    else
      var acc := Highest(g, b, moves[..|moves| - 1], depth);
      var m := moves[|moves| - 1];
      if IsDoneMove(g, b, m) then
        var v := MinValue(g, Child(g, b, m), depth - 1);
        if v >= acc then v else acc
      else acc
  }

  /** `lowestEncounteredValue` after `min`'s loop has visited `moves`. */
  function Lowest<B, M>(g: Game<B, M>, b: B, moves: seq<M>, depth: nat): Int32
    requires depth >= 1
    decreases depth, 0, |moves|
  {
    if moves == [] then MAX_VALUE
    else
      var acc := Lowest(g, b, moves[..|moves| - 1], depth);
      var m := moves[|moves| - 1];
      if IsDoneMove(g, b, m) then
        var v := MaxValue(g, Child(g, b, m), depth - 1);
        if v <= acc then v else acc
      else acc
  }

  /** `max(board, searchDepth)`. */
  method Max<B, M>(g: Game<B, M>, b: B, searchDepth: nat) returns (value: Int32)
    ensures value == MaxValue(g, b, searchDepth)
    decreases searchDepth, 1
  {
    if searchDepth == 0 || IsEndGame(g, b) {
      return g.evaluate(b, searchDepth);
    }
    var highestEncounteredValue: Int32 := MIN_VALUE;
    var moves := g.legalMoves(b);
    for i := 0 to |moves|
      invariant highestEncounteredValue == Highest(g, b, moves[..i], searchDepth)
    {
      var moveTransition := g.makeMove(b, moves[i]);
      if moveTransition.moveStatus.IsDone() {
        var currentValue := Min(g, moveTransition.transitionBoard, searchDepth - 1);
        if currentValue >= highestEncounteredValue {
          highestEncounteredValue := currentValue;
        }
      }
      assert moves[..i + 1][..i] == moves[..i];
    }
    assert moves[..|moves|] == moves;
    return highestEncounteredValue;
  }

  /** `min(board, searchDepth)`. */
  method Min<B, M>(g: Game<B, M>, b: B, searchDepth: nat) returns (value: Int32)
    ensures value == MinValue(g, b, searchDepth)
    decreases searchDepth, 1
  {
    if searchDepth == 0 || IsEndGame(g, b) {
      return g.evaluate(b, searchDepth);
    }
    var lowestEncounteredValue: Int32 := MAX_VALUE;
    var moves := g.legalMoves(b);
    for i := 0 to |moves|
      invariant lowestEncounteredValue == Lowest(g, b, moves[..i], searchDepth)
    {
      var moveTransition := g.makeMove(b, moves[i]);
      if moveTransition.moveStatus.IsDone() {
        var currentValue := Max(g, moveTransition.transitionBoard, searchDepth - 1);
        if currentValue <= lowestEncounteredValue {
          lowestEncounteredValue := currentValue;
        }
      }
      assert moves[..i + 1][..i] == moves[..i];
    }
    assert moves[..|moves|] == moves;
    return lowestEncounteredValue;
  }

  /** The value the root assigns to a made move: White minimises over the reply, Black maximises. */
  function RootValue<B, M>(g: Game<B, M>, b: B, m: M, searchDepth: nat): Int32
    requires searchDepth >= 1
  {
    if g.currentAlliance(b) == White then MinValue(g, Child(g, b, m), searchDepth - 1)
    else MaxValue(g, Child(g, b, m), searchDepth - 1)
  }

  /** The root loop's running state: `bestMove`, `highestEncounteredValue`, `lowestEncounteredValue`. */
  datatype RootState<M> = RootState(bestMove: Option<M>, highest: Int32, lowest: Int32)

  /** The root loop's state after visiting `moves`. */
  function RootScan<B, M>(g: Game<B, M>, b: B, moves: seq<M>, searchDepth: nat): RootState<M>
    requires searchDepth >= 1
  {
    if moves == [] then RootState(None, MIN_VALUE, MAX_VALUE)
    else
      var st := RootScan(g, b, moves[..|moves| - 1], searchDepth);
      var m := moves[|moves| - 1];
      if !IsDoneMove(g, b, m) then st
      else
        var v := RootValue(g, b, m, searchDepth);
        if g.currentAlliance(b) == White && v >= st.highest then RootState(Some(m), v, st.lowest)
        else if g.currentAlliance(b) == Black && v <= st.lowest then RootState(Some(m), st.highest, v)
        else st
  }

  /** The move `execute(board)` returns; `None` is Java's `null`. */
  function BestMove<B, M>(g: Game<B, M>, b: B, searchDepth: nat): Option<M>
    requires searchDepth >= 1
  {
    RootScan(g, b, g.legalMoves(b), searchDepth).bestMove
  }

  /**
   * `MiniMax(searchDepth).execute(board)`. The search depth must be at
   * least 1: the root calls `min`/`max` at `searchDepth - 1`, and those
   * only stop descending at depth 0.
   */
  method Execute<B, M>(g: Game<B, M>, b: B, searchDepth: nat) returns (bestMove: Option<M>)
    requires searchDepth >= 1
    ensures bestMove == BestMove(g, b, searchDepth)
  {
    bestMove := None;
    var highestEncounteredValue: Int32 := MIN_VALUE;
    var lowestEncounteredValue: Int32 := MAX_VALUE;
    var currentValue: Int32;
    var moves := g.legalMoves(b);
    for i := 0 to |moves|
      invariant RootScan(g, b, moves[..i], searchDepth) ==
        RootState(bestMove, highestEncounteredValue, lowestEncounteredValue)
    {
      var move := moves[i];
      var moveTransition := g.makeMove(b, move);
      if moveTransition.moveStatus.IsDone() {
        if g.currentAlliance(b) == White {
          currentValue := Min(g, moveTransition.transitionBoard, searchDepth - 1);
        } else {
          currentValue := Max(g, moveTransition.transitionBoard, searchDepth - 1);
        }
        if g.currentAlliance(b) == White && currentValue >= highestEncounteredValue {
          highestEncounteredValue := currentValue;
          bestMove := Some(move);
        } else if g.currentAlliance(b) == Black && currentValue <= lowestEncounteredValue {
          lowestEncounteredValue := currentValue;
          bestMove := Some(move);
        }
      }
      assert moves[..i + 1][..i] == moves[..i];
    }
    assert moves[..|moves|] == moves;
  }

  /** At depth 0, or when the game is over, `min` and `max` both return the evaluation. */
  lemma LeafValue<B, M>(g: Game<B, M>, b: B, depth: nat)
    requires depth == 0 || IsEndGame(g, b)
    ensures MaxValue(g, b, depth) == g.evaluate(b, depth)
    ensures MinValue(g, b, depth) == g.evaluate(b, depth)
  {
  }

  /**
   * `max`'s running value is the largest `min` value of a made move, or
   * `MIN_VALUE` when no move is made; it is attained by some made move.
   */
  lemma {:induction false} HighestIsMaximum<B, M>(g: Game<B, M>, b: B, moves: seq<M>, depth: nat)
    requires depth >= 1
    ensures forall i :: 0 <= i < |moves| && IsDoneMove(g, b, moves[i]) ==>
      Highest(g, b, moves, depth) >= MinValue(g, Child(g, b, moves[i]), depth - 1)
    ensures (forall i :: 0 <= i < |moves| ==> !IsDoneMove(g, b, moves[i])) ==>
      Highest(g, b, moves, depth) == MIN_VALUE
    ensures (exists i :: 0 <= i < |moves| && IsDoneMove(g, b, moves[i])) ==>
      exists i :: 0 <= i < |moves| && IsDoneMove(g, b, moves[i]) &&
        Highest(g, b, moves, depth) == MinValue(g, Child(g, b, moves[i]), depth - 1)
  {
    if moves != [] {
      var n := |moves| - 1;
      var pre := moves[..n];
      HighestIsMaximum(g, b, pre, depth);
      assert forall i :: 0 <= i < n ==> moves[i] == pre[i];
      if !IsDoneMove(g, b, moves[n]) && exists i :: 0 <= i < |moves| && IsDoneMove(g, b, moves[i]) {
        var i :| 0 <= i < |moves| && IsDoneMove(g, b, moves[i]);
        assert i < n && IsDoneMove(g, b, pre[i]);
      }
    }
  }

  /**
   * `min`'s running value is the smallest `max` value of a made move, or
   * `MAX_VALUE` when no move is made; it is attained by some made move.
   */
  lemma {:induction false} LowestIsMinimum<B, M>(g: Game<B, M>, b: B, moves: seq<M>, depth: nat)
    requires depth >= 1
    ensures forall i :: 0 <= i < |moves| && IsDoneMove(g, b, moves[i]) ==>
      Lowest(g, b, moves, depth) <= MaxValue(g, Child(g, b, moves[i]), depth - 1)
    ensures (forall i :: 0 <= i < |moves| ==> !IsDoneMove(g, b, moves[i])) ==>
      Lowest(g, b, moves, depth) == MAX_VALUE
    ensures (exists i :: 0 <= i < |moves| && IsDoneMove(g, b, moves[i])) ==>
      exists i :: 0 <= i < |moves| && IsDoneMove(g, b, moves[i]) &&
        Lowest(g, b, moves, depth) == MaxValue(g, Child(g, b, moves[i]), depth - 1)
  {
    if moves != [] {
      var n := |moves| - 1;
      var pre := moves[..n];
      LowestIsMinimum(g, b, pre, depth);
      assert forall i :: 0 <= i < n ==> moves[i] == pre[i];
      if !IsDoneMove(g, b, moves[n]) && exists i :: 0 <= i < |moves| && IsDoneMove(g, b, moves[i]) {
        var i :| 0 <= i < |moves| && IsDoneMove(g, b, moves[i]);
        assert i < n && IsDoneMove(g, b, pre[i]);
      }
    }
  }

  /**
   * Above depth 0 on a live board, `max` bounds from above the `min` value
   * of every made move, and equals one of them, or is `MIN_VALUE` when
   * no legal move can be made.
   */
  lemma MaxValueIsBestReply<B, M>(g: Game<B, M>, b: B, depth: nat)
    requires depth >= 1 && !IsEndGame(g, b)
    ensures var moves := g.legalMoves(b);
      && (forall i :: 0 <= i < |moves| && IsDoneMove(g, b, moves[i]) ==>
            MaxValue(g, b, depth) >= MinValue(g, Child(g, b, moves[i]), depth - 1))
      && ((forall i :: 0 <= i < |moves| ==> !IsDoneMove(g, b, moves[i])) ==>
            MaxValue(g, b, depth) == MIN_VALUE)
      && ((exists i :: 0 <= i < |moves| && IsDoneMove(g, b, moves[i])) ==>
            exists i :: 0 <= i < |moves| && IsDoneMove(g, b, moves[i]) &&
              MaxValue(g, b, depth) == MinValue(g, Child(g, b, moves[i]), depth - 1))
  {
    HighestIsMaximum(g, b, g.legalMoves(b), depth);
  }

  /**
   * Above depth 0 on a live board, `min` bounds from below the `max` value
   * of every made move, and equals one of them, or is `MAX_VALUE` when
   * no legal move can be made.
   */
  lemma MinValueIsBestReply<B, M>(g: Game<B, M>, b: B, depth: nat)
    requires depth >= 1 && !IsEndGame(g, b)
    ensures var moves := g.legalMoves(b);
      && (forall i :: 0 <= i < |moves| && IsDoneMove(g, b, moves[i]) ==>
            MinValue(g, b, depth) <= MaxValue(g, Child(g, b, moves[i]), depth - 1))
      && ((forall i :: 0 <= i < |moves| ==> !IsDoneMove(g, b, moves[i])) ==>
            MinValue(g, b, depth) == MAX_VALUE)
      && ((exists i :: 0 <= i < |moves| && IsDoneMove(g, b, moves[i])) ==>
            exists i :: 0 <= i < |moves| && IsDoneMove(g, b, moves[i]) &&
              MinValue(g, b, depth) == MaxValue(g, Child(g, b, moves[i]), depth - 1))
  {
    LowestIsMinimum(g, b, g.legalMoves(b), depth);
  }

  /** The made moves among `moves`, in order. */
  function DoneMoves<B, M>(g: Game<B, M>, b: B, moves: seq<M>): (r: seq<M>)
    ensures |r| <= |moves|
    ensures forall i :: 0 <= i < |r| ==> IsDoneMove(g, b, r[i])
    ensures forall i :: 0 <= i < |r| ==> r[i] in moves
  {
    if moves == [] then []
    else
      var m := moves[|moves| - 1];
      DoneMoves(g, b, moves[..|moves| - 1]) + (if IsDoneMove(g, b, m) then [m] else [])
  }

  lemma DoneMovesSnoc<B, M>(g: Game<B, M>, b: B, moves: seq<M>)
    requires moves != [] && IsDoneMove(g, b, moves[|moves| - 1])
    ensures var d := DoneMoves(g, b, moves);
      d != [] && d[|d| - 1] == moves[|moves| - 1] &&
      d[..|d| - 1] == DoneMoves(g, b, moves[..|moves| - 1])
  {
  }

  /** Moves that are not made do not influence `max`'s value. */
  lemma {:induction false} HighestIgnoresUnmadeMoves<B, M>(g: Game<B, M>, b: B, moves: seq<M>, depth: nat)
    requires depth >= 1
    ensures Highest(g, b, moves, depth) == Highest(g, b, DoneMoves(g, b, moves), depth)
  {
    if moves != [] {
      var pre := moves[..|moves| - 1];
      HighestIgnoresUnmadeMoves(g, b, pre, depth);
      var d := DoneMoves(g, b, moves);
      if IsDoneMove(g, b, moves[|moves| - 1]) {
        DoneMovesSnoc(g, b, moves);
        assert Highest(g, b, d, depth) == Highest(g, b, d[..|d| - 1] + [d[|d| - 1]], depth);
      } else {
        assert d == DoneMoves(g, b, pre);
      }
    }
  }

  /** Moves that are not made do not influence `min`'s value. */
  lemma {:induction false} LowestIgnoresUnmadeMoves<B, M>(g: Game<B, M>, b: B, moves: seq<M>, depth: nat)
    requires depth >= 1
    ensures Lowest(g, b, moves, depth) == Lowest(g, b, DoneMoves(g, b, moves), depth)
  {
    if moves != [] {
      var pre := moves[..|moves| - 1];
      LowestIgnoresUnmadeMoves(g, b, pre, depth);
      var d := DoneMoves(g, b, moves);
      if IsDoneMove(g, b, moves[|moves| - 1]) {
        DoneMovesSnoc(g, b, moves);
        assert Lowest(g, b, d, depth) == Lowest(g, b, d[..|d| - 1] + [d[|d| - 1]], depth);
      } else {
        assert d == DoneMoves(g, b, pre);
      }
    }
  }

  /** Moves that are not made do not influence the root's choice. */
  lemma {:induction false} RootIgnoresUnmadeMoves<B, M>(g: Game<B, M>, b: B, moves: seq<M>, searchDepth: nat)
    requires searchDepth >= 1
    ensures RootScan(g, b, moves, searchDepth) == RootScan(g, b, DoneMoves(g, b, moves), searchDepth)
  {
    if moves != [] {
      var pre := moves[..|moves| - 1];
      RootIgnoresUnmadeMoves(g, b, pre, searchDepth);
      var d := DoneMoves(g, b, moves);
      if IsDoneMove(g, b, moves[|moves| - 1]) {
        DoneMovesSnoc(g, b, moves);
        assert RootScan(g, b, d, searchDepth) == RootScan(g, b, d[..|d| - 1] + [d[|d| - 1]], searchDepth);
      } else {
        assert d == DoneMoves(g, b, pre);
      }
    }
  }

  /** `v` is at least as good as `w` for side `a`: higher for White, lower for Black. */
  predicate Prefers(a: Alliance, v: int, w: int)
  {
    if a == White then v >= w else v <= w
  }

  /**
   * The move at index `i` is a made move whose root value is at least as
   * good as every made move's, and strictly better than every made move
   * after it: among equally good moves it is the last one enumerated.
   */
  ghost predicate ChosenAt<B, M>(g: Game<B, M>, b: B, moves: seq<M>, searchDepth: nat, i: int)
    requires searchDepth >= 1
  {
    var a := g.currentAlliance(b);
    && 0 <= i < |moves| && IsDoneMove(g, b, moves[i])
    && (forall j :: 0 <= j < |moves| && IsDoneMove(g, b, moves[j]) ==>
          Prefers(a, RootValue(g, b, moves[i], searchDepth), RootValue(g, b, moves[j], searchDepth)))
    && (forall j :: i < j < |moves| && IsDoneMove(g, b, moves[j]) ==>
          !Prefers(a, RootValue(g, b, moves[j], searchDepth), RootValue(g, b, moves[i], searchDepth)))
  }

  /** At most one index is chosen, so `ChosenAt` pins down the root's answer. */
  lemma ChosenAtUnique<B, M>(g: Game<B, M>, b: B, moves: seq<M>, searchDepth: nat, i: int, k: int)
    requires searchDepth >= 1
    requires ChosenAt(g, b, moves, searchDepth, i) && ChosenAt(g, b, moves, searchDepth, k)
    ensures i == k
  {
  }

  /** The running value the root keeps for side `a`. */
  function Running<M>(st: RootState<M>, a: Alliance): int
  {
    if a == White then st.highest else st.lowest
  }

  /**
   * The root loop keeps no move exactly while no move has been made, and
   * otherwise keeps the chosen move with its value as the running value.
   */
  lemma {:induction false} RootScanChooses<B, M>(g: Game<B, M>, b: B, moves: seq<M>, searchDepth: nat)
    requires searchDepth >= 1
    ensures var st, a := RootScan(g, b, moves, searchDepth), g.currentAlliance(b);
      && (st.bestMove.None? <==> forall j :: 0 <= j < |moves| ==> !IsDoneMove(g, b, moves[j]))
      && (st.bestMove.None? ==> st.highest == MIN_VALUE && st.lowest == MAX_VALUE)
      && (st.bestMove.Some? ==>
            exists i :: ChosenAt(g, b, moves, searchDepth, i) && moves[i] == st.bestMove.value &&
              Running(st, a) == RootValue(g, b, moves[i], searchDepth))
  {
    if moves != [] {
      var n := |moves| - 1;
      var pre := moves[..n];
      var a := g.currentAlliance(b);
      RootScanChooses(g, b, pre, searchDepth);
      assert forall j :: 0 <= j < n ==> moves[j] == pre[j];
      var st' := RootScan(g, b, pre, searchDepth);
      var st := RootScan(g, b, moves, searchDepth);
      if IsDoneMove(g, b, moves[n]) {
        var v := RootValue(g, b, moves[n], searchDepth);
        if st'.bestMove.None? {
          assert st.bestMove == Some(moves[n]);
          assert ChosenAt(g, b, moves, searchDepth, n);
        } else {
          var i :| ChosenAt(g, b, pre, searchDepth, i) && pre[i] == st'.bestMove.value &&
                   Running(st', a) == RootValue(g, b, pre[i], searchDepth);
          if Prefers(a, v, Running(st', a)) {
            assert st.bestMove == Some(moves[n]);
            assert ChosenAt(g, b, moves, searchDepth, n);
          } else {
            assert st == st';
            assert ChosenAt(g, b, moves, searchDepth, i);
          }
        }
      } else {
        assert st == st';
        if st'.bestMove.Some? {
          var i :| ChosenAt(g, b, pre, searchDepth, i) && pre[i] == st'.bestMove.value &&
                   Running(st', a) == RootValue(g, b, pre[i], searchDepth);
          assert ChosenAt(g, b, moves, searchDepth, i);
        }
      }
    }
  }

  /**
   * `execute` returns null exactly when no legal move can be made;
   * otherwise it returns a legal move that can be made, the best one for
   * the side to move (White maximises the reply's `min`, Black minimises
   * the reply's `max`), and the last such move when several are equally good.
   */
  lemma BestMoveIsChosen<B, M>(g: Game<B, M>, b: B, searchDepth: nat)
    requires searchDepth >= 1
    ensures var moves := g.legalMoves(b);
      && (BestMove(g, b, searchDepth).None? <==>
            forall j :: 0 <= j < |moves| ==> !IsDoneMove(g, b, moves[j]))
      && (BestMove(g, b, searchDepth).Some? ==>
            BestMove(g, b, searchDepth).value in moves &&
            IsDoneMove(g, b, BestMove(g, b, searchDepth).value) &&
            exists i :: ChosenAt(g, b, moves, searchDepth, i) && moves[i] == BestMove(g, b, searchDepth).value)
  {
    RootScanChooses(g, b, g.legalMoves(b), searchDepth);
  }
}
