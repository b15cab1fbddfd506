/**
 The Backgammon move engine.  Checkers are conserved over every run; a hit turns the opponent's checker into one of the
 mover's, so what each colour owns changes by the hits and by nothing else.
 */
module Backgammon {
  import opened Wrappers

  datatype Color = Black | White | NoColor

  datatype Point = Point(color: Color, count: int)

  const EMPTY := Point(NoColor, 0)

  /** hits counts, for the proofs, the checkers that black and white have hit. */
  datatype State = State(board: seq<Point>, usedDice: seq<int>, remaining: (int, int), cubes: (int, int), turn: int,
                         players: seq<string>, hits: (nat, nat))

  // ---- Counting checkers ----

  function Owned(p: Point, c: Color): int { if p.color == c then p.count else 0 }

  function Count(board: seq<Point>, c: Color): int {
    if board == [] then 0 else Owned(board[0], c) + Count(board[1..], c)
  }

  lemma {:induction false} CountUpdate(board: seq<Point>, i: nat, p: Point, c: Color)
    requires i < |board|
    ensures Count(board[i := p], c) == Count(board, c) - Owned(board[i], c) + Owned(p, c)
  {
    if i == 0 {
      assert board[0 := p][1..] == board[1..];
    } else {
      CountUpdate(board[1..], i - 1, p, c);
      assert board[i := p][1..] == board[1..][i - 1 := p];
    }
  }

  // ---- The start ----

  function StartPoint(i: nat): Point {
    if i == 0 then Point(Black, 2) else if i == 5 then Point(White, 5) else if i == 7 then Point(White, 3)
    else if i == 11 then Point(Black, 5) else if i == 12 then Point(White, 5) else if i == 16 then Point(Black, 3)
    else if i == 18 then Point(Black, 5) else if i == 23 then Point(White, 2) else EMPTY
  }

  /** The points from i on. */
  function StartFrom(i: nat): (r: seq<Point>)
    ensures |r| == if i < 24 then 24 - i else 0
    ensures forall k :: 0 <= k < |r| ==> r[k] == StartPoint(i + k)
    decreases 24 - i
  {
    if i >= 24 then [] else [StartPoint(i)] + StartFrom(i + 1)
  }

  function Initial(players: seq<string>): State { State(StartFrom(0), [], (24, 24), (0, 0), 0, players, (0, 0)) }

  // ---- The moves ----

  function Mover(s: State): Color { if s.turn == 0 then Black else White }

  /** The die that a move of this length uses, if there is one that has not been used. */
  function DieFor(s: State, length: int): Option<int> {
    if length == s.cubes.0 && s.cubes.0 !in s.usedDice then Some(s.cubes.0)
    else if length == s.cubes.1 && s.cubes.1 !in s.usedDice then Some(s.cubes.1)
    else None
  }

  function Abs(i: int): nat { if i < 0 then -i else i }

  predicate Allowed(s: State, from: int, to: int) {
    && 0 <= from < 24 && -1 <= to <= 24 && |s.board| == 24
    && (if Mover(s) == Black then from < to else to < from)
    && s.board[from].color == Mover(s) && s.board[from].count != 0
    && DieFor(s, Abs(to - from)).Some?
    && (0 <= to < 24 ==>
          s.board[to].color == NoColor || s.board[to].color == Mover(s) || s.board[to].count == 1)
  }

  predicate IsHit(s: State, to: int)
    requires |s.board| == 24
  {
    0 <= to < 24 && s.board[to].color != Mover(s) && s.board[to].color != NoColor && s.board[to].count == 1
  }

  function TakeOne(p: Point): Point { Point(if p.count == 1 then NoColor else p.color, p.count - 1) }

  /** The board and the counters after an allowed move, before the turn is looked at. */
  function Moved(s: State, from: int, to: int): State
    requires Allowed(s, from, to)
  {
    var c := Mover(s);
    var die := DieFor(s, Abs(to - from)).value;
    var lifted := s.board[from := TakeOne(s.board[from])];
    if 0 <= to < 24 then
      s.(board := lifted[to := Point(c, s.board[to].count + 1)], usedDice := s.usedDice + [die],
         hits := if !IsHit(s, to) then s.hits
                 else if c == Black then (s.hits.0 + 1, s.hits.1) else (s.hits.0, s.hits.1 + 1))
    else
      s.(board := lifted, usedDice := s.usedDice + [die],
         remaining := if c == Black then (s.remaining.0 - 1, s.remaining.1) else (s.remaining.0, s.remaining.1 - 1))
  }

  function WithDice(s: State, roll: (int, int)): State { s.(cubes := roll) }

  /** After the second die the other player rolls. */
  function NextTurn(s: State, roll: (int, int)): State {
    if |s.usedDice| >= 2 then WithDice(s.(usedDice := [], turn := 1 - s.turn), roll) else s
  }

  function Move(s: State, player: string, payload: Option<(int, int)>, roll: (int, int)): State {
    if s.players == [] || s.turn < 0 || s.turn >= |s.players| || player != s.players[s.turn] then s
    else if payload.None? || !Allowed(s, payload.value.0, payload.value.1) then s
    else NextTurn(Moved(s, payload.value.0, payload.value.1), roll)
  }

  predicate IsFinished(s: State) { s.remaining.0 == 0 || s.remaining.1 == 0 }

  // ---- What every run keeps ----

  predicate IsRoll(roll: (int, int)) { 1 <= roll.0 <= 6 && 1 <= roll.1 <= 6 }

  predicate PointOk(p: Point) { p.count >= 0 && (p.color == NoColor <==> p.count == 0) }

  ghost predicate Inv(s: State) {
    && |s.board| == 24 && (forall i :: 0 <= i < 24 ==> PointOk(s.board[i]))
    && |s.usedDice| <= 1 && 0 <= s.turn <= 1
    && s.remaining.0 <= 24 && s.remaining.1 <= 24
    && (IsRoll(s.cubes) || s.cubes == (0, 0))
    // a colour owns, on the board and borne off, its fifteen and what it has hit, less what it lost to hits
    && Count(s.board, Black) + (24 - s.remaining.0) == 15 + s.hits.0 - s.hits.1
    && Count(s.board, White) + (24 - s.remaining.1) == 15 + s.hits.1 - s.hits.0
  }

  lemma InitialInv(players: seq<string>)
    ensures Inv(Initial(players))
  {
    StartCount(0);
  }

  /** The checkers of both colours from a point on, at the start. */
  lemma {:induction false} StartCount(i: nat)
    requires i <= 24
    ensures Count(StartFrom(i), Black)
            == if i == 0 then 15 else if i <= 11 then 13 else if i <= 16 then 8 else if i <= 18 then 5 else 0
    ensures Count(StartFrom(i), White)
            == if i <= 5 then 15 else if i <= 7 then 10 else if i <= 12 then 7 else if i <= 23 then 2 else 0
    decreases 24 - i
  {
    if i < 24 {
      StartCount(i + 1);
      assert StartFrom(i)[1..] == StartFrom(i + 1);
    }
  }

  /** Lifting a checker, and putting it down or bearing it off. */
  lemma MovedCounts(s: State, from: int, to: int, c: Color)
    requires Allowed(s, from, to) && c != NoColor && forall i :: 0 <= i < 24 ==> PointOk(s.board[i])
    ensures var s' := Moved(s, from, to);
            && |s'.board| == 24 && (forall i :: 0 <= i < 24 ==> PointOk(s'.board[i]))
            && Count(s'.board, c) == Count(s.board, c)
                                     - (if c == Mover(s) && !(0 <= to < 24) then 1 else 0)
                                     + (if c == Mover(s) && IsHit(s, to) then 1 else 0)
                                     - (if c != Mover(s) && IsHit(s, to) then 1 else 0)
  {
    CountUpdate(s.board, from, TakeOne(s.board[from]), c);
    if 0 <= to < 24 {
      var lifted := s.board[from := TakeOne(s.board[from])];
      CountUpdate(lifted, to, Point(Mover(s), s.board[to].count + 1), c);
    }
  }

  lemma MoveKeeps(s: State, player: string, payload: Option<(int, int)>, roll: (int, int))
    requires Inv(s) && IsRoll(roll)
    ensures Inv(Move(s, player, payload, roll))
  {
    if payload.Some? && Allowed(s, payload.value.0, payload.value.1) {
      MovedCounts(s, payload.value.0, payload.value.1, Black);
      MovedCounts(s, payload.value.0, payload.value.1, White);
      hide Count;
    }
  }

  datatype Event = Rolled(roll: (int, int)) | Asked(player: string, payload: Option<(int, int)>, roll: (int, int))

  function Next(s: State, e: Event): State {
    match e
    case Rolled(roll) => WithDice(s, roll)
    case Asked(player, payload, roll) => Move(s, player, payload, roll)
  }

  function Run(s: State, events: seq<Event>): State
    decreases |events|
  {
    if events == [] then s else Run(Next(s, events[0]), events[1..])
  }

  lemma {:induction false} RunKeeps(s: State, events: seq<Event>)
    requires Inv(s) && forall k :: 0 <= k < |events| ==> IsRoll(events[k].roll)
    ensures Inv(Run(s, events))
    decreases |events|
  {
    if events != [] {
      if events[0].Asked? { MoveKeeps(s, events[0].player, events[0].payload, events[0].roll); }
      RunKeeps(Next(s, events[0]), events[1..]);
    }
  }

  /** Over every run from a fresh game, with any dice, the checkers on the board and those borne off are thirty, a
      point has no colour exactly when it is empty, and at most one die is recorded between calls. */
  lemma Conservation(players: seq<string>, events: seq<Event>)
    requires forall k :: 0 <= k < |events| ==> IsRoll(events[k].roll)
    ensures var s := Run(Initial(players), events);
            && Count(s.board, Black) + Count(s.board, White) + (24 - s.remaining.0) + (24 - s.remaining.1) == 30
            && |s.board| == 24 && (forall i :: 0 <= i < 24 ==> PointOk(s.board[i]))
            && |s.usedDice| <= 1
  {
    InitialInv(players);
    RunKeeps(Initial(players), events);
  }

  lemma {:induction false} CountPositive(board: seq<Point>, c: Color)
    requires forall i :: 0 <= i < |board| ==> PointOk(board[i])
    ensures Count(board, c) >= 0
  {
    if board != [] { CountPositive(board[1..], c); }
  }

  /** The counter of a colour starts at 24 while it has fifteen checkers, so over every run it is what the colour still
      has on the board exactly when the colour has hit nine more than it lost; and the colour has finished exactly when
      it has on the board what it is ahead in hits less nine.  So without a checker left it has finished exactly when
      it is ahead by nine. */
  lemma FinishedExactly(players: seq<string>, events: seq<Event>)
    requires forall k :: 0 <= k < |events| ==> IsRoll(events[k].roll)
    ensures var s := Run(Initial(players), events);
            var lead := s.hits.0 - s.hits.1;
            && (s.remaining.0 == Count(s.board, Black) <==> lead == 9)
            && (s.remaining.1 == Count(s.board, White) <==> lead == -9)
            && (s.remaining.0 == 0 <==> Count(s.board, Black) == lead - 9)
            && (s.remaining.1 == 0 <==> Count(s.board, White) == -lead - 9)
            && (IsFinished(s) ==> lead >= 9 || lead <= -9)
  {
    InitialInv(players);
    RunKeeps(Initial(players), events);
    CountPositive(Run(Initial(players), events).board, Black);
    CountPositive(Run(Initial(players), events).board, White);
  }

  /** The one die that is used is both dice. */
  predicate DoubleUsed(s: State) { s.cubes.0 == s.cubes.1 && s.usedDice == [s.cubes.0] }

  /** No move is possible, whatever stands on the board, exactly after one move with a double. */
  lemma NoMoveOnAnyBoard(s: State)
    requires Inv(s) && IsRoll(s.cubes)
    ensures (forall board, from, to :: !Allowed(s.(board := board), from, to)) <==> DoubleUsed(s)
  {
    if !DoubleUsed(s) {
      var length := if s.cubes.0 in s.usedDice then s.cubes.1 else s.cubes.0;
      var board := seq(24, _ => Point(Mover(s), 1));
      var from := if Mover(s) == Black then 0 else 23;
      assert Allowed(s.(board := board), from, if Mover(s) == Black then length else 23 - length);
    }
  }

  /** Then nobody can do anything until the dice are rolled anew. */
  lemma {:induction false} DoublesBlock(s: State, events: seq<Event>)
    requires DoubleUsed(s) && forall k :: 0 <= k < |events| ==> events[k].Asked?
    ensures Run(s, events) == s
    decreases |events|
  {
    if events != [] {
      assert Next(s, events[0]) == s;
      DoublesBlock(s, events[1..]);
    }
  }

  // ---- The game object ----

  class Game {
    var board: seq<Point>
    var usedDice: seq<int>
    var remainingPieces: (int, int)
    var cubes: (int, int)
    var turnIdx: int
    var players: seq<string>
    ghost var hits: (nat, nat)

    ghost function View(): State
      reads this
    {
      State(board, usedDice, remainingPieces, cubes, turnIdx, players, hits)
    }

    constructor (playerIds: seq<string>)
      ensures View() == Initial(playerIds) && Inv(View())
    {
      board := [];
      usedDice := [];
      cubes := (0, 0);
      hits := (0, 0);
      remainingPieces := (24, 24);
      turnIdx := 0;
      players := playerIds;
      new;
      InitBoard();
      InitialInv(playerIds);
    }

    method InitBoard()
      modifies `board
      ensures board == StartFrom(0)
    {
      board := seq(24, _ => EMPTY);
      board := board[0 := Point(Black, 2)];
      board := board[5 := Point(White, 5)];
      board := board[7 := Point(White, 3)];
      board := board[11 := Point(Black, 5)];
      board := board[12 := Point(White, 5)];
      board := board[16 := Point(Black, 3)];
      board := board[18 := Point(Black, 5)];
      board := board[23 := Point(White, 2)];
      forall i | 0 <= i < 24 ensures board[i] == StartFrom(0)[i] {}
    }

    method StartTurn(roll: (int, int))
      modifies `cubes
      ensures View() == WithDice(old(View()), roll)
    {
      cubes := roll;
    }

    /** roll is what the dice show if the turn changes. */
    method HandleMove(playerId: string, payload: Option<(int, int)>, roll: (int, int))
      requires Inv(View()) && IsRoll(roll) && (players == [] || turnIdx < |players|)
      modifies this
      ensures View() == Move(old(View()), playerId, payload, roll) && Inv(View())
    {
      MoveKeeps(View(), playerId, payload, roll);
      hide Inv, NextTurn, TakeOne;
      if players == [] || playerId != players[turnIdx] { return; }
      if payload.None? { return; }
      var from, to := payload.value.0, payload.value.1;
      if from < 0 || from >= 24 || to < -1 || to > 24 { return; }
      var color := if turnIdx == 0 then Black else White;
      if (color == Black && to <= from) || (color == White && to >= from) { return; }
      if board[from].color != color || board[from].count == 0 { return; }
      var moveLen := Abs(to - from);
      var die: int;
      if moveLen == cubes.0 && cubes.0 !in usedDice {
        die := cubes.0;
      } else if moveLen == cubes.1 && cubes.1 !in usedDice {
        die := cubes.1;
      } else {
        return;
      }
      if 0 <= to < 24 {
        if board[to].color == NoColor || board[to].color == color || board[to].count == 1 {
          MoveChecker(from, to, color);
        } else {
          return;
        }
      } else if (color == Black && to == 24) || (color == White && to == -1) {
        Lift(from);
        if color == Black {
          remainingPieces := (remainingPieces.0 - 1, remainingPieces.1);
        } else {
          remainingPieces := (remainingPieces.0, remainingPieces.1 - 1);
        }
      } else {
        // an invalid destination cannot get this far
        assert false;
      }
      UseDie(die, roll);
    }

    method UseDie(die: int, roll: (int, int))
      modifies `usedDice, `turnIdx, `cubes
      ensures View() == NextTurn(old(View()).(usedDice := old(usedDice) + [die]), roll)
    {
      usedDice := usedDice + [die];
      if |usedDice| >= 2 {
        usedDice := [];
        turnIdx := 1 - turnIdx;
        StartTurn(roll);
      }
    }

    method Lift(from: nat)
      requires from < |board|
      modifies `board
      ensures board == old(board)[from := TakeOne(old(board)[from])]
    {
      board := board[from := Point(board[from].color, board[from].count - 1)];
      if board[from].count == 0 {
        board := board[from := Point(NoColor, 0)];
      }
    }

    /** Puts a checker down on an empty point, on one's own, or on a single checker of the opponent. */
    method MoveChecker(from: nat, to: nat, color: Color)
      requires |board| == 24 && from < 24 && to < 24 && from != to && color != NoColor
      requires board[from].color == color && PointOk(board[to])
      requires board[to].color == NoColor || board[to].color == color || board[to].count == 1
      modifies `board, `hits
      ensures board == old(board)[from := TakeOne(old(board)[from])][to := Point(color, old(board)[to].count + 1)]
      ensures hits == if old(board)[to].color in {NoColor, color} then old(hits)
                      else if color == Black then (old(hits).0 + 1, old(hits).1) else (old(hits).0, old(hits).1 + 1)
    {
      if board[to].color != color && board[to].count == 1 && board[to].color != NoColor {
        board := board[to := Point(color, board[to].count)];
        hits := if color == Black then (hits.0 + 1, hits.1) else (hits.0, hits.1 + 1);
      }
      Lift(from);
      if board[to].color == NoColor {
        board := board[to := Point(color, board[to].count)];
      }
      board := board[to := Point(board[to].color, board[to].count + 1)];
    }

    predicate Finished()
      reads this
      ensures Finished() == IsFinished(View())
    {
      remainingPieces.0 == 0 || remainingPieces.1 == 0
    }
  }
}
