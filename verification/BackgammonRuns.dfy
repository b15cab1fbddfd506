/**
 Two runs of the Backgammon engine, from a fresh game: one in which a double blocks the game, and one in which black
 loses its last checker without having finished.
 */
module BackgammonRuns {
  import opened Wrappers
  import opened Backgammon

  const PLAYERS := ["b", "w"]

  /** After a first move with double sixes nobody can do anything until the dice are rolled anew. */
  lemma DoubleSix(events: seq<Event>)
    requires forall k :: 0 <= k < |events| ==> events[k].Asked?
    ensures var s := Run(Initial(PLAYERS), [Rolled((6, 6)), Asked("b", Some((0, 6)), (1, 1))]);
            DoubleUsed(s) && s.turn == 0 && Run(s, events) == s
  {
    var rolled := WithDice(Initial(PLAYERS), (6, 6));
    hide StartFrom, Run;
    assert Allowed(rolled, 0, 6) && "b" == rolled.players[0];
    var s := Moved(rolled, 0, 6);
    assert Move(rolled, "b", Some((0, 6)), (1, 1)) == s;
    RunTwo(Initial(PLAYERS), Rolled((6, 6)), Asked("b", Some((0, 6)), (1, 1)));
    DoublesBlock(s, events);
  }

  lemma RunTwo(s: State, e: Event, f: Event)
    ensures Run(s, [e, f]) == Next(Next(s, e), f)
  {
    hide Next;
    assert [e, f][1..] == [f] && [f][1..] == [];
    assert Run(Next(s, e), [f]) == Run(Next(Next(s, e), f), []);
  }

  // ---- Positions as text ----

  /** A to E are one to five black checkers, a to e white ones. */
  function PointOf(c: char): Point {
    match c
    case 'A' => Point(Black, 1)
    case 'B' => Point(Black, 2)
    case 'C' => Point(Black, 3)
    case 'D' => Point(Black, 4)
    case 'E' => Point(Black, 5)
    case 'a' => Point(White, 1)
    case 'b' => Point(White, 2)
    case 'c' => Point(White, 3)
    case 'd' => Point(White, 4)
    case 'e' => Point(White, 5)
    case _ => EMPTY
  }

  function BoardOf(text: string): (board: seq<Point>)
    ensures |board| == |text| && forall i :: 0 <= i < |text| ==> board[i] == PointOf(text[i])
  {
    seq(|text|, i requires 0 <= i < |text| => PointOf(text[i]))
  }

  /** Black is to move with fresh dice; black has borne some checkers off, white has hit some. */
  function Position(text: string, borneOff: nat, hit: nat): State {
    State(BoardOf(text), [], (24 - borneOff, 24), (1, 1), 0, PLAYERS, (0, hit))
  }

  ghost predicate IsRunTo(events: seq<Event>, s: State) {
    Run(Initial(PLAYERS), events) == s && forall k :: 0 <= k < |events| ==> IsRoll(events[k].roll)
  }

  ghost predicate Reachable(s: State) { exists events :: IsRunTo(events, s) }

  lemma {:induction false} RunAppend(s: State, events: seq<Event>, e: Event)
    ensures Run(s, events + [e]) == Next(Run(s, events), e)
    decreases |events|
  {
    if events == [] {
      assert [e][1..] == [] && [] + [e] == [e];
    } else {
      assert (events + [e])[1..] == events[1..] + [e];
      RunAppend(Next(s, events[0]), events[1..], e);
    }
  }

  lemma NextReachable(s: State, e: Event)
    requires Reachable(s) && IsRoll(e.roll)
    ensures Reachable(Next(s, e))
  {
    hide Next, Run;
    var events :| IsRunTo(events, s);
    RunAppend(Initial(PLAYERS), events, e);
    assert IsRunTo(events + [e], Next(s, e));
  }

  /** The player to move rolls a pair of the length he wants to go; the way tells the player. */
  ghost predicate CanGo(s: State, from: int, to: int) {
    && Reachable(s) && |s.board| == 24 && s.players == PLAYERS && |s.usedDice| <= 1
    && 0 <= from < 24 && -1 <= to <= 24 && s.turn == (if from < to then 0 else 1)
    && 1 <= Abs(to - from) <= 6 && Abs(to - from) !in s.usedDice
    && s.board[from].color == Mover(s) && s.board[from].count != 0
  }

  /** The move that is no hit, within the board. */
  lemma Step(s: State, from: int, to: int) returns (s': State)
    requires CanGo(s, from, to) && 0 <= to < 24 && s.board[to].color in {NoColor, Mover(s)}
    ensures Reachable(s') && IsAfter(s, from, to, s') && s'.remaining == s.remaining && s'.hits == s.hits
    ensures s'.board == s.board[from := TakeOne(s.board[from])][to := Point(Mover(s), s.board[to].count + 1)]
  {
    s' := GoReachable(s, from, to);
  }

  /** White hits. */
  lemma Hit(s: State, from: int, to: int) returns (s': State)
    requires CanGo(s, from, to) && 0 <= to < from && s.board[to] == Point(Black, 1)
    ensures Reachable(s') && IsAfter(s, from, to, s') && s'.remaining == s.remaining
    ensures s'.hits == (s.hits.0, s.hits.1 + 1)
    ensures s'.board == s.board[from := TakeOne(s.board[from])][to := Point(White, 2)]
  {
    hide Reachable, TakeOne;
    s' := GoReachable(s, from, to);
  }

  /** Black bears a checker off. */
  lemma BearOff(s: State, from: int) returns (s': State)
    requires CanGo(s, from, 24)
    ensures Reachable(s') && IsAfter(s, from, 24, s') && s'.hits == s.hits
    ensures s'.remaining == (s.remaining.0 - 1, s.remaining.1)
    ensures s'.board == s.board[from := TakeOne(s.board[from])]
  {
    s' := GoReachable(s, from, 24);
  }

  /** The dice and the turn after a move. */
  predicate IsAfter(s: State, from: int, to: int, s': State) {
    && s'.players == s.players
    && (s.usedDice == [] ==>
          s'.usedDice == [Abs(to - from)] && s'.cubes == (Abs(to - from), Abs(to - from)) && s'.turn == s.turn)
    && (s.usedDice != [] ==> s'.usedDice == [] && s'.cubes == (1, 1) && s'.turn == 1 - s.turn)
  }

  lemma GoReachable(s: State, from: int, to: int) returns (s': State)
    requires CanGo(s, from, to)
    requires 0 <= to < 24 ==> s.board[to].color in {NoColor, Mover(s)} || s.board[to].count == 1
    ensures Reachable(s') && IsAfter(s, from, to, s')
    ensures var rolled := WithDice(s, (Abs(to - from), Abs(to - from)));
            && Allowed(rolled, from, to)
            && var moved := Moved(rolled, from, to);
            s'.board == moved.board && s'.remaining == moved.remaining && s'.hits == moved.hits
  {
    var length := Abs(to - from);
    var rolled := WithDice(s, (length, length));
    NextReachable(s, Rolled((length, length)));
    NextReachable(rolled, Asked(if from < to then "b" else "w", Some((from, to)), (1, 1)));
    assert "b"[0] != "w"[0];
    hide Reachable;
    s' := Next(rolled, Asked(if from < to then "b" else "w", Some((from, to)), (1, 1)));
  }

  lemma Start()
    ensures Reachable(WithDice(Initial(PLAYERS), (1, 1)))
  {
    assert IsRunTo([], Initial(PLAYERS));
    hide Reachable;
    NextReachable(Initial(PLAYERS), Rolled((1, 1)));
  }

  lemma FirstTurns()
    ensures Reachable(Position("B....e.c...Ee...B.Daa..a", 1, 1))
  {
    Start();
    hide Reachable, BoardOf, StartFrom;
    var s := BearOff(WithDice(Initial(PLAYERS), (1, 1)), 18);
    s := Step(s, 16, 20);
    s := Hit(s, 23, 20);
    s := Step(s, 20, 19);
    assert s.board == BoardOf("B....e.c...Ee...B.Daa..a");
  }

  lemma SecondTurns()
    ensures Reachable(Position("B....e.c...Ee...b.C.ab..", 2, 3))
  {
    FirstTurns();
    hide Reachable, BoardOf;
    var s := BearOff(Position("B....e.c...Ee...B.Daa..a", 1, 1), 18);
    s := Step(s, 16, 21);
    s := Hit(s, 19, 16);
    s := Hit(s, 23, 21);
    assert s.board == BoardOf("B....e.c...Ee...b.C.ab..");
  }

  lemma ThirdTurns()
    ensures Reachable(Position("b...ad.c...Ee...b.B.ab..", 3, 5))
  {
    SecondTurns();
    hide Reachable, BoardOf;
    var s := BearOff(Position("B....e.c...Ee...b.C.ab..", 2, 3), 18);
    s := Step(s, 0, 4);
    s := Hit(s, 5, 4);
    assert s.board[0] == Point(Black, 1) && s.board[4] == Point(White, 2) && s.board[5] == Point(White, 4);
    s := Hit(s, 4, 0);
    assert s.board == BoardOf("b...ad.c...Ee...b.B.ab..");
  }

  lemma FourthTurns()
    ensures Reachable(Position("b...ad.c...De..ba.b..b..", 4, 7))
  {
    ThirdTurns();
    hide Reachable, BoardOf;
    var s := BearOff(Position("b...ad.c...Ee...b.B.ab..", 3, 5), 18);
    s := Step(s, 11, 15);
    s := Hit(s, 20, 18);
    s := Hit(s, 16, 15);
    assert s.board == BoardOf("b...ad.c...De..ba.b..b..");
  }

  lemma FifthTurns()
    ensures Reachable(Position("b...ad.c...Be.bbab...b..", 4, 9))
  {
    FourthTurns();
    hide Reachable, BoardOf;
    var s := Step(Position("b...ad.c...De..ba.b..b..", 4, 7), 11, 17);
    s := Step(s, 11, 14);
    s := Hit(s, 18, 14);
    s := Hit(s, 18, 17);
    assert s.board == BoardOf("b...ad.c...Be.bbab...b..");
  }

  lemma LastTurns()
    ensures Reachable(Position("b...ad.c...be.bb.b.b.a..", 4, 11))
  {
    FifthTurns();
    hide Reachable, BoardOf;
    var s := Step(Position("b...ad.c...Be.bbab...b..", 4, 9), 11, 13);
    s := Step(s, 13, 19);
    s := Hit(s, 21, 19);
    s := Hit(s, 16, 11);
    assert s.board == BoardOf("b...ad.c...be.bb.b.b.a..");
  }

  /** Black has borne four checkers off and lost eleven to hits: none is left to move, and black has not finished. */
  lemma BlackIsGone() returns (events: seq<Event>)
    ensures forall k :: 0 <= k < |events| ==> IsRoll(events[k].roll)
    ensures var s := Run(Initial(PLAYERS), events);
            Count(s.board, Black) == 0 && s.remaining.0 == 20 && s.hits == (0, 11)
  {
    LastTurns();
    hide BoardOf, Run;
    var s := Position("b...ad.c...be.bb.b.b.a..", 4, 11);
    events :| IsRunTo(events, s);
    NoneOwned(s.board, Black);
  }

  lemma {:induction false} NoneOwned(board: seq<Point>, c: Color)
    requires forall i :: 0 <= i < |board| ==> board[i].color != c
    ensures Count(board, c) == 0
  {
    if board != [] { NoneOwned(board[1..], c); }
  }
}
