/**
 Pairing players: every request finds the session its user is in, joins the session that waits for the game, or opens
 a new one.  The store's scan is a substring test on the joined names, so the guarantees are proved for names of which
 none is part of another.
 */
module Matchmaking {
  import opened Wrappers

  // ---- Names in one string ----

  function FirstComma(s: string): (r: Option<nat>)
    ensures r.Some? ==> r.value < |s| && s[r.value] == ',' && ',' !in s[..r.value]
    ensures r.None? ==> ',' !in s
  {
    if s == "" then None
    else if s[0] == ',' then Some(0)
    else
      match FirstComma(s[1..])
      case None => None
      case Some(i) => Some(i + 1)
  }

  function Split(s: string): seq<string>
    decreases |s|
  {
    match FirstComma(s)
    case Some(end) => [s[..end]] + Split(s[end + 1..])
    case None => if s == "" then [] else [s]
  }

  function Join(v: seq<string>): string {
    if v == [] then "" else if |v| == 1 then v[0] else v[0] + "," + Join(v[1..])
  }

  predicate CommaFree(v: seq<string>) { forall k :: 0 <= k < |v| ==> ',' !in v[k] }

  lemma {:induction false} FirstCommaAfter(a: string, rest: string)
    requires ',' !in a
    ensures FirstComma(a + "," + rest) == Some(|a|)
  {
    var s := a + "," + rest;
    if a != "" {
      FirstCommaAfter(a[1..], rest);
      assert s[1..] == a[1..] + "," + rest;
    }
  }

  lemma SplitFirst(a: string, rest: string)
    requires ',' !in a
    ensures Split(a + "," + rest) == [a] + Split(rest)
  {
    FirstCommaAfter(a, rest);
    var s := a + "," + rest;
    assert s[..|a|] == a && s[|a| + 1..] == rest;
  }

  /** Names without commas come back, except that an empty last name is lost. */
  lemma {:induction false} SplitOfJoin(v: seq<string>)
    requires CommaFree(v)
    ensures Split(Join(v)) == if v != [] && v[|v| - 1] == "" then v[..|v| - 1] else v
  {
    hide *;
    if |v| <= 1 {
      SplitOfOne(v);
    } else {
      JoinFirst(v);
      SplitFirst(v[0], Join(v[1..]));
      SplitOfJoin(v[1..]);
      assert [v[0]] + v[1..] == v && [v[0]] + v[1..|v| - 1] == v[..|v| - 1];
    }
  }

  lemma SplitOfOne(v: seq<string>)
    requires CommaFree(v) && |v| <= 1
    ensures Split(Join(v)) == if v != [] && v[0] == "" then [] else v
  {
    if v != [] { assert FirstComma(v[0]).None?; }
  }

  lemma JoinFirst(v: seq<string>)
    requires CommaFree(v) && |v| > 1
    ensures Join(v) == v[0] + "," + Join(v[1..]) && ',' !in v[0] && CommaFree(v[1..])
  {
  }

  lemma {:induction false} SplitIsCommaFree(s: string)
    ensures CommaFree(Split(s))
    decreases |s|
  {
    match FirstComma(s)
    case Some(end) => SplitIsCommaFree(s[end + 1..]);
    case None =>
  }

  /** Splitting undoes joining exactly when no name has a comma and the last one is not empty. */
  lemma SplitUndoesJoin(v: seq<string>)
    ensures Split(Join(v)) == v <==> CommaFree(v) && (v == [] || v[|v| - 1] != "")
  {
    SplitIsCommaFree(Join(v));
    if CommaFree(v) { SplitOfJoin(v); }
  }

  method JoinPlayers(v: seq<string>) returns (res: string)
    ensures res == Join(v)
  {
    res := "";
    var i := 0;
    while i < |v|
      invariant i <= |v|
      invariant res + Tail(v, i) == Join(v)
    {
      hide Join, Tail;
      TailStep(v, i);
      ghost var before := res;
      if i > 0 {
        res := res + ",";
      }
      res := res + v[i];
      Regroup(before, if i > 0 then "," else "", v[i], Tail(v, i + 1));
      i := i + 1;
    }
    assert res + "" == res;
  }

  /** What is still to be written before name i. */
  function Tail(v: seq<string>, i: nat): string
    requires i <= |v|
  {
    if i == |v| then "" else (if i > 0 then "," else "") + Join(v[i..])
  }

  lemma TailStep(v: seq<string>, i: nat)
    requires i < |v|
    ensures Tail(v, i) == (if i > 0 then "," else "") + (v[i] + Tail(v, i + 1))
  {
    assert v[i..][1..] == v[i + 1..];
    assert v[i] + "" == v[i];
  }

  lemma Regroup(a: string, b: string, c: string, d: string)
    ensures a + (b + (c + d)) == a + b + c + d && a + (c + d) == a + c + d
  {
  }

  /** What is still to be split. */
  function SplitFrom(s: string, start: nat): seq<string>
    requires start <= |s|
  {
    Split(s[start..])
  }

  /** s.find(',', start). */
  function FindComma(s: string, start: nat): (r: Option<nat>)
    requires start <= |s|
    ensures r.Some? ==> start <= r.value < |s|
  {
    match FirstComma(s[start..])
    case None => None
    case Some(i) => Some(start + i)
  }

  lemma SplitStart(s: string)
    ensures [] + SplitFrom(s, 0) == Split(s)
  {
    assert s[0..] == s;
    hide Split;
  }

  lemma SplitNext(s: string, start: nat)
    requires start <= |s|
    ensures match FindComma(s, start)
            case Some(end) => SplitFrom(s, start) == [s[start..end]] + SplitFrom(s, end + 1)
            case None => SplitFrom(s, start) == if start < |s| then [s[start..]] else []
  {
    if FindComma(s, start).Some? {
      var end := FirstComma(s[start..]).value;
      assert s[start..][..end] == s[start..start + end];
      assert s[start..][end + 1..] == s[start + end + 1..];
    }
  }

  method SplitPlayers(s: string) returns (result: seq<string>)
    ensures result == Split(s)
  {
    SplitStart(s);
    hide *;
    result := [];
    var start := 0;
    var end := FindComma(s, start);
    while end.Some?
      invariant start <= |s| && end == FindComma(s, start)
      invariant result + SplitFrom(s, start) == Split(s)
      decreases |s| - start
    {
      SplitNext(s, start);
      RegroupNames(result, [s[start..end.value]], SplitFrom(s, end.value + 1));
      result := result + [s[start..end.value]];
      start := end.value + 1;
      end := FindComma(s, start);
    }
    SplitNext(s, start);
    if start < |s| {
      result := result + [s[start..]];
    }
  }

  lemma RegroupNames(a: seq<string>, b: seq<string>, c: seq<string>)
    ensures a + (b + c) == a + b + c
  {
  }

  // ---- The two tables ----

  /** players is the joined list of names. */
  datatype Row = Row(gameType: string, players: string)

  datatype Tables = Tables(sessions: map<string, Row>, waiting: map<string, string>)

  /** error is empty if there is none. */
  datatype Answer = Answer(sessionId: string, isMatched: bool, error: string)

  predicate PartAt(s: string, part: string, i: nat) { i + |part| <= |s| && s[i..i + |part|] == part }

  /** The store's contains function: part of the text, not one of the names. */
  predicate Contains(s: string, part: string) {
    exists i: nat :: i <= |s| && PartAt(s, part, i)
  }

  predicate IsHit(t: Tables, id: string, game: string, user: string) {
    id in t.sessions && Contains(t.sessions[id].players, user) && t.sessions[id].gameType == game
  }

  /** pick is the first session that the scan returns, if it returns any. */
  ghost predicate IsPick(t: Tables, game: string, user: string, pick: Option<string>) {
    match pick
    case Some(id) => IsHit(t, id, game, user)
    case None => forall id :: id in t.sessions ==> !IsHit(t, id, game, user)
  }

  function Step(t: Tables, game: string, user: string, newId: string, pick: Option<string>): (Tables, Answer)
    requires pick.Some? ==> pick.value in t.sessions
  {
    if pick.Some? then (t, Answer(pick.value, |Split(t.sessions[pick.value].players)| == 2, ""))
    else if game !in t.waiting then
      (Tables(t.sessions[newId := Row(game, user)], t.waiting[game := newId]), Answer(newId, false, ""))
    else
      var id := t.waiting[game];
      if id !in t.sessions then (t, Answer("", false, "Invalid session state"))
      else
        var players := Split(t.sessions[id].players);
        if |players| != 1 || players[0] == user then (t, Answer("", false, "Session full or invalid state"))
        else
          (Tables(t.sessions[id := t.sessions[id].(players := Join(players + [user]))], t.waiting - {game}),
           Answer(id, true, ""))
  }

  class SessionService {
    var sessions: map<string, Row>
    var waiting: map<string, string>

    ghost function View(): Tables
      reads this
    {
      Tables(sessions, waiting)
    }

    constructor ()
      ensures View() == Tables(map[], map[])
    {
      sessions, waiting := map[], map[];
    }

    /** The scan returns the rows in any order; the first one counts. */
    method Scan(game: string, user: string) returns (pick: Option<string>)
      ensures IsPick(View(), game, user, pick)
    {
      if exists id :: id in sessions && Contains(sessions[id].players, user) && sessions[id].gameType == game {
        var id :| id in sessions && Contains(sessions[id].players, user) && sessions[id].gameType == game;
        pick := Some(id);
      } else {
        pick := None;
      }
    }

    method FindOrCreateSession(game: string, user: string, newId: string)
      returns (result: Answer, ghost pick: Option<string>)
      modifies this
      ensures IsPick(old(View()), game, user, pick)
      ensures (View(), result) == Step(old(View()), game, user, newId, pick)
    {
      var found := Scan(game, user);
      pick := found;
      if found.Some? {
        var players := SplitPlayers(sessions[found.value].players);
        return Answer(found.value, |players| == 2, ""), found;
      }
      if game !in waiting {
        sessions := sessions[newId := Row(game, user)];
        waiting := waiting[game := newId];
        return Answer(newId, false, ""), found;
      }
      var sessionId := waiting[game];
      if sessionId !in sessions {
        return Answer("", false, "Invalid session state"), found;
      }
      var players := SplitPlayers(sessions[sessionId].players);
      if |players| != 1 || players[0] == user {
        return Answer("", false, "Session full or invalid state"), found;
      }
      players := players + [user];
      var joined := JoinPlayers(players);
      sessions := sessions[sessionId := sessions[sessionId].(players := joined)];
      waiting := waiting - {game};
      return Answer(sessionId, true, ""), found;
    }
  }

  // ---- Which names are found ----

  /** Names of which none is part of another. */
  ghost predicate GoodNames(names: set<string>) {
    && (forall a :: a in names ==> a != "" && ',' !in a)
    && (forall a, b :: a in names && b in names && Contains(a, b) ==> a == b)
  }

  lemma ContainsItself(a: string)
    ensures Contains(a, a)
  {
    assert PartAt(a, a, 0);
  }

  /** A name without a comma lies in one of the two names. */
  lemma ContainsInPair(p: string, q: string, u: string)
    requires ',' !in u && u != ""
    ensures Contains(p + "," + q, u) <==> Contains(p, u) || Contains(q, u)
  {
    var s := p + "," + q;
    if Contains(p, u) {
      var i: nat :| i <= |p| && PartAt(p, u, i);
      assert s[i..i + |u|] == p[i..i + |u|];
      assert PartAt(s, u, i);
    }
    if Contains(q, u) {
      var i: nat :| i <= |q| && PartAt(q, u, i);
      assert s[|p| + 1 + i..|p| + 1 + i + |u|] == q[i..i + |u|];
      assert PartAt(s, u, |p| + 1 + i);
    }
    if Contains(s, u) {
      var i: nat :| i <= |s| && PartAt(s, u, i);
      NotOverTheComma(p, q, u, i);
    }
  }

  lemma NotOverTheComma(p: string, q: string, u: string, i: nat)
    requires ',' !in u && u != "" && PartAt(p + "," + q, u, i)
    ensures Contains(p, u) || Contains(q, u)
  {
    var s := p + "," + q;
    if i + |u| <= |p| {
      assert s[i..i + |u|] == p[i..i + |u|];
      assert PartAt(p, u, i);
    } else if i > |p| {
      assert s[i..i + |u|] == q[i - |p| - 1..i - |p| - 1 + |u|];
      assert PartAt(q, u, i - |p| - 1);
    } else {
      CommaInside(s, u, i, |p|);
    }
  }

  lemma CommaInside(s: string, u: string, i: nat, k: nat)
    requires PartAt(s, u, i) && i <= k < i + |u| && s[k] == ','
    ensures ',' in u
  {
    assert u[k - i] == s[i..i + |u|][k - i] == s[k];
  }

  // ---- What every run keeps ----

  function Players(r: Row): seq<string> { Split(r.players) }

  /** One or two different names, stored as they are joined. */
  ghost predicate RowOk(r: Row, names: set<string>) {
    var ps := Players(r);
    && 1 <= |ps| <= 2 && (forall p :: p in ps ==> p in names) && (|ps| == 2 ==> ps[0] != ps[1])
    && r.players == Join(ps)
  }

  predicate IsMember(t: Tables, id: string, g: string, u: string) {
    id in t.sessions && t.sessions[id].gameType == g && u in Players(t.sessions[id])
  }

  function UsersOf(users: set<(string, string)>, g: string): set<(string, string)> {
    set p | p in users && p.0 == g
  }

  ghost predicate RowsOk(t: Tables, names: set<string>) {
    forall id :: id in t.sessions ==> RowOk(t.sessions[id], names)
  }

  predicate IsSingle(t: Tables, id: string, g: string) {
    id in t.sessions && t.sessions[id].gameType == g && |Players(t.sessions[id])| == 1
  }

  /** The waiting entries are exactly the one-player sessions of their games. */
  ghost predicate WaitingOk(t: Tables) {
    && (forall g :: g in t.waiting ==> IsSingle(t, t.waiting[g], g))
    && (forall g, id :: IsSingle(t, id, g) ==> g in t.waiting && t.waiting[g] == id)
  }

  /** Each user is in at most one session of a game. */
  ghost predicate OneEach(t: Tables) {
    forall i, j, g, u :: IsMember(t, i, g, u) && IsMember(t, j, g, u) ==> i == j
  }

  /** users are the pairs of game and name that have asked so far: exactly the players. */
  ghost predicate UsersOk(t: Tables, names: set<string>, users: set<(string, string)>) {
    && (forall g, u :: (g, u) in users ==> u in names && exists id :: IsMember(t, id, g, u))
    && (forall id, g, u :: IsMember(t, id, g, u) ==> (g, u) in users)
  }

  /** Someone waits exactly when the number of users of the game is odd. */
  ghost predicate ParityOk(t: Tables, users: set<(string, string)>) {
    forall g :: g in t.waiting <==> |UsersOf(users, g)| % 2 == 1
  }

  ghost predicate Inv(t: Tables, names: set<string>, users: set<(string, string)>) {
    && GoodNames(names) && RowsOk(t, names) && WaitingOk(t) && OneEach(t)
    && UsersOk(t, names, users) && ParityOk(t, users)
  }

  /** Among good names, the substring test finds exactly the players. */
  lemma HitsArePlayers(r: Row, names: set<string>, u: string)
    requires GoodNames(names) && RowOk(r, names) && u in names
    ensures Contains(r.players, u) <==> u in Players(r)
  {
    var ps := Players(r);
    ContainsItself(u);
    if |ps| == 1 {
      assert Join(ps) == ps[0];
    } else {
      assert ps[1..] == [ps[1]];
      assert Join(ps) == ps[0] + "," + ps[1];
      ContainsInPair(ps[0], ps[1], u);
    }
    hide Split, Contains;
  }

  lemma HitIsMember(t: Tables, names: set<string>, users: set<(string, string)>, id: string, g: string, u: string)
    requires Inv(t, names, users) && u in names
    ensures IsHit(t, id, g, u) <==> IsMember(t, id, g, u)
  {
    if id in t.sessions { HitsArePlayers(t.sessions[id], names, u); }
    hide Contains, Players;
  }

  lemma UsersOfAdd(users: set<(string, string)>, g: string, u: string)
    requires (g, u) !in users
    ensures |UsersOf(users + {(g, u)}, g)| == |UsersOf(users, g)| + 1
    ensures forall h :: h != g ==> UsersOf(users + {(g, u)}, h) == UsersOf(users, h)
  {
    assert UsersOf(users + {(g, u)}, g) == UsersOf(users, g) + {(g, u)};
  }

  /** A row that a new user opens. */
  lemma OpenedRow(g: string, u: string, names: set<string>)
    requires GoodNames(names) && u in names
    ensures RowOk(Row(g, u), names) && Players(Row(g, u)) == [u]
  {
    SplitOfJoin([u]);
    assert Join([u]) == u;
  }

  /** A row that a second user joins. */
  lemma JoinedRow(r: Row, u: string, names: set<string>)
    requires GoodNames(names) && RowOk(r, names) && u in names && |Players(r)| == 1 && u !in Players(r)
    ensures var r' := r.(players := Join(Players(r) + [u]));
            RowOk(r', names) && Players(r') == Players(r) + [u]
  {
    var ps := Players(r) + [u];
    SplitOfJoin(ps);
  }

  /** Every session of before is still there with its players. */
  ghost predicate Grows(t: Tables, t': Tables) {
    forall id, g, u :: IsMember(t, id, g, u) ==> IsMember(t', id, g, u)
  }

  ghost predicate Answered(t: Tables, a: Answer, g: string, u: string) {
    && a.error == "" && IsMember(t, a.sessionId, g, u)
    && a.isMatched == (|Players(t.sessions[a.sessionId])| == 2)
  }

  /** A user who has asked before gets the same session again, and nothing changes. */
  lemma AskAgain(t: Tables, names: set<string>, users: set<(string, string)>, g: string, u: string,
                 newId: string, pick: Option<string>)
    requires Inv(t, names, users) && (g, u) in users && IsPick(t, g, u, pick)
    ensures pick.Some? && pick.value in t.sessions
    ensures Step(t, g, u, newId, pick).0 == t && Answered(t, Step(t, g, u, newId, pick).1, g, u)
  {
    var id :| IsMember(t, id, g, u);
    HitIsMember(t, names, users, id, g, u);
    if pick.Some? { HitIsMember(t, names, users, pick.value, g, u); }
    hide IsHit, Inv, RowsOk, UsersOk, OneEach, WaitingOk, ParityOk;
  }

  /** A new user finds no session. */
  lemma NotFound(t: Tables, names: set<string>, users: set<(string, string)>, g: string, u: string,
                 pick: Option<string>)
    requires Inv(t, names, users) && u in names && (g, u) !in users && IsPick(t, g, u, pick)
    ensures pick == None
  {
    if pick.Some? { HitIsMember(t, names, users, pick.value, g, u); }
  }

  /** The only change of membership is that u is now in session id0 of g. */
  ghost predicate MemberAdded(t: Tables, t': Tables, id0: string, g: string, u: string) {
    forall id, h, v :: IsMember(t', id, h, v) <==> IsMember(t, id, h, v) || (id == id0 && h == g && v == u)
  }

  lemma AddedKeepsOneEach(t: Tables, t': Tables, id0: string, g: string, u: string)
    requires OneEach(t) && MemberAdded(t, t', id0, g, u) && forall id :: !IsMember(t, id, g, u)
    ensures OneEach(t') && Grows(t, t') && IsMember(t', id0, g, u)
  {
    hide IsMember;
  }

  lemma AddedKeepsUsers(t: Tables, t': Tables, names: set<string>, users: set<(string, string)>,
                        id0: string, g: string, u: string)
    requires UsersOk(t, names, users) && MemberAdded(t, t', id0, g, u) && u in names
    ensures UsersOk(t', names, users + {(g, u)})
  {
    hide IsMember;
    var users' := users + {(g, u)};
    forall h, v | (h, v) in users' ensures v in names && exists id :: IsMember(t', id, h, v) {
      if (h, v) == (g, u) {
        assert IsMember(t', id0, g, u);
      } else {
        var id :| IsMember(t, id, h, v);
        assert IsMember(t', id, h, v);
      }
    }
  }

  lemma ToggleKeepsParity(t: Tables, t': Tables, users: set<(string, string)>, g: string, u: string)
    requires ParityOk(t, users) && (g, u) !in users && (g in t'.waiting) != (g in t.waiting)
    requires forall h :: h != g ==> (h in t'.waiting <==> h in t.waiting)
    ensures ParityOk(t', users + {(g, u)})
  {
    UsersOfAdd(users, g, u);
    hide UsersOf;
    forall h ensures h in t'.waiting <==> |UsersOf(users + {(g, u)}, h)| % 2 == 1 {
      assert h in t.waiting <==> |UsersOf(users, h)| % 2 == 1;
    }
  }

  lemma NobodyYet(t: Tables, names: set<string>, users: set<(string, string)>, g: string, u: string)
    requires UsersOk(t, names, users) && (g, u) !in users
    ensures forall id :: !IsMember(t, id, g, u)
  {
  }

  /** A new user of a game where nobody waits opens a session. */
  lemma OpenSession(t: Tables, names: set<string>, users: set<(string, string)>, g: string, u: string, newId: string)
    requires Inv(t, names, users) && u in names && (g, u) !in users && newId !in t.sessions && g !in t.waiting
    ensures var (t', a) := Step(t, g, u, newId, None);
            Inv(t', names, users + {(g, u)}) && Answered(t', a, g, u) && Grows(t, t')
  {
    InvParts(t, names, users);
    OpenedStep(t, g, u, newId);
    hide *;
    var t' := Step(t, g, u, newId, None).0;
    OpenedRow(g, u, names);
    RowChanged(t, t', names, newId);
    OpenedTables(t, t', g, u, newId);
    NobodyYet(t, names, users, g, u);
    AddedKeepsOneEach(t, t', newId, g, u);
    AddedKeepsUsers(t, t', names, users, newId, g, u);
    ToggleKeepsParity(t, t', users, g, u);
    InvParts(t', names, users + {(g, u)});
    IsAnswered(t', Answer(newId, false, ""), g, u);
  }

  lemma InvParts(t: Tables, names: set<string>, users: set<(string, string)>)
    ensures Inv(t, names, users)
        <==> GoodNames(names) && RowsOk(t, names) && WaitingOk(t) && OneEach(t)
             && UsersOk(t, names, users) && ParityOk(t, users)
  {
    hide GoodNames, RowsOk, WaitingOk, OneEach, UsersOk, ParityOk;
  }

  lemma OpenedStep(t: Tables, g: string, u: string, newId: string)
    requires g !in t.waiting
    ensures Step(t, g, u, newId, None)
            == (Tables(t.sessions[newId := Row(g, u)], t.waiting[g := newId]), Answer(newId, false, ""))
  {
    hide Split, Join;
  }

  lemma RowChanged(t: Tables, t': Tables, names: set<string>, id: string)
    requires RowsOk(t, names) && id in t'.sessions && RowOk(t'.sessions[id], names)
    requires t'.sessions == t.sessions[id := t'.sessions[id]]
    ensures RowsOk(t', names)
  {
    hide RowOk;
  }

  lemma IsAnswered(t: Tables, a: Answer, g: string, u: string)
    requires a.error == "" && IsMember(t, a.sessionId, g, u) && a.sessionId in t.sessions
    requires a.isMatched == (|Players(t.sessions[a.sessionId])| == 2)
    ensures Answered(t, a, g, u)
  {
    hide IsMember, Players;
  }

  lemma OpenedTables(t: Tables, t': Tables, g: string, u: string, newId: string)
    requires WaitingOk(t) && newId !in t.sessions && g !in t.waiting && Players(Row(g, u)) == [u]
    requires t' == Tables(t.sessions[newId := Row(g, u)], t.waiting[g := newId])
    ensures WaitingOk(t') && MemberAdded(t, t', newId, g, u)
  {
    hide Players;
    forall h, id ensures IsSingle(t', id, h) <==> IsSingle(t, id, h) || (id == newId && h == g) {}
    assert MemberAdded(t, t', newId, g, u);
    hide IsSingle, MemberAdded, IsMember;
    assert IsSingle(t', newId, g);
    forall h | h in t'.waiting ensures IsSingle(t', t'.waiting[h], h) {
      if h != g { assert IsSingle(t, t.waiting[h], h); }
    }
  }

  /** A new user of a game where somebody waits joins that session. */
  lemma JoinSession(t: Tables, names: set<string>, users: set<(string, string)>, g: string, u: string, newId: string)
    requires Inv(t, names, users) && u in names && (g, u) !in users && g in t.waiting
    ensures var (t', a) := Step(t, g, u, newId, None);
            Inv(t', names, users + {(g, u)}) && Answered(t', a, g, u) && a.isMatched && Grows(t, t')
  {
    var id0 := t.waiting[g];
    assert IsSingle(t, id0, g);
    NobodyYet(t, names, users, g, u);
    assert !IsMember(t, id0, g, u);
    var row := t.sessions[id0];
    JoinedRow(row, u, names);
    var t' := Step(t, g, u, newId, None).0;
    JoinedTables(t, t', g, u, id0);
    hide GoodNames, RowOk, Players, UsersOk, OneEach, ParityOk, WaitingOk, MemberAdded, Grows, IsMember, Join;
    AddedKeepsOneEach(t, t', id0, g, u);
    AddedKeepsUsers(t, t', names, users, id0, g, u);
    ToggleKeepsParity(t, t', users, g, u);
  }

  lemma JoinedTables(t: Tables, t': Tables, g: string, u: string, id0: string)
    requires WaitingOk(t) && g in t.waiting && t.waiting[g] == id0 && IsSingle(t, id0, g)
    requires id0 in t'.sessions && Players(t'.sessions[id0]) == Players(t.sessions[id0]) + [u]
    requires t'.sessions == t.sessions[id0 := t'.sessions[id0]] && t'.sessions[id0].gameType == g
    requires t'.waiting == t.waiting - {g}
    ensures WaitingOk(t') && MemberAdded(t, t', id0, g, u)
  {
    hide Players;
    forall h, id ensures IsSingle(t', id, h) <==> IsSingle(t, id, h) && id != id0 {}
    assert MemberAdded(t, t', id0, g, u);
    var game0 := t.sessions[id0].gameType;
    forall h | h in t.waiting && t.waiting[h] == id0 ensures h == g { assert IsSingle(t, t.waiting[h], h); }
    hide IsSingle, MemberAdded, IsMember;
    forall h | h in t'.waiting ensures IsSingle(t', t'.waiting[h], h) {
      assert IsSingle(t, t.waiting[h], h);
    }
  }

  // ---- Runs ----

  datatype Request = Request(game: string, user: string, newId: string, pick: Option<string>)

  /** Every request goes to the tables as the one before left them; a new id is one that no session has. */
  ghost predicate IsRun(t: Tables, names: set<string>, requests: seq<Request>, answers: seq<Answer>, t': Tables)
    decreases |requests|
  {
    if requests == [] then answers == [] && t' == t
    else
      var r := requests[0];
      && r.user in names && r.newId !in t.sessions && IsPick(t, r.game, r.user, r.pick) && answers != []
      && (r.pick.Some? ==> r.pick.value in t.sessions)
      && answers[0] == Step(t, r.game, r.user, r.newId, r.pick).1
      && IsRun(Step(t, r.game, r.user, r.newId, r.pick).0, names, requests[1..], answers[1..], t')
  }

  function Asked(requests: seq<Request>): set<(string, string)> {
    set k | 0 <= k < |requests| :: (requests[k].game, requests[k].user)
  }

  lemma StepKeeps(t: Tables, names: set<string>, users: set<(string, string)>, r: Request)
    requires Inv(t, names, users) && r.user in names && r.newId !in t.sessions && IsPick(t, r.game, r.user, r.pick)
    requires r.pick.Some? ==> r.pick.value in t.sessions
    ensures var (t', a) := Step(t, r.game, r.user, r.newId, r.pick);
            && Inv(t', names, users + {(r.game, r.user)}) && Answered(t', a, r.game, r.user) && Grows(t, t')
            && ((r.game, r.user) in users ==> t' == t)
  {
    hide Step, Inv, Answered, IsPick;
    if (r.game, r.user) in users {
      AskAgain(t, names, users, r.game, r.user, r.newId, r.pick);
      assert users + {(r.game, r.user)} == users;
    } else {
      NotFound(t, names, users, r.game, r.user, r.pick);
      if r.game in t.waiting {
        JoinSession(t, names, users, r.game, r.user, r.newId);
      } else {
        OpenSession(t, names, users, r.game, r.user, r.newId);
      }
    }
  }

  /** Over every run: no request fails, every user is answered with a session that he is in for good, and the tables
      keep their invariant for exactly the users that have asked. */
  lemma {:induction false} RunKeeps(t: Tables, names: set<string>, users: set<(string, string)>,
                                    requests: seq<Request>, answers: seq<Answer>, t': Tables)
    requires Inv(t, names, users) && IsRun(t, names, requests, answers, t')
    ensures Inv(t', names, users + Asked(requests)) && Grows(t, t') && AllAnswered(t', requests, answers)
    decreases |requests|
  {
    if requests == [] {
      assert users + Asked(requests) == users;
    } else {
      var r := requests[0];
      StepKeeps(t, names, users, r);
      var t1 := Step(t, r.game, r.user, r.newId, r.pick).0;
      AskedStep(requests);
      hide Inv, Step, IsPick, IsMember, Asked, AllAnswered, Grows, Answered;
      RunKeeps(t1, names, users + {(r.game, r.user)}, requests[1..], answers[1..], t');
      AnsweredStep(t1, t', requests, answers);
      SetAssoc(users, {(r.game, r.user)}, Asked(requests[1..]));
    }
  }

  lemma SetAssoc<T>(a: set<T>, b: set<T>, c: set<T>)
    ensures a + b + c == a + (b + c)
  {
  }

  /** Every request was answered without an error, by a session that the user is in. */
  ghost predicate AllAnswered(t: Tables, requests: seq<Request>, answers: seq<Answer>) {
    && |answers| == |requests|
    && forall k :: 0 <= k < |requests| ==>
         answers[k].error == "" && IsMember(t, answers[k].sessionId, requests[k].game, requests[k].user)
  }

  lemma AnsweredStep(t: Tables, t': Tables, requests: seq<Request>, answers: seq<Answer>)
    requires requests != [] && answers != [] && AllAnswered(t', requests[1..], answers[1..]) && Grows(t, t')
    requires Answered(t, answers[0], requests[0].game, requests[0].user)
    ensures AllAnswered(t', requests, answers)
    ensures forall t0 :: Grows(t0, t) ==> Grows(t0, t')
  {
    hide IsMember;
    forall k | 0 <= k < |requests|
      ensures answers[k].error == "" && IsMember(t', answers[k].sessionId, requests[k].game, requests[k].user)
    {
      if k > 0 { assert answers[k] == answers[1..][k - 1] && requests[k] == requests[1..][k - 1]; }
    }
  }

  lemma AskedStep(requests: seq<Request>)
    requires requests != []
    ensures Asked(requests) == {(requests[0].game, requests[0].user)} + Asked(requests[1..])
  {
    forall p | p in Asked(requests) ensures p in {(requests[0].game, requests[0].user)} + Asked(requests[1..]) {
      var k :| 0 <= k < |requests| && p == (requests[k].game, requests[k].user);
      if k > 0 { assert requests[1..][k - 1] == requests[k]; }
    }
    forall p | p in Asked(requests[1..]) ensures p in Asked(requests) {
      var k :| 0 <= k < |requests[1..]| && p == (requests[1..][k].game, requests[1..][k].user);
      assert requests[k + 1] == requests[1..][k];
    }
  }

  lemma EmptyTables(names: set<string>)
    requires GoodNames(names)
    ensures Inv(Tables(map[], map[]), names, {})
  {
    forall g: string ensures |UsersOf({}, g)| == 0 { assert UsersOf({}, g) == {}; }
  }

  /** From empty tables: equal requests are answered with the same session, wherever they stand in the run, and the
      one-player sessions of a game are as many as its distinct users modulo 2. */
  lemma RunFromEmpty(names: set<string>, requests: seq<Request>, answers: seq<Answer>, t: Tables)
    requires GoodNames(names) && IsRun(Tables(map[], map[]), names, requests, answers, t)
    ensures |answers| == |requests| && Inv(t, names, Asked(requests))
    ensures forall j, k :: 0 <= j < |requests| && 0 <= k < |requests|
                           && requests[j].game == requests[k].game && requests[j].user == requests[k].user ==>
              answers[j].sessionId == answers[k].sessionId
    ensures forall k :: 0 <= k < |requests| ==> answers[k].error == ""
    ensures forall g :: |Singles(t, g)| == |UsersOf(Asked(requests), g)| % 2
  {
    EmptyTables(names);
    RunKeeps(Tables(map[], map[]), names, {}, requests, answers, t);
    assert {} + Asked(requests) == Asked(requests);
    forall g ensures |Singles(t, g)| == |UsersOf(Asked(requests), g)| % 2 {
      SinglesByParity(t, names, Asked(requests), g);
    }
    hide IsRun, Asked, UsersOf, Singles, GoodNames;
    assert OneEach(t);
    hide Inv;
  }

  function Singles(t: Tables, g: string): set<string> { set id | id in t.sessions && IsSingle(t, id, g) }

  lemma SinglesByParity(t: Tables, names: set<string>, users: set<(string, string)>, g: string)
    requires Inv(t, names, users)
    ensures |Singles(t, g)| == |UsersOf(users, g)| % 2
  {
    if g in t.waiting {
      assert Singles(t, g) == {t.waiting[g]};
    } else {
      assert Singles(t, g) == {};
    }
  }

  // ---- For which names it works ----

  /** In every run from empty tables every request is answered without an error, by a session its user is a player
      of. */
  ghost predicate Serves(names: set<string>) {
    forall requests, answers, t ::
      IsRun(Tables(map[], map[]), names, requests, answers, t) ==> AllAnswered(t, requests, answers)
  }

  /** It works exactly for the names that are not empty, have no comma, and of which none is part of another. */
  lemma ServesExactlyGoodNames(names: set<string>)
    ensures Serves(names) <==> GoodNames(names)
  {
    if GoodNames(names) {
      forall requests, answers, t | IsRun(Tables(map[], map[]), names, requests, answers, t)
        ensures AllAnswered(t, requests, answers)
      {
        EmptyTables(names);
        RunKeeps(Tables(map[], map[]), names, {}, requests, answers, t);
      }
    }
    hide IsRun, AllAnswered, Contains;
    forall a | a in names && (a == "" || ',' in a) ensures !Serves(names) { LostName(names, a); }
    forall a, b | a in names && b in names && Contains(a, b) && a != b && a != "" && ',' !in a
      ensures !Serves(names)
    {
      PartOfAName(names, a, b);
    }
  }

  /** The tables after the first request of all. */
  function Opened(a: string): Tables { Tables(map["1" := Row("game", a)], map["game" := "1"]) }

  lemma FirstAsks(names: set<string>, a: string, more: seq<Request>, answers: seq<Answer>, t: Tables)
    requires a in names && IsRun(Opened(a), names, more, answers, t)
    ensures IsRun(Tables(map[], map[]), names, [Request("game", a, "1", None)] + more,
                  [Answer("1", false, "")] + answers, t)
  {
    var requests, all := [Request("game", a, "1", None)] + more, [Answer("1", false, "")] + answers;
    assert requests[1..] == more && all[1..] == answers;
    assert IsPick(Tables(map[], map[]), "game", a, None);
    hide Contains, Split;
  }

  lemma NotServed(names: set<string>, requests: seq<Request>, answers: seq<Answer>, t: Tables, k: nat)
    requires IsRun(Tables(map[], map[]), names, requests, answers, t) && k < |requests| && k < |answers|
    requires !IsMember(t, answers[k].sessionId, requests[k].game, requests[k].user)
    ensures !Serves(names)
  {
    hide IsRun, IsMember;
  }

  /** An empty name, or one with a comma, is no player of the session it opens. */
  lemma LostName(names: set<string>, a: string)
    requires a in names && (a == "" || ',' in a)
    ensures !Serves(names)
  {
    SplitIsCommaFree(a);
    assert !IsMember(Opened(a), "1", "game", a);
    assert IsRun(Opened(a), names, [], [], Opened(a));
    hide *;
    FirstAsks(names, a, [], [], Opened(a));
    NotServed(names, [Request("game", a, "1", None)] + [], [Answer("1", false, "")] + [], Opened(a), 0);
  }

  /** A user whose name is part of a player's name is taken for that player: he is sent to that session and does not
      become a player of it. */
  lemma PartOfAName(names: set<string>, a: string, b: string)
    requires a in names && b in names && Contains(a, b) && a != b && a != "" && ',' !in a
    ensures !Serves(names)
  {
    SecondAsks(names, a, b);
    NotAPlayer(a, b);
    hide *;
    var second, answer := Request("game", b, "2", Some("1")), Answer("1", false, "");
    FirstAsks(names, a, [second], [answer], Opened(a));
    NotServed(names, [Request("game", a, "1", None)] + [second], [Answer("1", false, "")] + [answer], Opened(a), 1);
  }

  lemma NotAPlayer(a: string, b: string)
    requires a != b && a != "" && ',' !in a
    ensures Split(a) == [a] && !IsMember(Opened(a), "1", "game", b)
  {
    SplitOfJoin([a]);
    assert Join([a]) == a;
    hide Split;
  }

  lemma SecondAsks(names: set<string>, a: string, b: string)
    requires b in names && Contains(a, b) && a != b && a != "" && ',' !in a
    ensures IsRun(Opened(a), names, [Request("game", b, "2", Some("1"))], [Answer("1", false, "")], Opened(a))
  {
    NotAPlayer(a, b);
    hide Split, Contains;
    var requests, answers := [Request("game", b, "2", Some("1"))], [Answer("1", false, "")];
    assert requests[1..] == [] && answers[1..] == [];
    assert IsPick(Opened(a), "game", b, Some("1"));
    assert IsRun(Opened(a), names, [], [], Opened(a));
  }

  lemma AlAndAlice()
    ensures !Serves({"al", "alice"})
  {
    assert "alice"[0..2] == "al";
    assert PartAt("alice", "al", 0);
    PartOfAName({"al", "alice"}, "alice", "al");
  }
}
