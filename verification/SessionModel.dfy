/**
 The session cache as a state machine.  Requests in flight share reference-counted nodes; a node is loaded from the
 store by the first request that needs it and moved back by the last one.  Every step is atomic.  Seen from outside,
 the whole is one map of entries per session: that is proved for every interleaving.
 */
module SessionModel {
  import opened Wrappers

  datatype Value = BoolValue(b: bool) | IntValue(i: int) | DoubleValue(d: real) | StringValue(s: string)

  type Entries = map<string, Value>

  type NodeId = nat
  type RequestId = nat

  /** A cached session, shared by the requests that picked it up; a session that has no id yet belongs to one. */
  datatype Node = Node(sessionId: string, requestedId: string, entries: Entries, dirty: set<string>,
                       requestedRefresh: bool, referrers: int)

  const NEW_NODE := Node("", "", map[], {}, false, 0)

  /** nodes is the heap of shared nodes; loaded remembers, for the proofs only, what a node held when it was made. */
  datatype State = State(nodes: map<NodeId, Node>, cache: map<string, NodeId>, store: map<string, Entries>,
                         requests: map<RequestId, Option<NodeId>>, next: NodeId, loaded: map<NodeId, Entries>)

  const INITIAL := State(map[], map[], map[], map[], 0, map[])

  // ---- The steps ----

  /** Picking up the session of the cookie.  leftover is what the store keeps of a map that was moved from. */
  function Before(s: State, r: RequestId, cookie: string, leftover: Entries): State
    requires s.cache.Values <= s.nodes.Keys
  {
    if cookie == "" then s.(requests := s.requests[r := None])
    else if cookie in s.cache then
      var n := s.cache[cookie];
      assert n in s.cache.Values;
      s.(nodes := s.nodes[n := s.nodes[n].(referrers := s.nodes[n].referrers + 1)],
         requests := s.requests[r := Some(n)])
    else if cookie !in s.store then s.(requests := s.requests[r := None])
    else
      var node := NEW_NODE.(sessionId := cookie, referrers := 1, entries := s.store[cookie]);
      s.(nodes := s.nodes[s.next := node], cache := s.cache[cookie := s.next],
         store := s.store[cookie := leftover], requests := s.requests[r := Some(s.next)],
         next := s.next + 1, loaded := s.loaded[s.next := s.store[cookie]])
  }

  /** A request that has no node gets a new one without an id. */
  function CheckNode(s: State, r: RequestId): State
    requires r in s.requests
  {
    if s.requests[r].Some? then s
    else
      s.(nodes := s.nodes[s.next := NEW_NODE], requests := s.requests[r := Some(s.next)], next := s.next + 1,
         loaded := s.loaded[s.next := map[]])
  }

  ghost predicate Bound(s: State, r: RequestId) {
    r in s.requests && s.requests[r].Some? && s.requests[r].value in s.nodes
  }

  function Write(s: State, r: RequestId, key: string, entries: Entries): State
    requires Bound(s, r)
  {
    var n := s.requests[r].value;
    s.(nodes := s.nodes[n := s.nodes[n].(dirty := s.nodes[n].dirty + {key}, entries := entries)])
  }

  function Set(s: State, r: RequestId, key: string, v: Value): State
    requires r in s.requests && (s.requests[r].Some? ==> Bound(s, r))
  {
    var s1 := CheckNode(s, r);
    Write(s1, r, key, s1.nodes[s1.requests[r].value].entries[key := v])
  }

  /** What get returns: the entry if it is there and has the kind of the fallback. */
  function Get(entries: Entries, key: string, fallback: Value): Value {
    if key !in entries then fallback
    else
      var v := entries[key];
      if (v.BoolValue? && fallback.BoolValue?) || (v.IntValue? && fallback.IntValue?)
         || (v.DoubleValue? && fallback.DoubleValue?) || (v.StringValue? && fallback.StringValue?)
      then v else fallback
  }

  function Apply(s: State, r: RequestId, key: string, default': Value, f: Value -> Value): State
    requires r in s.requests && (s.requests[r].Some? ==> Bound(s, r))
  {
    var s1 := CheckNode(s, r);
    var entries := s1.nodes[s1.requests[r].value].entries;
    Write(s1, r, key, entries[key := f(Get(entries, key, default'))])
  }

  function Remove(s: State, r: RequestId, key: string): State
    requires r in s.requests && (s.requests[r].Some? ==> Bound(s, r))
  {
    if s.requests[r].None? then s else Write(s, r, key, s.nodes[s.requests[r].value].entries - {key})
  }

  function Refresh(s: State, r: RequestId): State
    requires r in s.requests && (s.requests[r].Some? ==> Bound(s, r))
  {
    if s.requests[r].None? then s
    else
      var n := s.requests[r].value;
      s.(nodes := s.nodes[n := s.nodes[n].(requestedRefresh := true)])
  }

  /** Letting go of the session; the last request moves its entries into the store, under a new id if it has none,
      and the node is freed. */
  function After(s: State, r: RequestId, newId: string): State
    requires r in s.requests && (s.requests[r].Some? ==> Bound(s, r))
  {
    var rest := s.requests - {r};
    if s.requests[r].None? then s.(requests := rest)
    else
      var n := s.requests[r].value;
      var node := s.nodes[n].(referrers := s.nodes[n].referrers - 1);
      if node.referrers > 0 then s.(nodes := s.nodes[n := node], requests := rest)
      else
        var cache := if node.sessionId == "" then s.cache else s.cache - {node.sessionId};
        s.(nodes := s.nodes - {n}, cache := cache, store := s.store[SavedId(node, newId) := node.entries],
           requests := rest)
  }

  /** The id a session is saved under. */
  function SavedId(node: Node, newId: string): string {
    if node.sessionId != "" then node.sessionId else if node.requestedId != "" then node.requestedId else newId
  }

  /** The cookie that letting go sends back: the id of a session that is new or was asked to be refreshed. */
  function Cookie(s: State, r: RequestId, newId: string): Option<string>
    requires r in s.requests && (s.requests[r].Some? ==> Bound(s, r))
  {
    if s.requests[r].None? then None
    else
      var node := s.nodes[s.requests[r].value];
      if node.referrers <= 1 && (node.requestedRefresh || node.sessionId == "") then Some(SavedId(node, newId))
      else None
  }

  // ---- What every reachable state keeps ----

  function Holders(s: State, n: NodeId): set<RequestId> {
    set r | r in s.requests && s.requests[r] == Some(n)
  }

  ghost predicate CachedOk(s: State, id: string)
    requires id in s.cache
  {
    var n := s.cache[id];
    && id != "" && id in s.store
    && n in s.nodes && s.nodes[n].sessionId == id
    && s.nodes[n].referrers == |Holders(s, n)| && Holders(s, n) != {}
  }

  /** A request holds either the cached node of its session, or a node without an id that nobody else holds. */
  ghost predicate RequestOk(s: State, r: RequestId)
    requires r in s.requests
  {
    s.requests[r].Some? ==>
      var n := s.requests[r].value;
      && n in s.nodes
      && (if s.nodes[n].sessionId != "" then s.nodes[n].sessionId in s.cache && s.cache[s.nodes[n].sessionId] == n
          else s.nodes[n].referrers == 0 && Holders(s, n) == {r})
  }

  /** Keys that are not marked dirty still have the value they were loaded with. */
  ghost predicate DirtyOk(s: State, n: NodeId)
    requires n in s.nodes && n in s.loaded
  {
    forall k :: k !in s.nodes[n].dirty ==>
      (k in s.nodes[n].entries <==> k in s.loaded[n])
      && (k in s.loaded[n] ==> s.nodes[n].entries[k] == s.loaded[n][k])
  }

  ghost predicate Inv(s: State) {
    && (forall n :: n in s.nodes ==> n < s.next && n in s.loaded && s.nodes[n].requestedId == "")
    && (forall n :: n in s.nodes ==> DirtyOk(s, n))
    && (forall id :: id in s.cache ==> CachedOk(s, id))
    && (forall r :: r in s.requests ==> RequestOk(s, r))
  }

  // ---- The specification: one map of entries per session ----

  /** What a request refers to: nothing, a session by its id, or entries of its own that have no id yet. */
  datatype Handle = Unbound | Session(id: string) | Draft(entries: Entries)

  datatype Spec = Spec(sessions: map<string, Entries>, handles: map<RequestId, Handle>)

  function HandleOf(s: State, r: RequestId): Handle
    requires r in s.requests
  {
    if s.requests[r].None? || s.requests[r].value !in s.nodes then Unbound
    else
      var node := s.nodes[s.requests[r].value];
      if node.sessionId == "" then Draft(node.entries) else Session(node.sessionId)
  }

  /** The entries of a session: those of its cached node, or those in the store. */
  function EntriesOf(s: State, id: string): Entries
    requires id in s.store
  {
    if id in s.cache && s.cache[id] in s.nodes then s.nodes[s.cache[id]].entries else s.store[id]
  }

  /** What the cache and the store stand for together. */
  function Abs(s: State): Spec {
    Spec(map id | id in s.store :: EntriesOf(s, id), map r | r in s.requests :: HandleOf(s, r))
  }

  function SpecBefore(a: Spec, r: RequestId, cookie: string): Spec {
    a.(handles := a.handles[r := if cookie != "" && cookie in a.sessions then Session(cookie) else Unbound])
  }

  /** A change of the entries that the request sees. */
  function SpecUpdate(a: Spec, r: RequestId, change: Entries -> Entries): Spec
    requires r in a.handles
  {
    match a.handles[r]
    case Unbound => a.(handles := a.handles[r := Draft(change(map[]))])
    case Draft(e) => a.(handles := a.handles[r := Draft(change(e))])
    case Session(id) =>
      if id in a.sessions then a.(sessions := a.sessions[id := change(a.sessions[id])]) else a
  }

  function SpecRemove(a: Spec, r: RequestId, key: string): Spec
    requires r in a.handles
  {
    if a.handles[r].Unbound? then a else SpecUpdate(a, r, (e: Entries) => e - {key})
  }

  /** Asking for the mutex gives a request without a session entries of its own. */
  function SpecMutex(a: Spec, r: RequestId): Spec
    requires r in a.handles
  {
    if a.handles[r].Unbound? then a.(handles := a.handles[r := Draft(map[])]) else a
  }

  function SpecAfter(a: Spec, r: RequestId, newId: string): Spec
    requires r in a.handles
  {
    var rest := a.handles - {r};
    match a.handles[r]
    case Draft(e) => Spec(a.sessions[newId := e], rest)
    case _ => a.(handles := rest)
  }

  // ---- Each step keeps the invariant and does what the specification says ----

  lemma AbsByPoints(s: State, a: Spec)
    requires a.sessions.Keys == s.store.Keys && a.handles.Keys == s.requests.Keys
    requires forall id :: id in s.store ==> a.sessions[id] == EntriesOf(s, id)
    requires forall r :: r in s.requests ==> a.handles[r] == HandleOf(s, r)
    ensures Abs(s) == a
  {
    hide EntriesOf, HandleOf;
    assert Abs(s).sessions == a.sessions;
    assert Abs(s).handles == a.handles;
  }

  lemma HoldersAdd(s: State, s': State, r: RequestId, n: NodeId)
    requires r !in s.requests && s'.requests == s.requests[r := Some(n)]
    ensures Holders(s', n) == Holders(s, n) + {r} && |Holders(s', n)| == |Holders(s, n)| + 1
    ensures forall m :: m != n ==> Holders(s', m) == Holders(s, m)
  {
  }

  lemma HoldersSame(s: State, s': State, r: RequestId)
    requires r !in s.requests && s'.requests == s.requests[r := None]
    ensures forall m :: Holders(s', m) == Holders(s, m)
  {
  }

  lemma HoldersDrop(s: State, s': State, r: RequestId)
    requires r in s.requests && s'.requests == s.requests - {r}
    ensures forall m: NodeId :: s.requests[r] != Some(m) ==> Holders(s', m) == Holders(s, m)
    ensures s.requests[r].Some? ==>
              var n := s.requests[r].value;
              Holders(s', n) == Holders(s, n) - {r} && |Holders(s', n)| == |Holders(s, n)| - 1
  {
    if s.requests[r].Some? {
      var n := s.requests[r].value;
      assert r in Holders(s, n);
      assert Holders(s', n) == Holders(s, n) - {r};
    }
  }

  lemma SingleHolder(s: State, r: RequestId, n: NodeId)
    requires r in Holders(s, n) && |Holders(s, n)| <= 1
    ensures Holders(s, n) == {r}
  {
    var others := Holders(s, n) - {r};
    assert Holders(s, n) == others + {r};
    assert |Holders(s, n)| == |others| + 1;
  }

  /** A node that counts at most one request is held by nobody else. */
  lemma LastHolder(s: State, r: RequestId)
    requires Inv(s) && Bound(s, r) && s.nodes[s.requests[r].value].referrers <= 1
    ensures forall q :: q in s.requests && q != r ==> s.requests[q] != s.requests[r]
    ensures forall k :: k in s.cache && s.cache[k] == s.requests[r].value ==>
              k == s.nodes[s.requests[r].value].sessionId != ""
  {
    var n := s.requests[r].value;
    HolderIn(s, r, n);
    assert RequestOk(s, r);
    if s.nodes[n].sessionId != "" {
      assert CachedOk(s, s.nodes[n].sessionId);
      SingleHolder(s, r, n);
    }
    forall q | q in s.requests && q != r ensures s.requests[q] != s.requests[r] {
      if s.requests[q] == s.requests[r] { HolderIn(s, q, n); }
    }
    forall k | k in s.cache && s.cache[k] == n ensures k == s.nodes[n].sessionId != "" { assert CachedOk(s, k); }
  }

  lemma NextIsFree(s: State)
    requires Inv(s)
    ensures s.next !in s.nodes && Holders(s, s.next) == {}
    ensures forall id :: id in s.cache ==> s.cache[id] != s.next
    ensures forall r :: r in s.requests ==> s.requests[r] != Some(s.next)
  {
    forall r | r in s.requests ensures s.requests[r] != Some(s.next) { assert RequestOk(s, r); }
    forall id | id in s.cache ensures s.cache[id] != s.next { assert CachedOk(s, id); }
  }

  lemma InvGivesValues(s: State)
    requires Inv(s)
    ensures s.cache.Values <= s.nodes.Keys
  {
    forall n | n in s.cache.Values
      ensures n in s.nodes.Keys
    {
      var id :| id in s.cache && s.cache[id] == n;
      assert CachedOk(s, id);
    }
  }

  // Before

  lemma BeforeKeepsInv(s: State, r: RequestId, cookie: string, leftover: Entries)
    requires Inv(s) && r !in s.requests
    ensures s.cache.Values <= s.nodes.Keys && Inv(Before(s, r, cookie, leftover))
  {
    InvGivesValues(s);
    var s' := Before(s, r, cookie, leftover);
    if cookie == "" || (cookie !in s.cache && cookie !in s.store) {
      HoldersSame(s, s', r);
      hide Holders;
      forall id | id in s'.cache ensures CachedOk(s', id) { assert CachedOk(s, id); }
      forall q | q in s'.requests ensures RequestOk(s', q) { if q != r { assert RequestOk(s, q); } }
      forall n | n in s'.nodes ensures DirtyOk(s', n) { assert DirtyOk(s, n); }
    } else if cookie in s.cache {
      PickUpKeepsInv(s, s', r, cookie, leftover);
    } else {
      LoadKeepsInv(s, s', r, cookie, leftover);
    }
  }

  lemma PickUpKeepsInv(s: State, s': State, r: RequestId, id: string, leftover: Entries)
    requires Inv(s) && r !in s.requests && id in s.cache && id != "" && s.cache.Values <= s.nodes.Keys
    requires s' == Before(s, r, id, leftover)
    ensures Inv(s')
  {
    assert CachedOk(s, id);
    HoldersAdd(s, s', r, s.cache[id]);
    HolderIn(s', r, s.cache[id]);
    PickUpKeepsRequests(s, s', r, id, leftover);
    PickUpKeepsCached(s, s', r, id, leftover);
    hide Holders, CachedOk, RequestOk;
    forall n | n in s'.nodes ensures DirtyOk(s', n) { assert DirtyOk(s, n); }
  }

  lemma PickUpKeepsCached(s: State, s': State, r: RequestId, id: string, leftover: Entries)
    requires Inv(s) && r !in s.requests && id in s.cache && id != "" && s.cache.Values <= s.nodes.Keys
    requires s' == Before(s, r, id, leftover)
    requires forall m :: m != s.cache[id] ==> Holders(s', m) == Holders(s, m)
    requires |Holders(s', s.cache[id])| == |Holders(s, s.cache[id])| + 1 && r in Holders(s', s.cache[id])
    ensures forall i :: i in s'.cache ==> CachedOk(s', i)
  {
    hide Holders, RequestOk, DirtyOk;
    forall i | i in s'.cache ensures CachedOk(s', i) { assert CachedOk(s, i); }
  }

  lemma PickUpKeepsRequests(s: State, s': State, r: RequestId, id: string, leftover: Entries)
    requires Inv(s) && r !in s.requests && id in s.cache && id != "" && s.cache.Values <= s.nodes.Keys
    requires s' == Before(s, r, id, leftover) && CachedOk(s, id)
    requires forall m :: m != s.cache[id] ==> Holders(s', m) == Holders(s, m)
    ensures forall q :: q in s'.requests ==> RequestOk(s', q)
  {
    hide Holders;
    forall q | q in s'.requests ensures RequestOk(s', q) { if q != r { assert RequestOk(s, q); } }
  }

  lemma LoadKeepsInv(s: State, s': State, r: RequestId, id: string, leftover: Entries)
    requires Inv(s) && r !in s.requests && id !in s.cache && id in s.store && id != ""
    requires s.cache.Values <= s.nodes.Keys && s' == Before(s, r, id, leftover)
    ensures Inv(s')
  {
    NextIsFree(s);
    HoldersAdd(s, s', r, s.next);
    HolderIn(s', r, s.next);
    hide Holders;
    forall i | i in s'.cache ensures CachedOk(s', i) { if i != id { assert CachedOk(s, i); } }
    LoadKeepsRequests(s, s', r, id, leftover);
    hide CachedOk, RequestOk;
    forall n | n in s'.nodes ensures DirtyOk(s', n) { if n != s.next { assert DirtyOk(s, n); } }
  }

  lemma LoadKeepsRequests(s: State, s': State, r: RequestId, id: string, leftover: Entries)
    requires Inv(s) && r !in s.requests && id !in s.cache && id in s.store && id != ""
    requires s.cache.Values <= s.nodes.Keys && s' == Before(s, r, id, leftover)
    requires forall m :: m != s.next ==> Holders(s', m) == Holders(s, m)
    ensures forall q :: q in s'.requests ==> RequestOk(s', q)
  {
    NextIsFree(s);
    hide Holders;
    forall q | q in s'.requests ensures RequestOk(s', q) { if q != r { assert RequestOk(s, q); } }
  }

  lemma HolderIn(s: State, r: RequestId, n: NodeId)
    requires r in s.requests && s.requests[r] == Some(n)
    ensures r in Holders(s, n)
  {
  }

  lemma BeforeRefines(s: State, r: RequestId, cookie: string, leftover: Entries)
    requires Inv(s) && r !in s.requests
    ensures s.cache.Values <= s.nodes.Keys
    ensures var s' := Before(s, r, cookie, leftover);
            Inv(s') && Abs(s') == SpecBefore(Abs(s), r, cookie)
  {
    BeforeKeepsInv(s, r, cookie, leftover);
    NextIsFree(s);
    if cookie in s.cache { assert CachedOk(s, cookie); }
    KnownNodes(s);
    hide Inv, CachedOk, RequestOk, DirtyOk, Holders, Abs, SpecBefore;
    var s' := Before(s, r, cookie, leftover);
    if cookie == "" || (cookie !in s.cache && cookie !in s.store) {
      NoSessionAbs(s, s', r, cookie);
    } else if cookie in s.cache {
      PickUpAbs(s, s', r, cookie, leftover);
    } else {
      LoadAbs(s, s', r, cookie, leftover);
    }
  }

  lemma NoSessionAbs(s: State, s': State, r: RequestId, cookie: string)
    requires r !in s.requests && (cookie == "" || cookie !in s.store) && s' == s.(requests := s.requests[r := None])
    ensures Abs(s') == SpecBefore(Abs(s), r, cookie)
  {
    AbsByPoints(s', SpecBefore(Abs(s), r, cookie));
  }

  ghost predicate Known(s: State) {
    && (forall id :: id in s.cache ==> s.cache[id] in s.nodes && s.nodes[s.cache[id]].sessionId == id != "")
    && (forall q :: q in s.requests && s.requests[q].Some? ==> s.requests[q].value in s.nodes)
  }

  lemma PickUpAbs(s: State, s': State, r: RequestId, id: string, leftover: Entries)
    requires Known(s) && r !in s.requests && id in s.cache && id in s.store && s.cache.Values <= s.nodes.Keys
    requires s' == Before(s, r, id, leftover)
    ensures Abs(s') == SpecBefore(Abs(s), r, id)
  {
    AbsByPoints(s', SpecBefore(Abs(s), r, id));
  }

  lemma LoadAbs(s: State, s': State, r: RequestId, id: string, leftover: Entries)
    requires Known(s) && r !in s.requests && id !in s.cache && id in s.store && id != ""
    requires s.cache.Values <= s.nodes.Keys && s' == Before(s, r, id, leftover)
    requires s.next !in s.nodes
    ensures Abs(s') == SpecBefore(Abs(s), r, id)
  {
    forall i | i in s.store ensures EntriesOf(s', i) == EntriesOf(s, i) {}
    forall q | q in s.requests ensures HandleOf(s', q) == HandleOf(s, q) {}
    assert HandleOf(s', r) == Session(id);
    hide EntriesOf, HandleOf;
    AbsByPoints(s', SpecBefore(Abs(s), r, id));
  }

  lemma KnownNodes(s: State)
    requires Inv(s)
    ensures Known(s)
  {
    forall id | id in s.cache ensures s.cache[id] in s.nodes && s.nodes[s.cache[id]].sessionId == id != "" {
      assert CachedOk(s, id);
    }
    forall q | q in s.requests && s.requests[q].Some? ensures s.requests[q].value in s.nodes { assert RequestOk(s, q); }
  }

  // A node for a request without one

  lemma CheckNodeKeepsInv(s: State, r: RequestId)
    requires Inv(s) && r in s.requests
    ensures Inv(CheckNode(s, r)) && Bound(CheckNode(s, r), r)
  {
    assert RequestOk(s, r);
    if s.requests[r].None? {
      var s' := CheckNode(s, r);
      NextIsFree(s);
      assert forall m :: m != s.next ==> Holders(s', m) == Holders(s, m);
      assert Holders(s', s.next) == {r};
      hide Holders;
      forall i | i in s'.cache ensures CachedOk(s', i) { assert CachedOk(s, i); }
      forall q | q in s'.requests ensures RequestOk(s', q) { if q != r { assert RequestOk(s, q); } }
      forall m | m in s'.nodes ensures DirtyOk(s', m) { if m != s.next { assert DirtyOk(s, m); } }
    }
  }

  lemma CheckNodeRefines(s: State, r: RequestId)
    requires Inv(s) && r in s.requests
    ensures var s' := CheckNode(s, r);
            && Inv(s') && Bound(s', r)
            && Abs(s') == if s.requests[r].None? then Abs(s).(handles := Abs(s).handles[r := Draft(map[])]) else Abs(s)
  {
    CheckNodeKeepsInv(s, r);
    if s.requests[r].None? {
      NextIsFree(s);
      KnownNodes(s);
      hide Inv, Holders, DirtyOk;
      AbsByPoints(CheckNode(s, r), Abs(s).(handles := Abs(s).handles[r := Draft(map[])]));
    }
  }

  lemma MutexRefines(s: State, r: RequestId)
    requires Inv(s) && r in s.requests
    ensures Inv(CheckNode(s, r)) && r in Abs(s).handles
    ensures Abs(CheckNode(s, r)) == SpecMutex(Abs(s), r)
  {
    CheckNodeRefines(s, r);
    assert RequestOk(s, r);
    hide CachedOk, DirtyOk, Holders;
  }

  // Changing entries

  lemma WriteKeepsInv(s: State, r: RequestId, key: string, entries: Entries)
    requires Inv(s) && Bound(s, r)
    requires var old' := s.nodes[s.requests[r].value].entries;
             forall k :: k != key ==> (k in entries <==> k in old') && (k in old' ==> entries[k] == old'[k])
    ensures Inv(Write(s, r, key, entries))
  {
    var s' := Write(s, r, key, entries);
    assert forall m :: Holders(s', m) == Holders(s, m);
    hide Holders;
    forall i | i in s'.cache ensures CachedOk(s', i) { assert CachedOk(s, i); }
    forall q | q in s'.requests ensures RequestOk(s', q) { assert RequestOk(s, q); }
    forall m | m in s'.nodes ensures DirtyOk(s', m) { assert DirtyOk(s, m); }
  }

  /** Writing through one request is seen by everyone who holds the session, and by no one else. */
  lemma WriteRefines(s: State, r: RequestId, key: string, entries: Entries, change: Entries -> Entries)
    requires Inv(s) && Bound(s, r)
    requires entries == change(s.nodes[s.requests[r].value].entries)
    requires var old' := s.nodes[s.requests[r].value].entries;
             forall k :: k != key ==> (k in entries <==> k in old') && (k in old' ==> entries[k] == old'[k])
    ensures var s' := Write(s, r, key, entries);
            && Inv(s') && Abs(s') == SpecUpdate(Abs(s), r, change)
  {
    WriteKeepsInv(s, r, key, entries);
    var n := s.requests[r].value;
    var id := s.nodes[n].sessionId;
    KnownNodes(s);
    assert RequestOk(s, r);
    if id != "" { assert CachedOk(s, id); }
    forall q | q in s.requests && s.requests[q] == Some(n) ensures q == r || id != "" { HolderIn(s, q, n); }
    hide Inv, Holders, CachedOk, RequestOk, DirtyOk, Abs, Write;
    if id == "" {
      WriteDraftAbs(s, r, key, entries, change);
    } else {
      WriteSharedAbs(s, r, key, entries, change);
    }
  }

  lemma WriteDraftAbs(s: State, r: RequestId, key: string, entries: Entries, change: Entries -> Entries)
    requires Known(s) && Bound(s, r) && s.nodes[s.requests[r].value].sessionId == ""
    requires entries == change(s.nodes[s.requests[r].value].entries)
    requires forall q :: q in s.requests && s.requests[q] == s.requests[r] ==> q == r
    ensures Abs(Write(s, r, key, entries)) == SpecUpdate(Abs(s), r, change)
  {
    var s' := Write(s, r, key, entries);
    forall i | i in s.store ensures EntriesOf(s', i) == EntriesOf(s, i) {}
    forall q | q in s.requests && q != r ensures HandleOf(s', q) == HandleOf(s, q) {}
    assert HandleOf(s', r) == Draft(entries);
    assert HandleOf(s, r) == Draft(s.nodes[s.requests[r].value].entries);
    assert s'.store == s.store && s'.requests == s.requests;
    hide EntriesOf, HandleOf, Write;
    AbsByPoints(s', SpecUpdate(Abs(s), r, change));
  }

  lemma WriteSharedAbs(s: State, r: RequestId, key: string, entries: Entries, change: Entries -> Entries)
    requires Known(s) && Bound(s, r)
    requires var id := s.nodes[s.requests[r].value].sessionId;
             id != "" && id in s.store && id in s.cache && s.cache[id] == s.requests[r].value
    requires entries == change(s.nodes[s.requests[r].value].entries)
    ensures Abs(Write(s, r, key, entries)) == SpecUpdate(Abs(s), r, change)
  {
    var s' := Write(s, r, key, entries);
    var id := s.nodes[s.requests[r].value].sessionId;
    forall i | i in s.store && i != id ensures EntriesOf(s', i) == EntriesOf(s, i) {}
    forall q | q in s.requests ensures HandleOf(s', q) == HandleOf(s, q) {}
    assert EntriesOf(s', id) == entries;
    assert EntriesOf(s, id) == s.nodes[s.requests[r].value].entries;
    assert HandleOf(s, r) == Session(id);
    assert s'.store == s.store && s'.requests == s.requests;
    hide EntriesOf, HandleOf, Write;
    AbsByPoints(s', SpecUpdate(Abs(s), r, change));
  }

  /** Giving a request its node first makes no difference to an update. */
  lemma DraftFirst(a: Spec, r: RequestId, change: Entries -> Entries)
    requires r in a.handles && a.handles[r].Unbound?
    ensures SpecUpdate(a.(handles := a.handles[r := Draft(map[])]), r, change) == SpecUpdate(a, r, change)
  {
    assert a.handles[r := Draft(map[])][r := Draft(change(map[]))] == a.handles[r := Draft(change(map[]))];
  }

  lemma CheckedWriteRefines(s: State, r: RequestId, key: string, entries: Entries, change: Entries -> Entries)
    requires Inv(s) && r in s.requests && Bound(CheckNode(s, r), r)
    requires var s1 := CheckNode(s, r);
             entries == change(s1.nodes[s1.requests[r].value].entries)
    requires var s1 := CheckNode(s, r);
             var old' := s1.nodes[s1.requests[r].value].entries;
             forall k :: k != key ==> (k in entries <==> k in old') && (k in old' ==> entries[k] == old'[k])
    ensures var s' := Write(CheckNode(s, r), r, key, entries);
            Inv(s') && Abs(s') == SpecUpdate(Abs(s), r, change)
  {
    CheckNodeRefines(s, r);
    var s1 := CheckNode(s, r);
    assert s.requests[r].None? ==> Abs(s).handles[r].Unbound?;
    hide Inv, Write, Abs, CheckNode, SpecUpdate;
    if s.requests[r].None? { DraftFirst(Abs(s), r, change); }
    WriteRefines(s1, r, key, entries, change);
  }

  lemma SetRefines(s: State, r: RequestId, key: string, v: Value)
    requires Inv(s) && r in s.requests
    ensures s.requests[r].Some? ==> Bound(s, r)
    ensures var s' := Set(s, r, key, v);
            Inv(s') && Abs(s') == SpecUpdate(Abs(s), r, (e: Entries) => e[key := v])
  {
    assert RequestOk(s, r);
    hide RequestOk, Abs, SpecUpdate;
    CheckNodeRefines(s, r);
    hide Inv, Write, CheckNode;
    var s1 := CheckNode(s, r);
    CheckedWriteRefines(s, r, key, s1.nodes[s1.requests[r].value].entries[key := v], (e: Entries) => e[key := v]);
  }

  lemma ApplyRefines(s: State, r: RequestId, key: string, default': Value, f: Value -> Value)
    requires Inv(s) && r in s.requests
    ensures s.requests[r].Some? ==> Bound(s, r)
    ensures var s' := Apply(s, r, key, default', f);
            Inv(s') && Abs(s') == SpecUpdate(Abs(s), r, (e: Entries) => e[key := f(Get(e, key, default'))])
  {
    assert RequestOk(s, r);
    hide RequestOk, Abs, SpecUpdate, Get;
    CheckNodeRefines(s, r);
    hide Inv, Write, CheckNode;
    var s1 := CheckNode(s, r);
    var e1 := s1.nodes[s1.requests[r].value].entries;
    CheckedWriteRefines(s, r, key, e1[key := f(Get(e1, key, default'))],
                        (e: Entries) => e[key := f(Get(e, key, default'))]);
  }

  lemma RemoveRefines(s: State, r: RequestId, key: string)
    requires Inv(s) && r in s.requests
    ensures s.requests[r].Some? ==> Bound(s, r)
    ensures var s' := Remove(s, r, key);
            Inv(s') && Abs(s') == SpecRemove(Abs(s), r, key)
  {
    assert RequestOk(s, r);
    if s.requests[r].Some? {
      WriteRefines(s, r, key, s.nodes[s.requests[r].value].entries - {key}, (e: Entries) => e - {key});
    }
  }

  lemma RefreshKeepsInv(s: State, r: RequestId)
    requires Inv(s) && Bound(s, r)
    ensures Inv(Refresh(s, r))
  {
    var s' := Refresh(s, r);
    assert forall m :: Holders(s', m) == Holders(s, m);
    hide Holders;
    forall i | i in s'.cache ensures CachedOk(s', i) { assert CachedOk(s, i); }
    forall m | m in s'.nodes ensures DirtyOk(s', m) { assert DirtyOk(s, m); }
    hide CachedOk, DirtyOk;
    forall q | q in s'.requests ensures RequestOk(s', q) { assert RequestOk(s, q); }
  }

  lemma RefreshRefines(s: State, r: RequestId)
    requires Inv(s) && r in s.requests
    ensures s.requests[r].Some? ==> Bound(s, r)
    ensures Inv(Refresh(s, r)) && Abs(Refresh(s, r)) == Abs(s)
  {
    assert RequestOk(s, r);
    if s.requests[r].Some? {
      RefreshKeepsInv(s, r);
      hide Inv, RequestOk;
      AbsByPoints(Refresh(s, r), Abs(s));
    }
  }

  // After

  /** An id that no session has. */
  predicate FreshId(s: State, id: string) { id != "" && id !in s.store }

  lemma AfterKeepsInv(s: State, r: RequestId, newId: string)
    requires Inv(s) && r in s.requests && FreshId(s, newId)
    ensures s.requests[r].Some? ==> Bound(s, r)
    ensures Inv(After(s, r, newId))
  {
    assert RequestOk(s, r);
    var s' := After(s, r, newId);
    HoldersDrop(s, s', r);
    if s.requests[r].None? {
      hide Holders;
      forall i | i in s'.cache ensures CachedOk(s', i) { assert CachedOk(s, i); }
      forall q | q in s'.requests ensures RequestOk(s', q) { assert RequestOk(s, q); }
      forall m | m in s'.nodes ensures DirtyOk(s', m) { assert DirtyOk(s, m); }
    } else {
      var n := s.requests[r].value;
      HolderIn(s, r, n);
      if s.nodes[n].sessionId == "" {
        LastKeepsInv(s, s', r, newId);
      } else {
        assert CachedOk(s, s.nodes[n].sessionId);
        if s.nodes[n].referrers > 1 {
          StayKeepsInv(s, s', r, newId);
        } else {
          SingleHolder(s, r, n);
          LastKeepsInv(s, s', r, newId);
        }
      }
    }
  }

  /** Others still hold the session. */
  lemma StayKeepsInv(s: State, s': State, r: RequestId, newId: string)
    requires Inv(s) && Bound(s, r) && s' == After(s, r, newId)
    requires s.nodes[s.requests[r].value].sessionId != "" && s.nodes[s.requests[r].value].referrers > 1
    requires |Holders(s', s.requests[r].value)| == |Holders(s, s.requests[r].value)| - 1
    requires forall m :: m != s.requests[r].value ==> Holders(s', m) == Holders(s, m)
    ensures Inv(s')
  {
    hide Holders;
    var n := s.requests[r].value;
    assert RequestOk(s, r) && CachedOk(s, s.nodes[n].sessionId);
    forall i | i in s'.cache ensures CachedOk(s', i) { assert CachedOk(s, i); }
    forall q | q in s'.requests ensures RequestOk(s', q) { assert RequestOk(s, q); }
    forall m | m in s'.nodes ensures DirtyOk(s', m) { assert DirtyOk(s, m); }
  }

  /** The last holder moves the entries into the store. */
  lemma LastKeepsInv(s: State, s': State, r: RequestId, newId: string)
    requires Inv(s) && Bound(s, r) && s' == After(s, r, newId) && FreshId(s, newId)
    requires s.nodes[s.requests[r].value].referrers <= 1 && Holders(s, s.requests[r].value) == {r}
    requires forall m :: m != s.requests[r].value ==> Holders(s', m) == Holders(s, m)
    ensures Inv(s')
  {
    var n := s.requests[r].value;
    assert RequestOk(s, r);
    forall q | q in s'.requests ensures s.requests[q] != Some(n) {
      if s.requests[q] == Some(n) { HolderIn(s, q, n); }
    }
    if s.nodes[n].sessionId != "" { assert CachedOk(s, s.nodes[n].sessionId); }
    forall i | i in s'.cache ensures CachedOk(s', i) { LastCached(s, s', r, newId, i); }
    forall m | m in s'.nodes ensures DirtyOk(s', m) { assert DirtyOk(s, m); }
    forall q | q in s'.requests ensures RequestOk(s', q) { LastRequest(s, s', r, newId, q); }
    hide DirtyOk, CachedOk, RequestOk, Holders;
    forall m | m in s'.nodes ensures m < s'.next && m in s'.loaded && s'.nodes[m].requestedId == "" {}
  }

  lemma LastCached(s: State, s': State, r: RequestId, newId: string, i: string)
    requires Inv(s) && Bound(s, r) && s' == After(s, r, newId) && i in s'.cache
    requires s.nodes[s.requests[r].value].referrers <= 1
    requires s.nodes[s.requests[r].value].sessionId != "" ==> CachedOk(s, s.nodes[s.requests[r].value].sessionId)
    requires forall m :: m != s.requests[r].value ==> Holders(s', m) == Holders(s, m)
    ensures CachedOk(s', i)
  {
    assert CachedOk(s, i);
    hide Inv, Holders;
  }

  lemma LastRequest(s: State, s': State, r: RequestId, newId: string, q: RequestId)
    requires Inv(s) && Bound(s, r) && s' == After(s, r, newId) && q in s'.requests && s.requests[q] != s.requests[r]
    requires s.nodes[s.requests[r].value].referrers <= 1
    requires s.nodes[s.requests[r].value].sessionId != "" ==> CachedOk(s, s.nodes[s.requests[r].value].sessionId)
    requires forall m :: m != s.requests[r].value ==> Holders(s', m) == Holders(s, m)
    ensures RequestOk(s', q)
  {
    assert RequestOk(s, q);
    hide Inv, Holders;
  }

  lemma AfterRefines(s: State, r: RequestId, newId: string)
    requires Inv(s) && r in s.requests && FreshId(s, newId)
    ensures s.requests[r].Some? ==> Bound(s, r)
    ensures var s' := After(s, r, newId);
            Inv(s') && Abs(s') == SpecAfter(Abs(s), r, newId)
  {
    AfterKeepsInv(s, r, newId);
    KnownNodes(s);
    assert RequestOk(s, r);
    if s.requests[r].Some? {
      var n := s.requests[r].value;
      if s.nodes[n].sessionId != "" { assert CachedOk(s, s.nodes[n].sessionId); }
      forall q | q in s.requests && s.requests[q] == Some(n) && q != r
        ensures s.nodes[n].sessionId != "" && s.nodes[n].referrers > 1
      {
        HolderIn(s, q, n);
        HolderIn(s, r, n);
        if s.nodes[n].referrers <= 1 { SingleHolder(s, r, n); }
      }
    }
    forall id | id in s.cache ensures id != newId { assert CachedOk(s, id); }
    hide Inv, Holders, CachedOk, RequestOk, DirtyOk, Abs, After;
    if s.requests[r].Some? && s.nodes[s.requests[r].value].sessionId == "" {
      SaveNewAbs(s, r, newId);
    } else {
      LetGoAbs(s, r, newId);
    }
  }

  /** The last and only holder of a session without an id. */
  lemma SaveNewAbs(s: State, r: RequestId, newId: string)
    requires Known(s) && Bound(s, r) && FreshId(s, newId) && newId !in s.cache
    requires s.nodes[s.requests[r].value].sessionId == "" && s.nodes[s.requests[r].value].referrers <= 1
    requires s.nodes[s.requests[r].value].requestedId == ""
    requires forall q :: q in s.requests && s.requests[q] == s.requests[r] ==> q == r
    ensures Abs(After(s, r, newId)) == SpecAfter(Abs(s), r, newId)
  {
    var s' := After(s, r, newId);
    var e := s.nodes[s.requests[r].value].entries;
    forall i | i in s.store ensures EntriesOf(s', i) == EntriesOf(s, i) {}
    forall q | q in s'.requests ensures HandleOf(s', q) == HandleOf(s, q) {}
    assert HandleOf(s, r) == Draft(e);
    assert EntriesOf(s', newId) == e;
    hide EntriesOf, HandleOf;
    assert s'.store.Keys == s.store.Keys + {newId} && s'.requests == s.requests - {r};
    hide After;
    AbsByPoints(s', SpecAfter(Abs(s), r, newId));
  }

  lemma LetGoAbs(s: State, r: RequestId, newId: string)
    requires Known(s) && r in s.requests
    requires s.requests[r].Some? ==>
               var id := s.nodes[s.requests[r].value].sessionId;
               id != "" && id in s.store && id in s.cache && s.cache[id] == s.requests[r].value
    requires forall q :: q in s.requests && q != r && s.requests[q].Some? && s.requests[q] == s.requests[r] ==>
               s.nodes[s.requests[r].value].referrers > 1
    ensures Abs(After(s, r, newId)) == SpecAfter(Abs(s), r, newId)
  {
    var s' := After(s, r, newId);
    assert s'.store.Keys == s.store.Keys && s'.requests == s.requests - {r};
    forall i | i in s.store ensures EntriesOf(s', i) == EntriesOf(s, i) {}
    forall q | q in s'.requests ensures HandleOf(s', q) == HandleOf(s, q) {}
    assert !HandleOf(s, r).Draft?;
    hide EntriesOf, HandleOf, After;
    AbsByPoints(s', SpecAfter(Abs(s), r, newId));
  }

  // ---- Runs ----

  /** One atomic step of one request. */
  datatype Event =
    | BeforeHandle(r: RequestId, cookie: string, leftover: Entries)
    | TakeMutex(r: RequestId)
    | SetEntry(r: RequestId, key: string, v: Value)
    | ApplyEntry(r: RequestId, key: string, default': Value, f: Value -> Value)
    | RemoveEntry(r: RequestId, key: string)
    | RefreshExpiration(r: RequestId)
    | AfterHandle(r: RequestId, newId: string)

  /** A request starts once and then only acts until it ends; a new id is one that no session has. */
  predicate Enabled(s: State, e: Event) {
    match e
    case BeforeHandle(r, _, _) => r !in s.requests
    case AfterHandle(r, newId) => r in s.requests && FreshId(s, newId)
    case _ => e.r in s.requests
  }

  ghost predicate Proper(s: State) {
    s.cache.Values <= s.nodes.Keys && forall r :: r in s.requests && s.requests[r].Some? ==> Bound(s, r)
  }

  lemma InvIsProper(s: State)
    requires Inv(s)
    ensures Proper(s)
  {
    InvGivesValues(s);
    forall r | r in s.requests && s.requests[r].Some? ensures Bound(s, r) { assert RequestOk(s, r); }
  }

  ghost function Next(s: State, e: Event): State
    requires Proper(s) && Enabled(s, e)
  {
    match e
    case BeforeHandle(r, cookie, leftover) => Before(s, r, cookie, leftover)
    case TakeMutex(r) => CheckNode(s, r)
    case SetEntry(r, key, v) => Set(s, r, key, v)
    case ApplyEntry(r, key, d, f) => Apply(s, r, key, d, f)
    case RemoveEntry(r, key) => Remove(s, r, key)
    case RefreshExpiration(r) => Refresh(s, r)
    case AfterHandle(r, newId) => After(s, r, newId)
  }

  function SpecNext(a: Spec, e: Event): Spec
    requires e.BeforeHandle? || e.r in a.handles
  {
    match e
    case BeforeHandle(r, cookie, _) => SpecBefore(a, r, cookie)
    case TakeMutex(r) => SpecMutex(a, r)
    case SetEntry(r, key, v) => SpecUpdate(a, r, (m: Entries) => m[key := v])
    case ApplyEntry(r, key, d, f) => SpecUpdate(a, r, (m: Entries) => m[key := f(Get(m, key, d))])
    case RemoveEntry(r, key) => SpecRemove(a, r, key)
    case RefreshExpiration(r) => a
    case AfterHandle(r, newId) => SpecAfter(a, r, newId)
  }

  lemma NextRefines(s: State, e: Event)
    requires Inv(s) && Enabled(s, e)
    ensures Proper(s) && Inv(Next(s, e))
    ensures Abs(s).handles.Keys == s.requests.Keys
    ensures Abs(Next(s, e)) == SpecNext(Abs(s), e)
  {
    InvIsProper(s);
    hide Inv, Abs, Before, CheckNode, Set, Apply, Remove, Refresh, After;
    hide SpecBefore, SpecMutex, SpecUpdate, SpecRemove, SpecAfter;
    match e
    case BeforeHandle(r, cookie, leftover) => BeforeRefines(s, r, cookie, leftover);
    case TakeMutex(r) => MutexRefines(s, r);
    case SetEntry(r, key, v) => SetRefines(s, r, key, v);
    case ApplyEntry(r, key, d, f) => ApplyRefines(s, r, key, d, f);
    case RemoveEntry(r, key) => RemoveRefines(s, r, key);
    case RefreshExpiration(r) => RefreshRefines(s, r);
    case AfterHandle(r, newId) => AfterRefines(s, r, newId);
  }

  /** A run: every event is enabled when its turn comes. */
  ghost predicate IsRun(s: State, events: seq<Event>, s': State)
    decreases |events|
  {
    if events == [] then s == s'
    else Proper(s) && Enabled(s, events[0]) && IsRun(Next(s, events[0]), events[1..], s')
  }

  ghost predicate IsSpecRun(a: Spec, events: seq<Event>, a': Spec)
    decreases |events|
  {
    if events == [] then a == a'
    else
      && (events[0].BeforeHandle? || events[0].r in a.handles)
      && IsSpecRun(SpecNext(a, events[0]), events[1..], a')
  }

  lemma InitialInv()
    ensures Inv(INITIAL) && Abs(INITIAL) == Spec(map[], map[])
  {
    AbsByPoints(INITIAL, Spec(map[], map[]));
  }

  /** Under every interleaving the cache and the store together behave as one map of entries per session. */
  lemma {:induction false} RunRefines(s: State, events: seq<Event>, s': State)
    requires Inv(s) && IsRun(s, events, s')
    ensures Inv(s') && IsSpecRun(Abs(s), events, Abs(s'))
    decreases |events|
  {
    hide Inv, Abs, Next, SpecNext, Proper;
    if events != [] {
      assert Enabled(s, events[0]);
      NextRefines(s, events[0]);
      RunRefines(Next(s, events[0]), events[1..], s');
    }
  }

  /** A cached node is held by exactly as many requests as it counts, and by at least one; so with no request in
      flight the cache is empty, and then the store alone holds every session. */
  lemma QuietMeansStored(s: State)
    requires Inv(s)
    ensures forall id :: id in s.cache ==>
              && s.cache[id] in s.nodes
              && s.nodes[s.cache[id]].referrers == |Holders(s, s.cache[id])| > 0
    ensures s.requests == map[] ==> s.cache == map[] && Abs(s).sessions == s.store
  {
    forall id | id in s.cache
      ensures Holders(s, s.cache[id]) != {} && CachedOk(s, id)
    {
      assert CachedOk(s, id);
      assert |Holders(s, s.cache[id])| > 0;
    }
    if s.requests == map[] {
      assert forall n :: Holders(s, n) == {};
      assert s.cache.Keys == {};
      assert s.cache == map[];
      AbsByPoints(s, Spec(s.store, map[]));
    }
  }

  /** The entries that a request sees, as the specification has them. */
  function Seen(a: Spec, r: RequestId): Entries
    requires r in a.handles
  {
    match a.handles[r]
    case Unbound => map[]
    case Draft(e) => e
    case Session(id) => if id in a.sessions then a.sessions[id] else map[]
  }

  /** A request reads from its node exactly the entries of its session in the specification. */
  lemma ReadsSeeTheSession(s: State, r: RequestId)
    requires Inv(s) && r in s.requests && s.requests[r].Some?
    ensures Bound(s, r) && s.nodes[s.requests[r].value].entries == Seen(Abs(s), r)
  {
    assert RequestOk(s, r);
    var id := s.nodes[s.requests[r].value].sessionId;
    if id != "" { assert CachedOk(s, id); }
  }

  /** A session that had no id sends its new id back exactly once, when its only request ends. */
  lemma NewSessionsGetACookie(s: State, r: RequestId, newId: string)
    requires Inv(s) && r in s.requests && FreshId(s, newId)
    ensures s.requests[r].Some? ==> Bound(s, r)
    ensures Abs(s).handles[r].Draft? ==>
              && Cookie(s, r, newId) == Some(newId)
              && newId !in Abs(s).sessions
              && newId in Abs(After(s, r, newId)).sessions
              && Abs(After(s, r, newId)).sessions[newId] == Seen(Abs(s), r)
    ensures Abs(s).handles[r].Unbound? ==> Cookie(s, r, newId) == None
  {
    AfterRefines(s, r, newId);
    assert RequestOk(s, r);
    hide Inv, RequestOk, After, Holders;
  }

  /** Two requests that hold the same session read each other's writes. */
  lemma SharedSessionIsShared(s: State, r: RequestId, q: RequestId, key: string, v: Value)
    requires Inv(s) && r in s.requests && q in s.requests && Bound(s, r) && Bound(s, q)
    requires s.nodes[s.requests[r].value].sessionId == s.nodes[s.requests[q].value].sessionId != ""
    ensures var s' := Set(s, r, key, v);
            Bound(s', q) && key in s'.nodes[s'.requests[q].value].entries
            && s'.nodes[s'.requests[q].value].entries[key] == v
  {
    assert RequestOk(s, r) && RequestOk(s, q);
  }
}
