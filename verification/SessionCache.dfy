/**
 The session middleware and its in-memory store as objects.  Cached sessions are shared by reference between the cache
 and the contexts of the requests in flight; every method is proved to do one step of SessionModel.
 */
module SessionCache {
  import opened Wrappers
  import opened SessionModel

  class CachedSession {
    ghost const id: NodeId
    var sessionId: string
    var requestedId: string
    var entries: Entries
    var dirty: set<string>
    var requestedRefresh: bool
    var referrers: int

    constructor (ghost id: NodeId)
      ensures this.id == id && View() == NEW_NODE
    {
      this.id := id;
      sessionId, requestedId, entries, dirty, requestedRefresh, referrers := "", "", map[], {}, false, 0;
    }

    ghost function View(): Node
      reads this
    {
      Node(sessionId, requestedId, entries, dirty, requestedRefresh, referrers)
    }
  }

  class InMemoryStore {
    var entries: map<string, Entries>

    constructor ()
      ensures entries == map[]
    {
      entries := map[];
    }

    /** Moves the entries of a session out of the store; leftover is what the move leaves behind. */
    method Load(cn: CachedSession, leftover: Entries)
      modifies this, cn`entries
      ensures cn.entries == if cn.sessionId in old(entries) then old(entries)[cn.sessionId] else map[]
      ensures entries == old(entries)[cn.sessionId := leftover]
    {
      cn.entries := if cn.sessionId in entries then entries[cn.sessionId] else map[];
      entries := entries[cn.sessionId := leftover];
    }

    /** Moves the entries of a session into the store. */
    method Save(cn: CachedSession, leftover: Entries)
      modifies this, cn`entries
      ensures entries == old(entries)[cn.sessionId := old(cn.entries)]
    {
      entries := entries[cn.sessionId := cn.entries];
      cn.entries := leftover;
    }

    predicate Contains(key: string)
      reads this
    {
      key in entries
    }
  }

  /** What one request knows of its session. */
  class Context {
    ghost const request: RequestId
    ghost const session: SessionMiddleware
    var node: CachedSession?

    constructor (ghost request: RequestId, ghost session: SessionMiddleware)
      ensures this.request == request && this.session == session && node == null
    {
      this.request, this.session, node := request, session, null;
    }

    ghost predicate Valid()
      reads this, session, session.contexts.Values
    {
      session.Valid() && request in session.contexts && session.contexts[request] == this
    }

    method Get(key: string, fallback: Value) returns (v: Value)
      requires Valid()
      ensures v == if node == null then fallback else SessionModel.Get(node.entries, key, fallback)
      ensures Inv(session.Snapshot()) ==> v == SessionModel.Get(Seen(Abs(session.Snapshot()), request), key, fallback)
    {
      v := fallback;
      if node != null {
        if key in node.entries {
          match (node.entries[key], fallback) {
            case (BoolValue(_), BoolValue(_)) => v := node.entries[key];
            case (IntValue(_), IntValue(_)) => v := node.entries[key];
            case (DoubleValue(_), DoubleValue(_)) => v := node.entries[key];
            case (StringValue(_), StringValue(_)) => v := node.entries[key];
            case _ =>
          }
        }
        if Inv(session.Snapshot()) { ReadsSeeTheSession(session.Snapshot(), request); }
      }
    }

    method Contains(key: string) returns (found: bool)
      requires Valid()
      ensures Inv(session.Snapshot()) ==> (found <==> key in Seen(Abs(session.Snapshot()), request))
    {
      found := false;
      if node != null {
        found := key in node.entries;
        if Inv(session.Snapshot()) { ReadsSeeTheSession(session.Snapshot(), request); }
      }
    }

    /** The keys that the session has, each once. */
    method Keys() returns (out: seq<string>)
      requires Valid()
      ensures Inv(session.Snapshot()) ==> multiset(out) == multiset(Seen(Abs(session.Snapshot()), request).Keys)
    {
      out := [];
      if node != null {
        var left := node.entries.Keys;
        while left != {}
          invariant left <= node.entries.Keys && multiset(out) + multiset(left) == multiset(node.entries.Keys)
        {
          hide *;
          var key :| key in left;
          out := out + [key];
          left := left - {key};
        }
        if Inv(session.Snapshot()) { ReadsSeeTheSession(session.Snapshot(), request); }
      }
    }

    /** The mutex is that of the node, so asking for it makes one. */
    method Mutex() returns (owner: CachedSession)
      requires Valid()
      modifies this, session
      ensures Valid() && owner == node && session.Snapshot() == SessionModel.CheckNode(old(session.Snapshot()), request)
    {
      CheckNode();
      owner := node;
    }

    method CheckNode()
      requires Valid()
      modifies this, session
      ensures Valid() && node != null && session.Snapshot() == SessionModel.CheckNode(old(session.Snapshot()), request)
      ensures if old(node) != null then node == old(node) else fresh(node)
      ensures session.contexts == old(session.contexts)
    {
      if node == null {
        hide Views, Held;
        var created := new CachedSession(session.next);
        session.Register(created);
        Bind(created);
      }
    }

    method Bind(created: CachedSession)
      requires Valid() && IsAlive(session.nodes, created)
      modifies `node
      ensures Valid() && node == created
      ensures Held(session.contexts) == old(Held(session.contexts))[request := Some(created.id)]
      ensures Views(session.nodes) == old(Views(session.nodes))
    {
      node := created;
      HeldAfter(old(Held(session.contexts)), session.contexts, this);
    }

    /** Marks a key as changed and stores new entries. */
    method Put(key: string, entries: Entries)
      requires Valid() && node != null
      modifies node
      ensures Valid() && session.Snapshot() == SessionModel.Write(old(session.Snapshot()), request, key, entries)
    {
      node.dirty := node.dirty + {key};
      node.entries := entries;
      assert session.Snapshot().nodes == SessionModel.Write(old(session.Snapshot()), request, key, entries).nodes;
    }

    method Set(key: string, v: Value)
      requires Valid()
      modifies this, session, session.Shared()
      ensures Valid() && session.Snapshot() == SessionModel.Set(old(session.Snapshot()), request, key, v)
    {
      CheckNode();
      Put(key, node.entries[key := v]);
    }

    method Apply(key: string, default': Value, f: Value -> Value)
      requires Valid()
      modifies this, session, session.Shared()
      ensures Valid() && session.Snapshot() == SessionModel.Apply(old(session.Snapshot()), request, key, default', f)
    {
      hide Inv, Abs, Seen;
      CheckNode();
      var v := Get(key, default');
      Put(key, node.entries[key := f(v)]);
    }

    method Remove(key: string)
      requires Valid()
      modifies session.Shared()
      ensures Valid() && session.Snapshot() == SessionModel.Remove(old(session.Snapshot()), request, key)
    {
      if node != null {
        Put(key, node.entries - {key});
      }
    }

    method RefreshExpiration()
      requires Valid()
      modifies session.Shared()
      ensures Valid() && session.Snapshot() == SessionModel.Refresh(old(session.Snapshot()), request)
    {
      if node != null {
        node.requestedRefresh := true;
        assert session.Snapshot().nodes == SessionModel.Refresh(old(session.Snapshot()), request).nodes;
      }
    }
  }

  // ---- What the shared objects hold ----

  ghost predicate IsAlive(nodes: map<NodeId, CachedSession>, node: CachedSession) {
    node.id in nodes && nodes[node.id] == node
  }

  ghost function Views(nodes: map<NodeId, CachedSession>): map<NodeId, Node>
    reads nodes.Values
  {
    map n | n in nodes :: nodes[n].View()
  }

  ghost function Ids(cache: map<string, CachedSession>): map<string, NodeId> {
    map k | k in cache :: cache[k].id
  }

  ghost function Held(contexts: map<RequestId, Context>): map<RequestId, Option<NodeId>>
    reads contexts.Values
  {
    map r | r in contexts :: HeldBy(contexts[r])
  }

  ghost function HeldBy(ctx: Context): Option<NodeId>
    reads ctx
  {
    if ctx.node == null then None else Some(ctx.node.id)
  }

  lemma ViewsOf(nodes: map<NodeId, CachedSession>)
    ensures Views(nodes).Keys == nodes.Keys && forall n :: n in nodes ==> Views(nodes)[n] == nodes[n].View()
  {
  }

  /** One node is gone. */
  lemma ViewsWithout(before: map<NodeId, Node>, nodes: map<NodeId, CachedSession>, id: NodeId)
    requires nodes.Keys == before.Keys - {id} && forall n :: n in nodes ==> nodes[n].View() == before[n]
    ensures Views(nodes) == before - {id}
  {
  }

  /** One node is new or has changed. */
  lemma ViewsAfter(before: map<NodeId, Node>, nodes: map<NodeId, CachedSession>, node: CachedSession)
    requires nodes.Keys == before.Keys + {node.id} && nodes[node.id] == node
    requires forall n :: n in before && n != node.id ==> nodes[n].View() == before[n]
    ensures Views(nodes) == before[node.id := node.View()]
  {
  }

  /** One request has begun or has changed. */
  lemma HeldAfter(before: map<RequestId, Option<NodeId>>, contexts: map<RequestId, Context>, ctx: Context)
    requires contexts.Keys == before.Keys + {ctx.request} && contexts[ctx.request] == ctx
    requires forall r :: r in before && r != ctx.request ==> HeldBy(contexts[r]) == before[r]
    ensures Held(contexts) == before[ctx.request := HeldBy(ctx)]
  {
  }

  class SessionMiddleware {
    var cache: map<string, CachedSession>
    const store: InMemoryStore
    // For the proofs: the nodes that are alive, the requests in flight, and what each node was made with.
    ghost var nodes: map<NodeId, CachedSession>
    ghost var contexts: map<RequestId, Context>
    ghost var next: NodeId
    ghost var loaded: map<NodeId, Entries>

    ghost function Shared(): set<object>
      reads this
    {
      nodes.Values + contexts.Values
    }

    ghost predicate Valid()
      reads this, contexts.Values
    {
      && (forall n :: n in nodes ==> nodes[n].id == n && n < next)
      && (forall k :: k in cache ==> IsAlive(nodes, cache[k]))
      && (forall r :: r in contexts ==>
            contexts[r].request == r && contexts[r].session == this
            && (contexts[r].node != null ==> IsAlive(nodes, contexts[r].node)))
    }

    ghost function Snapshot(): State
      reads this, store, Shared()
    {
      State(Views(nodes), Ids(cache), store.entries, Held(contexts), next, loaded)
    }

    constructor ()
      ensures Valid() && Snapshot() == INITIAL && fresh(store)
    {
      cache := map[];
      store := new InMemoryStore();
      nodes, contexts, next, loaded := map[], map[], 0, map[];
    }

    /** A new node counts as alive. */
    ghost method Register(node: CachedSession)
      requires Valid() && node.id == next
      modifies `nodes, `next, `loaded
      ensures Valid() && nodes == old(nodes)[old(next) := node] && next == old(next) + 1
      ensures loaded == old(loaded)[old(next) := node.entries]
      ensures Views(nodes) == old(Views(nodes))[old(next) := node.View()]
      ensures Held(contexts) == old(Held(contexts))
    {
      hide Views, Held;
      next := next + 1;
      loaded := loaded[node.id := node.entries];
      Insert(node);
    }

    ghost method Insert(node: CachedSession)
      requires Valid() && node.id !in nodes && node.id < next
      modifies `nodes
      ensures Valid() && nodes == old(nodes)[node.id := node]
      ensures Views(nodes) == old(Views(nodes))[node.id := node.View()]
    {
      ghost var before := Views(nodes);
      ViewsOf(nodes);
      hide Views, Held;
      nodes := nodes[node.id := node];
      ViewsAfter(before, nodes, node);
    }

    /** One more request in flight. */
    ghost method Join(ctx: Context)
      requires Valid() && ctx.session == this && ctx.request !in contexts
      requires ctx.node != null ==> IsAlive(nodes, ctx.node)
      modifies `contexts
      ensures Valid() && ctx.Valid() && contexts == old(contexts)[ctx.request := ctx]
      ensures Held(contexts) == old(Held(contexts))[ctx.request := HeldBy(ctx)]
      ensures Views(nodes) == old(Views(nodes))
    {
      contexts := contexts[ctx.request := ctx];
      HeldAfter(old(Held(contexts)), contexts, ctx);
    }

    method Enter(ctx: Context, node: CachedSession)
      requires Valid() && ctx.session == this && ctx.request !in contexts && IsAlive(nodes, node)
      modifies `contexts, ctx`node
      ensures Valid() && ctx.Valid()
      ensures Held(contexts) == old(Held(contexts))[ctx.request := Some(node.id)]
      ensures Views(nodes) == old(Views(nodes))
    {
      ctx.node := node;
      Join(ctx);
    }

    /** Counts a request more or less that holds a node. */
    method Count(node: CachedSession, change: int)
      requires Valid() && IsAlive(nodes, node)
      modifies node`referrers
      ensures Valid() && node.referrers == old(node.referrers) + change
      ensures Views(nodes) == old(Views(nodes))[node.id := old(node.View()).(referrers := node.referrers)]
    {
      node.referrers := node.referrers + change;
      ViewsAfter(old(Views(nodes)), nodes, node);
    }

    method LoadNode(cookie: string, leftover: Entries) returns (node: CachedSession)
      requires cookie in store.entries
      modifies store
      ensures fresh(node) && node.id == next
      ensures node.View() == NEW_NODE.(sessionId := cookie, referrers := 1, entries := old(store.entries)[cookie])
      ensures store.entries == old(store.entries)[cookie := leftover]
    {
      node := new CachedSession(next);
      node.sessionId := cookie;
      node.referrers := 1;
      store.Load(node, leftover);
    }

    /** Moves a session from the store into a new node. */
    method LoadSession(ctx: Context, cookie: string, leftover: Entries)
      requires Valid() && ctx.session == this && ctx.request !in contexts && ctx.node == null
      requires cookie in store.entries
      modifies this, ctx`node, store
      ensures Valid() && ctx.Valid()
      ensures var n := old(next);
              var loadedEntries := old(store.entries)[cookie];
              && next == n + 1 && loaded == old(loaded)[n := loadedEntries]
              && Views(nodes) == old(Views(nodes))[n := NEW_NODE.(sessionId := cookie, referrers := 1,
                                                                 entries := loadedEntries)]
              && Ids(cache) == old(Ids(cache))[cookie := n]
              && store.entries == old(store.entries)[cookie := leftover]
              && Held(contexts) == old(Held(contexts))[ctx.request := Some(n)]
    {
      hide Views, Ids, Held;
      var node := LoadNode(cookie, leftover);
      Register(node);
      Enter(ctx, node);
      AddToCache(cookie, node);
    }

    method AddToCache(cookie: string, node: CachedSession)
      requires Valid() && IsAlive(nodes, node)
      modifies `cache
      ensures Valid() && Ids(cache) == old(Ids(cache))[cookie := node.id]
    {
      cache := cache[cookie := node];
    }

    lemma CacheIsKnown()
      requires Valid()
      ensures Ids(cache).Values <= Views(nodes).Keys
    {
    }

    /** Shares the cached node of a session with one more request. */
    method PickUp(ctx: Context, cookie: string, node: CachedSession)
      requires Valid() && ctx.session == this && ctx.request !in contexts && ctx.node == null
      requires cookie in cache && cache[cookie] == node
      modifies `contexts, ctx`node, node`referrers
      ensures Valid() && ctx.Valid() && nodes == old(nodes)
      ensures var n := Ids(cache)[cookie];
              && n in nodes
              && Views(nodes) == old(Views(nodes))[n := old(Views(nodes))[n].(
                                   referrers := old(Views(nodes))[n].referrers + 1)]
              && Held(contexts) == old(Held(contexts))[ctx.request := Some(n)]
    {
      assert Ids(cache)[cookie] == node.id && Views(nodes)[node.id] == node.View();
      hide Views, Held, Ids;
      Count(node, 1);
      Enter(ctx, node);
    }

    /** The session of the cookie is in use by another request: its node is shared. */
    method ShareSession(ctx: Context, cookie: string, ghost leftover: Entries)
      requires Valid() && ctx.session == this && ctx.request !in contexts && ctx.node == null
      requires cookie != "" && cookie in cache
      modifies this, ctx, Shared()
      ensures old(Snapshot()).cache.Values <= old(Snapshot()).nodes.Keys
      ensures Valid() && ctx.Valid()
      ensures Snapshot() == SessionModel.Before(old(Snapshot()), ctx.request, cookie, leftover)
    {
      CacheIsKnown();
      assert cache[cookie] in Shared();
      hide Shared, Views, Held;
      PickUp(ctx, cookie, cache[cookie]);
    }

    method BeforeHandle(ctx: Context, cookie: string, leftover: Entries)
      requires Valid() && ctx.session == this && ctx.request !in contexts && ctx.node == null
      modifies this, store, ctx, Shared()
      ensures old(Snapshot()).cache.Values <= old(Snapshot()).nodes.Keys
      ensures Valid() && ctx.Valid()
      ensures Snapshot() == SessionModel.Before(old(Snapshot()), ctx.request, cookie, leftover)
    {
      CacheIsKnown();
      hide Shared, Views, Held;
      if cookie != "" && cookie in cache {
        ShareSession(ctx, cookie, leftover);
      } else if cookie != "" && store.Contains(cookie) {
        LoadSession(ctx, cookie, leftover);
      } else {
        Join(ctx);
      }
    }

    /** One request less. */
    ghost method Leave(ctx: Context)
      requires Valid() && ctx.Valid() && ctx.session == this
      modifies `contexts
      ensures Valid() && contexts == old(contexts) - {ctx.request}
      ensures Held(contexts) == old(Held(contexts)) - {ctx.request} && Views(nodes) == old(Views(nodes))
    {
      contexts := contexts - {ctx.request};
    }

    /** A node that counts at most one request is held by nobody else. */
    lemma NobodyElse(ctx: Context)
      requires Valid() && ctx.Valid() && ctx.session == this && Inv(Snapshot())
      requires ctx.node != null && ctx.node.referrers <= 1
      ensures forall r :: r in contexts && r != ctx.request ==> contexts[r].node != ctx.node
      ensures forall k :: k in cache && cache[k] == ctx.node ==> k == ctx.node.sessionId != ""
    {
      var s := Snapshot();
      LastHolder(s, ctx.request);
      hide Inv;
      forall r | r in contexts && r != ctx.request ensures contexts[r].node != ctx.node {
        assert s.requests[r] != s.requests[ctx.request];
      }
      forall k | k in cache && cache[k] == ctx.node ensures k == ctx.node.sessionId != "" {
        assert s.cache[k] == ctx.node.id;
      }
    }

    /** The cookie to send back, if one is due. */
    method AfterHandle(ctx: Context, newId: string, leftover: Entries) returns (sent: Option<string>)
      requires Valid() && ctx.Valid() && ctx.session == this && Inv(Snapshot())
      modifies this, store, Shared()
      ensures Valid() && Snapshot() == SessionModel.After(old(Snapshot()), ctx.request, newId)
      ensures sent == SessionModel.Cookie(old(Snapshot()), ctx.request, newId)
    {
      hide Inv, SavedId;
      assert Held(contexts)[ctx.request] == HeldBy(ctx);
      if ctx.node == null {
        hide Views, Held, Ids;
        Leave(ctx);
        return None;
      }
      sent := LetGoOf(ctx, ctx.node, newId, leftover);
    }

    method LetGoOf(ctx: Context, node: CachedSession, newId: string, leftover: Entries) returns (sent: Option<string>)
      requires Valid() && ctx.Valid() && ctx.session == this && Inv(Snapshot()) && ctx.node == node
      modifies this, store, node
      ensures node.id in old(Snapshot()).nodes && old(Snapshot()).requests[ctx.request] == Some(node.id)
      ensures Valid() && Snapshot() == SessionModel.After(old(Snapshot()), ctx.request, newId)
      ensures sent == SessionModel.Cookie(old(Snapshot()), ctx.request, newId)
    {
      hide Inv;
      if node.referrers <= 1 { NobodyElse(ctx); }
      assert Views(nodes)[node.id] == node.View();
      assert Held(contexts)[ctx.request] == HeldBy(ctx);
      hide Views, Held, Ids, SavedId;
      Leave(ctx);
      sent := LetGo(node, newId, leftover);
    }

    /** One request less holds a node; without any it is saved. */
    method LetGo(node: CachedSession, newId: string, leftover: Entries) returns (sent: Option<string>)
      requires Valid() && IsAlive(nodes, node)
      requires node.referrers <= 1 ==> forall r :: r in contexts ==> contexts[r].node != node
      requires node.referrers <= 1 ==> forall k :: k in cache && cache[k] == node ==> k == node.sessionId != ""
      modifies this, store, node
      ensures Valid() && contexts == old(contexts) && next == old(next) && loaded == old(loaded)
      ensures Held(contexts) == old(Held(contexts))
      ensures old(node.referrers) > 1 ==>
                && Views(nodes) == old(Views(nodes))[node.id := old(node.View()).(referrers := old(node.referrers) - 1)]
                && Ids(cache) == old(Ids(cache)) && store.entries == old(store.entries) && sent == None
      ensures old(node.referrers) <= 1 ==>
                var id := SavedId(old(node.View()), newId);
                && Views(nodes) == old(Views(nodes)) - {node.id}
                && Ids(cache) == (if old(node.sessionId) == "" then old(Ids(cache))
                                  else old(Ids(cache)) - {old(node.sessionId)})
                && store.entries == old(store.entries)[id := old(node.entries)]
                && sent == if old(node.requestedRefresh) || old(node.sessionId) == "" then Some(id) else None
    {
      hide Views, Ids;
      Count(node, -1);
      sent := None;
      if node.referrers <= 0 {
        sent := SaveNode(node, newId, leftover);
      }
    }

    /** A node that nobody refers to is freed. */
    ghost method Free(node: CachedSession)
      requires Valid() && IsAlive(nodes, node)
      requires forall r :: r in contexts ==> contexts[r].node != node
      requires forall k :: k in cache ==> cache[k] != node
      modifies `nodes
      ensures Valid() && nodes == old(nodes) - {node.id}
    {
      forall r | r in contexts && contexts[r].node != null ensures contexts[r].node.id != node.id {
        assert nodes[contexts[r].node.id] == contexts[r].node;
      }
      nodes := nodes - {node.id};
    }

    /** The session has its id, and is no longer cached. */
    method Uncache(node: CachedSession, newId: string)
      requires Valid() && IsAlive(nodes, node)
      requires forall k :: k in cache && cache[k] == node ==> k == node.sessionId != ""
      modifies `cache, node`sessionId, node`requestedId
      ensures Valid() && forall k :: k in cache ==> cache[k] != node
      ensures Ids(cache) == if old(node.sessionId) == "" then old(Ids(cache))
                            else old(Ids(cache)) - {old(node.sessionId)}
      ensures node.sessionId == SavedId(old(node.View()), newId)
    {
      if node.sessionId == "" {
        node.sessionId := node.requestedId;
        node.requestedId := "";
        if node.sessionId == "" {
          node.sessionId := newId;
        }
      } else {
        cache := cache - {node.sessionId};
      }
    }

    /** Moves a session that nobody holds any more into the store. */
    method SaveNode(node: CachedSession, newId: string, leftover: Entries) returns (sent: Option<string>)
      requires Valid() && IsAlive(nodes, node)
      requires forall r :: r in contexts ==> contexts[r].node != node
      requires forall k :: k in cache && cache[k] == node ==> k == node.sessionId != ""
      modifies this, store, node
      ensures Valid() && contexts == old(contexts) && next == old(next) && loaded == old(loaded)
      ensures var id := SavedId(old(node.View()), newId);
              && Views(nodes) == old(Views(nodes)) - {node.id}
              && Ids(cache) == (if old(node.sessionId) == "" then old(Ids(cache))
                               else old(Ids(cache)) - {old(node.sessionId)})
              && store.entries == old(store.entries)[id := old(node.entries)]
              && sent == if old(node.requestedRefresh) || old(node.sessionId) == "" then Some(id) else None
    {
      ghost var before := Views(nodes);
      ViewsOf(nodes);
      hide Views, Ids, Held;
      node.requestedRefresh := node.requestedRefresh || node.sessionId == "";
      Uncache(node, newId);
      sent := if node.requestedRefresh then Some(node.sessionId) else None;
      store.Save(node, leftover);
      Free(node);
      ViewsWithout(before, nodes, node.id);
    }
  }
}
