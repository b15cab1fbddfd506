/**
 The router's tree object: rules are added from their URL patterns, the tree is optimized once, and URLs are looked
 up.  Whatever was added, in whatever order, a lookup answers what trying every added rule in turn would answer.
 */
module Router {
  import opened Wrappers
  import opened RouteRules
  import opened RouteTrie

  // ---- Reading a rule's URL pattern ----

  type ParamTable = seq<(ParamType, string)>

  const PARAM_TRAITS: ParamTable := [
    (INT, "<int>"), (UINT, "<uint>"), (DOUBLE, "<float>"), (DOUBLE, "<double>"),
    (STRING, "<str>"), (STRING, "<string>"), (PATH, "<path>")]

  predicate ProperTable(table: ParamTable) {
    forall k :: 0 <= k < |table| ==> table[k].0 != MAX && table[k].1 != ""
  }

  /** The first tag of the table, from entry k on, that stands in the URL at i. */
  function TagAt(table: ParamTable, url: string, i: nat, k: nat): (t: Option<(ParamType, string)>)
    requires ProperTable(table)
    ensures t.Some? ==> t.value.0 != MAX && t.value.1 != "" && HasAt(url, i, t.value.1) && t.value in table
    decreases |table| - k
  {
    if k >= |table| then None
    else if HasAt(url, i, table[k].1) then Some(table[k])
    else TagAt(table, url, i, k + 1)
  }

  /** The URL pattern of a rule, checked when the rule is declared: every '<' opens a known tag. */
  predicate WellFormed(table: ParamTable, url: string, i: nat)
    requires i <= |url| && ProperTable(table)
    decreases |url| - i
  {
    if i == |url| then true
    else if url[i] == '<' then
      match TagAt(table, url, i, 0)
      case Some(t) => WellFormed(table, url, i + |t.1|)
      case None => false
    else url[i] != '\0' && WellFormed(table, url, i + 1)
  }

  function Tokens(table: ParamTable, url: string, i: nat): Pattern
    requires i <= |url| && ProperTable(table) && WellFormed(table, url, i)
    decreases |url| - i
  {
    if i == |url| then []
    else if url[i] == '<' then
      var t := TagAt(table, url, i, 0).value;
      [Par(t.0)] + Tokens(table, url, i + |t.1|)
    else [Lit(url[i])] + Tokens(table, url, i + 1)
  }

  lemma TokensUnfold(table: ParamTable, url: string, i: nat, before: Pattern, tag: Option<(ParamType, string)>)
    requires ProperTable(table) && i < |url| && WellFormed(table, url, i)
    requires tag == if url[i] == '<' then TagAt(table, url, i, 0) else None
    ensures url[i] == '<' ==> tag.Some?
    ensures url[i] != '<' ==> url[i] != '\0'
    ensures var i' := if tag.Some? then i + |tag.value.1| else i + 1;
            && i < i' <= |url| && WellFormed(table, url, i')
            && before + Tokens(table, url, i)
            == before + [if tag.Some? then Par(tag.value.0) else Lit(url[i])] + Tokens(table, url, i')
  {
    var i' := if tag.Some? then i + |tag.value.1| else i + 1;
    var token := if tag.Some? then Par(tag.value.0) else Lit(url[i]);
    assert Tokens(table, url, i) == [token] + Tokens(table, url, i');
  }

  // ---- The tree object ----

  class Trie {
    var head: Node
    /** The rules added so far, oldest first. */
    ghost var added: seq<Rule>

    ghost predicate Valid()
      reads this
    {
      && Labelled(head)
      && head.key == "" && head.param == MAX
      && (forall r :: r in added ==> r.index != 0)
      && (forall r :: r in Paths(head) <==> r in added)
    }

    constructor ()
      ensures Valid() && Fresh(head) && added == []
    {
      head := EMPTY_NODE;
      added := [];
    }

    /** The child of the node at idx that continues with a parameter of the given type, if there is one. */
    method FindParamChild(idx: Cursor, kind: ParamType) returns (k: nat)
      requires ValidCursor(head, idx) && Fresh(head) && kind != MAX
      ensures k <= |At(head, idx).children|
      ensures k < |At(head, idx).children| ==> Label(At(head, idx).children[k]) == [Par(kind)]
      ensures k == |At(head, idx).children| ==>
                forall j :: 0 <= j < k ==> Label(At(head, idx).children[j]) != [Par(kind)]
    {
      k := 0;
      var children := At(head, idx).children;
      FreshAt(head, idx);
      while k < |children| && children[k].param != kind
        invariant k <= |children|
        invariant forall j :: 0 <= j < k ==> Label(children[j]) != [Par(kind)]
      {
        assert Label(children[k])[0] != Par(kind);
        k := k + 1;
      }
    }

    /** The child whose key starts with the character; reading the first character of an empty key gives NUL. */
    method FindLiteralChild(idx: Cursor, c: char) returns (k: nat)
      requires ValidCursor(head, idx) && Fresh(head) && c != '\0'
      ensures k <= |At(head, idx).children|
      ensures k < |At(head, idx).children| ==> Label(At(head, idx).children[k]) == [Lit(c)]
      ensures k == |At(head, idx).children| ==>
                forall j :: 0 <= j < k ==> Label(At(head, idx).children[j]) != [Lit(c)]
    {
      k := 0;
      var children := At(head, idx).children;
      FreshAt(head, idx);
      while k < |children| && (if children[k].key == "" then '\0' else children[k].key[0]) != c
        invariant k <= |children|
        invariant forall j :: 0 <= j < k ==> Label(children[j]) != [Lit(c)]
      {
        assert Label(children[k])[0] != Lit(c);
        k := k + 1;
      }
    }

    /** Appends a new child to the node at idx and moves the cursor onto it. */
    method AddChildNode(idx: Cursor, leaf: Node) returns (idx': Cursor)
      requires Valid() && Fresh(head) && ValidCursor(head, idx)
      requires NewLeaf(At(head, idx), leaf)
      modifies this`head
      ensures Valid() && Fresh(head) && ValidCursor(head, idx')
      ensures Paths(head) == old(Paths(head))
      ensures At(head, idx') == leaf
      ensures Spelled(head, idx') == old(Spelled(head, idx)) + Label(leaf)
    {
      AddLeafKeepsRules(head, idx, leaf);
      var node := At(head, idx);
      idx' := idx + [|node.children|];
      head := Put(head, idx, node.(children := node.children + [leaf]));
      CursorStep(head, idx, |node.children|);
      FreshIsLabelled(head);
    }

    /** Moves the cursor to the child for a parameter, appending it if there is none. */
    method StepParam(idx: Cursor, kind: ParamType) returns (idx': Cursor)
      requires Valid() && Fresh(head) && ValidCursor(head, idx) && kind != MAX
      modifies this`head
      ensures Valid() && Fresh(head) && ValidCursor(head, idx')
      ensures Paths(head) == old(Paths(head))
      ensures Spelled(head, idx') == old(Spelled(head, idx)) + [Par(kind)]
      ensures (head == old(head) && old(At(head, idx).children) != []) || At(head, idx') == EMPTY_NODE.(param := kind)
    {
      var k := FindParamChild(idx, kind);
      if k < |At(head, idx).children| {
        CursorStep(head, idx, k);
        idx' := idx + [k];
      } else {
        idx' := AddChildNode(idx, EMPTY_NODE.(param := kind));
      }
    }

    /** Moves the cursor to the child for a character, appending the given leaf if there is none. */
    method StepLiteral(idx: Cursor, c: char, leaf: Node) returns (idx': Cursor)
      requires Valid() && Fresh(head) && ValidCursor(head, idx) && c != '\0'
      requires leaf.ruleIndex == 0 && leaf.children == [] && leaf.param == MAX && leaf.key == [c]
      modifies this`head
      ensures Valid() && Fresh(head) && ValidCursor(head, idx')
      ensures Paths(head) == old(Paths(head))
      ensures Spelled(head, idx') == old(Spelled(head, idx)) + [Lit(c)]
      ensures (head == old(head) && old(At(head, idx).children) != []) || At(head, idx') == leaf
    {
      assert Label(leaf) == [Lit(c)];
      var k := FindLiteralChild(idx, c);
      if k < |At(head, idx).children| {
        CursorStep(head, idx, k);
        idx' := idx + [k];
      } else {
        idx' := AddChildNode(idx, leaf);
      }
    }

    /** Reads the tag at i by going through the table. */
    method ReadTag(table: ParamTable, url: string, i: nat) returns (tag: (ParamType, string))
      requires ProperTable(table) && i < |url| && url[i] == '<' && WellFormed(table, url, i)
      ensures Some(tag) == TagAt(table, url, i, 0)
    {
      var t := 0;
      while !HasAt(url, i, table[t].1)
        invariant 0 <= t < |table|
        invariant TagAt(table, url, i, t) == TagAt(table, url, i, 0)
        decreases |table| - t
      {
        assert TagAt(table, url, i, t) == TagAt(table, url, i, t + 1);
        t := t + 1;
      }
      tag := table[t];
    }

    /** Consumes one character or one tag of the URL pattern and moves the cursor accordingly.  A literal node
        that has to be created gets the given blueprint index. */
    method AddToken(table: ParamTable, idx: Cursor, url: string, i: nat, blueprintIndex: uint16)
      returns (idx': Cursor, i': nat)
      requires ProperTable(table) && Valid() && Fresh(head) && ValidCursor(head, idx)
      requires i < |url| && WellFormed(table, url, i)
      modifies this`head
      ensures Valid() && Fresh(head) && ValidCursor(head, idx')
      ensures Paths(head) == old(Paths(head))
      ensures i < i' <= |url| && WellFormed(table, url, i')
      ensures Spelled(head, idx') + Tokens(table, url, i') == old(Spelled(head, idx)) + Tokens(table, url, i)
      ensures (head == old(head) && old(At(head, idx).children) != [])
           || (At(head, idx').ruleIndex == 0 && At(head, idx').children == [])
    {
      var c := url[i];
      ghost var spelled := Spelled(head, idx);
      if c == '<' {
        var tag := ReadTag(table, url, i);
        TokensUnfold(table, url, i, spelled, Some(tag));
        idx' := StepParam(idx, tag.0);
        i' := i + |tag.1|;
      } else {
        TokensUnfold(table, url, i, spelled, None);
        idx' := StepLiteral(idx, c, EMPTY_NODE.(key := [c], blueprintIndex := blueprintIndex));
        i' := i + 1;
      }
    }

    /** Adds a rule.  It is refused, and nothing changes, exactly when a rule with the same pattern is there. */
    method Add(url: string, ruleIndex: uint16, bpPrefixLength: nat, blueprintIndex: uint16) returns (ok: bool)
      requires Valid() && Fresh(head)
      requires WellFormed(PARAM_TRAITS, url, 0)
      modifies this
      ensures Valid() && Fresh(head)
      ensures ok <==> forall r :: r in old(added) ==> r.pattern != Tokens(PARAM_TRAITS, url, 0)
      ensures added == if ok && ruleIndex != 0 then old(added) + [Rule(Tokens(PARAM_TRAITS, url, 0), ruleIndex)]
                       else old(added)
      ensures !ok ==> head == old(head)
    {
      var idx: Cursor := [];
      var hasBlueprint := bpPrefixLength != 0 && blueprintIndex != INVALID_BP_ID;
      var i := 0;
      while i < |url|
        invariant i <= |url| && WellFormed(PARAM_TRAITS, url, i)
        invariant Valid() && Fresh(head) && added == old(added) && Paths(head) == old(Paths(head))
        invariant ValidCursor(head, idx)
        invariant Spelled(head, idx) + Tokens(PARAM_TRAITS, url, i) == Tokens(PARAM_TRAITS, url, 0)
        invariant head == old(head) || (At(head, idx).ruleIndex == 0 && At(head, idx).children == [])
      {
        idx, i := AddToken(PARAM_TRAITS, idx, url, i,
                           if hasBlueprint && i == bpPrefixLength then blueprintIndex else INVALID_BP_ID);
      }
      assert Spelled(head, idx) == Tokens(PARAM_TRAITS, url, 0);
      ok := StoreRule(idx, ruleIndex);
    }

    /** Stores the rule at the cursor unless one is stored there already. */
    method StoreRule(idx: Cursor, ruleIndex: uint16) returns (ok: bool)
      requires Valid() && Fresh(head) && ValidCursor(head, idx)
      modifies this
      ensures Valid() && Fresh(head)
      ensures ok == old(At(head, idx).ruleIndex == 0)
      ensures ok <==> forall r :: r in old(added) ==> r.pattern != old(Spelled(head, idx))
      ensures added == if ok && ruleIndex != 0 then old(added) + [Rule(old(Spelled(head, idx)), ruleIndex)]
                       else old(added)
      ensures !ok ==> head == old(head)
    {
      ghost var pattern := Spelled(head, idx);
      ok := At(head, idx).ruleIndex == 0;
      RuleAtCursor(head, idx, At(head, idx).ruleIndex);
      forall r | r in added && r.pattern == pattern
        ensures !ok
      {
        RuleAtCursor(head, idx, r.index);
      }
      if ok {
        SetRuleAddsRule(head, idx, ruleIndex);
        head := Put(head, idx, At(head, idx).(ruleIndex := ruleIndex));
        FreshIsLabelled(head);
        if ruleIndex != 0 {
          added := added + [Rule(pattern, ruleIndex)];
        }
      }
    }

    /** Path compression of every subtree of the root keeps all rules. */
    method Optimize()
      requires Valid()
      modifies this`head
      ensures Valid() && Paths(head) == old(Paths(head))
      ensures forall k :: 0 <= k < |head.children| ==> Compressed(head.children[k])
      ensures old(SiblingsDiffer(head)) ==> SiblingsDiffer(head)
      ensures |head.children| == |old(head).children|
    {
      var i := 0;
      while i < |head.children|
        invariant 0 <= i <= |head.children| == |old(head).children|
        invariant head.(children := old(head).children) == old(head)
        invariant Branches(head.children) == old(Branches(head.children))
        invariant Labelled(head)
        invariant old(SiblingsDiffer(head)) ==> SiblingsDiffer(head)
        invariant forall k :: 0 <= k < i ==> Compressed(head.children[k])
      {
        var child := OptimizeNode(head.children[i]);
        ReplaceChild(head, i, child);
        head := head.(children := head.children[i := child]);
        i := i + 1;
      }
    }

    /** Refuses, without touching the tree, a root that is not simple; optimizes otherwise. */
    method Validate() returns (ok: bool)
      requires Valid()
      modifies this`head
      ensures Valid() && Paths(head) == old(Paths(head))
      ensures ok == old(IsSimple(head))
      ensures !ok ==> head == old(head)
    {
      ok := IsSimple(head);
      if ok {
        Optimize();
      }
    }

    /** The recursive lookup below one node, with the captures so far in params. */
    method FindFrom(sc: Scanners, url: string, node: Node, pos: nat, params: RoutingParams) returns (ret: Found)
      requires WellBehaved(sc) && Labelled(node) && pos <= |url|
      modifies params
      ensures params.Value() == old(params.Value())
      ensures ret.index == ScanAll(sc, Paths(node), url, pos, params.Value()).index
      ensures ret.index != 0 ==> ret == ScanAll(sc, Paths(node), url, pos, params.Value())
      ensures ret.index == 0 ==> ret == if pos < |url| then NOTHING else Found(0, params.Value())
      decreases node, 0
    {
      ghost var caps := params.Value();
      ScanNode(sc, node, url, pos, caps);
      if pos == |url| {
        return Found(node.ruleIndex, params.Value());
      }
      ret := NOTHING;
      var i := 0;
      assert node.children[..0] == [];
      assert ret == ScanAll(sc, Branches(node.children[..0]), url, pos, caps);
      hide Branches, Paths, ScanAll, Advance, WellBehaved;
      while i < |node.children|
        invariant 0 <= i <= |node.children|
        invariant params.Value() == caps
        invariant ret == ScanAll(sc, Branches(node.children[..i]), url, pos, caps)
      {
        var child := node.children[i];
        ScanOneMoreChild(sc, node.children, i, url, pos, caps);
        var below := FindChild(sc, url, child, pos, params);
        ret := Better(ret, below);
        i := i + 1;
      }
      assert node.children[..i] == node.children;
    }

    /** Tries one child: its parameter or its key must fit at pos; a capture is pushed for the time of the call. */
    method FindChild(sc: Scanners, url: string, child: Node, pos: nat, params: RoutingParams) returns (below: Found)
      requires WellBehaved(sc) && Labelled(child) && pos < |url|
      modifies params
      ensures params.Value() == old(params.Value())
      ensures match Advance(sc, child, url, pos, params.Value())
              case None => below == NOTHING
              case Some(a) =>
                && a.0 <= |url|
                && below.index == ScanAll(sc, Paths(child), url, a.0, a.1).index
                && (below.index != 0 ==> below == ScanAll(sc, Paths(child), url, a.0, a.1))
      decreases child, 1
    {
      hide Paths, ScanAll, Push, WellBehaved, Scan, Labelled;
      ghost var caps := params.Value();
      below := NOTHING;
      AdvanceStaysInside(sc, child, url, pos, caps);
      if child.param != MAX {
        var hit := Scan(sc, child.param, url, pos);
        if hit.Some? {
          params.PushBack(hit.value.1);
          below := FindFrom(sc, url, child, hit.value.0, params);
          params.PopBack(hit.value.1, caps);
        }
      } else if HasAt(url, pos, child.key) {
        below := FindFrom(sc, url, child, pos + |child.key|, params);
      }
    }

    /** A lookup answers what trying every added rule in the order of addition answers. */
    method Find(sc: Scanners, url: string) returns (ret: Found)
      requires Valid() && WellBehaved(sc)
      ensures ret.index == ScanAll(sc, added, url, 0, NO_CAPTURES).index
      ensures Unshared(added, ret.index) ==> ret == ScanAll(sc, added, url, 0, NO_CAPTURES)
      ensures IsSmallestMatch(sc, added, url, ret)
      ensures ret == ScanAll(sc, Paths(head), url, 0, NO_CAPTURES)
    {
      var params := new RoutingParams();
      ret := FindFrom(sc, url, head, 0, params);
      if |url| == 0 {
        ScanNode(sc, head, url, 0, NO_CAPTURES);
      }
      SameRulesSameAnswer(sc, Paths(head), added, url);
      ScanAllIsSmallestMatch(sc, Paths(head), url);
      if ret.index != 0 {
        var r :| && r in Paths(head) && r.index == ret.index
                 && Match(sc, r.pattern, url, 0, NO_CAPTURES) == Some(ret.captures);
        assert r in added;
      }
    }
  }

  // ---- A whole run: rules are added, the tree is optimized, a URL is looked up ----

  /** Declared rules: a well-formed URL pattern and an index each; 0 is no index. */
  predicate Declared(rules: seq<(string, uint16)>) {
    forall k :: 0 <= k < |rules| ==> WellFormed(PARAM_TRAITS, rules[k].0, 0) && rules[k].1 != 0
  }

  function RulesOf(rules: seq<(string, uint16)>): seq<Rule>
    requires Declared(rules)
  {
    if rules == [] then []
    else
      var n := |rules| - 1;
      RulesOf(rules[..n]) + [Rule(Tokens(PARAM_TRAITS, rules[n].0, 0), rules[n].1)]
  }

  lemma {:induction false} RuleIsOneOf(rules: seq<(string, uint16)>, r: Rule)
    requires Declared(rules) && r in RulesOf(rules)
    ensures exists k :: 0 <= k < |rules| && r == Rule(Tokens(PARAM_TRAITS, rules[k].0, 0), rules[k].1)
  {
    var n := |rules| - 1;
    if r != Rule(Tokens(PARAM_TRAITS, rules[n].0, 0), rules[n].1) {
      RuleIsOneOf(rules[..n], r);
      var k :| 0 <= k < n && r == Rule(Tokens(PARAM_TRAITS, rules[..n][k].0, 0), rules[..n][k].1);
      assert rules[..n][k] == rules[k];
    }
  }

  /** With distinct patterns every rule is accepted, and the optimized tree answers every URL as the list of rules
      does when it is searched for the smallest matching index. */
  method AddOptimizeFind(rules: seq<(string, uint16)>, sc: Scanners, url: string) returns (ret: Found)
    requires Declared(rules) && WellBehaved(sc)
    requires forall j, k :: 0 <= j < k < |rules| ==>
               Tokens(PARAM_TRAITS, rules[j].0, 0) != Tokens(PARAM_TRAITS, rules[k].0, 0)
    ensures IsSmallestMatch(sc, RulesOf(rules), url, ret)
    ensures ret.index == ScanAll(sc, RulesOf(rules), url, 0, NO_CAPTURES).index
    ensures Unshared(RulesOf(rules), ret.index) ==> ret == ScanAll(sc, RulesOf(rules), url, 0, NO_CAPTURES)
  {
    hide WellBehaved, WellFormed, Tokens, ScanAll, IsSmallestMatch, Fresh, Unshared;
    var trie := new Trie();
    var i := 0;
    while i < |rules|
      invariant i <= |rules| && fresh(trie) && trie.Valid() && Fresh(trie.head)
      invariant trie.added == RulesOf(rules[..i])
    {
      forall r | r in trie.added ensures r.pattern != Tokens(PARAM_TRAITS, rules[i].0, 0) {
        RuleIsOneOf(rules[..i], r);
      }
      assert rules[..i + 1][..i] == rules[..i];
      var ok := trie.Add(rules[i].0, rules[i].1, 0, INVALID_BP_ID);
      assert ok;
      i := i + 1;
    }
    assert rules[..i] == rules;
    trie.Optimize();
    ret := trie.Find(sc, url);
  }
}
