/**
 The router's search tree.  Routes are added one character or one parameter at a time, chains of literal nodes are
 then merged in place, and a URL is looked up by backtracking over the children with one shared capture stack.
 The tree denotes a list of rules (Paths); adding, merging and looking up are all stated on that list.
 */
module RouteTrie {
  import opened Wrappers
  import opened RouteRules

  type uint16 = n: nat | n < 0x1_0000

  const INVALID_BP_ID: uint16 := 0xFFFF

  /** Nodes own their children by value, so a tree is a value. */
  datatype Node = Node(ruleIndex: uint16, blueprintIndex: uint16, key: string, param: ParamType, children: seq<Node>)

  const EMPTY_NODE := Node(0, INVALID_BP_ID, "", MAX, [])

  predicate IsSimple(n: Node) {
    && n.ruleIndex == 0
    && n.blueprintIndex == INVALID_BP_ID
    && |n.children| < 2
    && n.param == MAX
    && forall k :: 0 <= k < |n.children| ==> n.children[k].param == MAX
  }

  function Size(n: Node): nat { 1 + Sizes(n.children) }

  function Sizes(cs: seq<Node>): nat {
    if cs == [] then 0 else Size(cs[0]) + Sizes(cs[1..])
  }

  lemma {:induction false} SizeOfChild(cs: seq<Node>, k: nat)
    requires k < |cs|
    ensures Size(cs[k]) <= Sizes(cs)
  {
    if k > 0 { SizeOfChild(cs[1..], k - 1); }
  }

  // ---- What a tree denotes ----

  function Lits(s: string): Pattern { seq(|s|, i requires 0 <= i < |s| => Lit(s[i])) }

  function Label(n: Node): Pattern { if n.param != MAX then [Par(n.param)] else Lits(n.key) }

  function Prefixed(prefix: Pattern, rs: seq<Rule>): seq<Rule> {
    seq(|rs|, i requires 0 <= i < |rs| => Rule(prefix + rs[i].pattern, rs[i].index))
  }

  /** The rules below a node, in the order a depth-first walk meets them, spelled from the node on. */
  function Paths(n: Node): seq<Rule>
    decreases n, 0
  {
    (if n.ruleIndex != 0 then [Rule([], n.ruleIndex)] else []) + Branches(n.children)
  }

  function Branch(n: Node): seq<Rule>
    decreases n, 1
  {
    Prefixed(Label(n), Paths(n))
  }

  function Branches(cs: seq<Node>): seq<Rule>
    decreases cs, 2
  {
    if cs == [] then [] else Branch(cs[0]) + Branches(cs[1..])
  }

  lemma {:induction false} BranchesAppend(a: seq<Node>, b: seq<Node>)
    ensures Branches(a + b) == Branches(a) + Branches(b)
  {
    if a == [] {
      assert a + b == b;
    } else {
      assert (a + b)[1..] == a[1..] + b;
      BranchesAppend(a[1..], b);
    }
  }

  lemma BranchesAround(a: seq<Node>, c: Node, b: seq<Node>)
    ensures Branches(a + [c]) == Branches(a) + Branch(c)
    ensures Branches(a + [c] + b) == Branches(a) + Branch(c) + Branches(b)
  {
    BranchesAppend(a, [c]);
    BranchesOne(c);
    BranchesAppend(a + [c], b);
  }

  lemma SplitAround(cs: seq<Node>, k: nat)
    requires k < |cs|
    ensures cs[..k + 1] == cs[..k] + [cs[k]]
    ensures cs == cs[..k] + [cs[k]] + cs[k + 1..]
  {
  }

  lemma BranchesSplit(cs: seq<Node>, k: nat)
    requires k < |cs|
    ensures Branches(cs) == Branches(cs[..k]) + Branch(cs[k]) + Branches(cs[k + 1..])
    ensures Branches(cs[..k + 1]) == Branches(cs[..k]) + Branch(cs[k])
  {
    SplitAround(cs, k);
    BranchesAround(cs[..k], cs[k], cs[k + 1..]);
  }

  lemma BranchesOne(c: Node)
    ensures Branches([c]) == Branch(c)
  {
    assert [c][1..] == [];
    assert Branch(c) + [] == Branch(c);
  }

  /** Replacing one child changes only that child's stretch of the list. */
  lemma BranchesUpdate(cs: seq<Node>, k: nat, m: Node)
    requires k < |cs|
    ensures Branches(cs[k := m]) == Branches(cs[..k]) + Branch(m) + Branches(cs[k + 1..])
  {
    var ds := cs[k := m];
    BranchesSplit(ds, k);
    assert ds[..k] == cs[..k] && ds[k + 1..] == cs[k + 1..];
  }

  /** Every literal node below n has a key. */
  ghost predicate Labelled(n: Node) {
    forall k :: 0 <= k < |n.children| ==> Label(n.children[k]) != [] && Labelled(n.children[k])
  }

  // ---- Lookup ----

  /** The captures pushed and popped by reference while the tree is walked. */
  class RoutingParams {
    var ints: seq<int>
    var uints: seq<int>
    var doubles: seq<real>
    var strings: seq<string>

    constructor ()
      ensures Value() == NO_CAPTURES
    {
      ints, uints, doubles, strings := [], [], [], [];
    }

    function Value(): Captures
      reads this
    {
      Captures(ints, uints, doubles, strings)
    }

    method PushBack(v: Capture)
      modifies this
      ensures Value() == Push(old(Value()), v)
    {
      match v
      case IntValue(i) => ints := ints + [i];
      case UintValue(u) => uints := uints + [u];
      case DoubleValue(d) => doubles := doubles + [d];
      case StringValue(s) => strings := strings + [s];
    }

    method PopBack(v: Capture, ghost before: Captures)
      requires Value() == Push(before, v)
      modifies this
      ensures Value() == before
    {
      match v
      case IntValue(i) => ints := ints[..|ints| - 1];
      case UintValue(u) => uints := uints[..|uints| - 1];
      case DoubleValue(d) => doubles := doubles[..|doubles| - 1];
      case StringValue(s) => strings := strings[..|strings| - 1];
    }
  }

  predicate HasAt(url: string, pos: nat, fragment: string) {
    pos + |fragment| <= |url| && url[pos..pos + |fragment|] == fragment
  }

  lemma HasAtStep(url: string, pos: nat, key: string)
    requires key != ""
    ensures HasAt(url, pos, key) <==> pos < |url| && url[pos] == key[0] && HasAt(url, pos + 1, key[1..])
  {
    if pos + |key| <= |url| {
      var u := url[pos..pos + |key|];
      assert u == [url[pos]] + url[pos + 1..pos + |key|];
      assert u[1..] == url[pos + 1..pos + |key|];
      assert key == [key[0]] + key[1..];
    }
  }

  /** Comparing a whole key at once is comparing its characters one by one. */
  lemma {:induction false} MatchLits(sc: Scanners, key: string, pat: Pattern, url: string, pos: nat, caps: Captures)
    requires pos <= |url|
    requires WellBehaved(sc)
    ensures Match(sc, Lits(key) + pat, url, pos, caps)
         == if HasAt(url, pos, key) then Match(sc, pat, url, pos + |key|, caps) else None
    decreases |key|
  {
    if key == "" {
      assert Lits(key) + pat == pat;
    } else {
      var whole := Lits(key) + pat;
      assert whole != [] && whole[0] == Lit(key[0]);
      assert whole[1..] == Lits(key[1..]) + pat;
      HasAtStep(url, pos, key);
      if pos < |url| && url[pos] == key[0] {
        MatchLits(sc, key[1..], pat, url, pos + 1, caps);
      }
    }
  }

  /** How far a node's own label gets at pos, and with which captures. */
  function Advance(sc: Scanners, n: Node, url: string, pos: nat, caps: Captures): (r: Option<(nat, Captures)>)
    requires pos < |url|
  {
    if n.param != MAX then
      match Scan(sc, n.param, url, pos)
      case Some(hit) => Some((hit.0, Push(caps, hit.1)))
      case None => None
    else if HasAt(url, pos, n.key) then Some((pos + |n.key|, caps))
    else None
  }

  lemma AdvanceStaysInside(sc: Scanners, n: Node, url: string, pos: nat, caps: Captures)
    requires pos < |url| && WellBehaved(sc)
    ensures Advance(sc, n, url, pos, caps).Some? ==> Advance(sc, n, url, pos, caps).value.0 <= |url|
  {
  }

  lemma MatchLabel(sc: Scanners, n: Node, pat: Pattern, url: string, pos: nat, caps: Captures)
    requires pos < |url|
    requires WellBehaved(sc)
    ensures Advance(sc, n, url, pos, caps).Some? ==> Advance(sc, n, url, pos, caps).value.0 <= |url|
    ensures Match(sc, Label(n) + pat, url, pos, caps)
         == match Advance(sc, n, url, pos, caps)
            case Some(a) => Match(sc, pat, url, a.0, a.1)
            case None => None
  {
    if n.param == MAX {
      MatchLits(sc, n.key, pat, url, pos, caps);
    } else {
      assert (Label(n) + pat)[1..] == pat;
    }
  }

  lemma {:induction false} ScanPrefixed(sc: Scanners, n: Node, rs: seq<Rule>, url: string, pos: nat, caps: Captures)
    requires pos < |url|
    requires WellBehaved(sc)
    ensures Advance(sc, n, url, pos, caps).Some? ==> Advance(sc, n, url, pos, caps).value.0 <= |url|
    ensures ScanAll(sc, Prefixed(Label(n), rs), url, pos, caps)
         == match Advance(sc, n, url, pos, caps)
            case Some(a) => ScanAll(sc, rs, url, a.0, a.1)
            case None => NOTHING
    decreases |rs|
  {
    MatchLabel(sc, n, [], url, pos, caps);
    if rs != [] {
      assert Prefixed(Label(n), rs)[1..] == Prefixed(Label(n), rs[1..]);
      ScanPrefixed(sc, n, rs[1..], url, pos, caps);
      MatchLabel(sc, n, rs[0].pattern, url, pos, caps);
    }
  }

  /** At the end of the URL only the node's own rule is left. */
  lemma {:induction false} ScanAtEnd(sc: Scanners, rs: seq<Rule>, url: string, caps: Captures)
    requires WellBehaved(sc)
    requires forall r :: r in rs ==> r.pattern != []
    ensures ScanAll(sc, rs, url, |url|, caps) == NOTHING
  {
    if rs != [] {
      assert rs[0] in rs;
      ScanAtEnd(sc, rs[1..], url, caps);
    }
  }

  lemma {:induction false} BranchesNonEmpty(cs: seq<Node>)
    requires forall k :: 0 <= k < |cs| ==> Label(cs[k]) != []
    ensures forall r :: r in Branches(cs) ==> r.pattern != []
  {
    if cs != [] {
      forall r | r in Branches(cs)
        ensures r.pattern != []
      {
        BranchesNonEmpty(cs[1..]);
        if r in Branch(cs[0]) {
          var i :| 0 <= i < |Branch(cs[0])| && Branch(cs[0])[i] == r;
          assert r.pattern == Label(cs[0]) + Paths(cs[0])[i].pattern;
        }
      }
    }
  }

  lemma ScanNode(sc: Scanners, n: Node, url: string, pos: nat, caps: Captures)
    requires pos <= |url|
    requires WellBehaved(sc) && Labelled(n)
    ensures pos < |url| ==> ScanAll(sc, Paths(n), url, pos, caps) == ScanAll(sc, Branches(n.children), url, pos, caps)
    ensures pos == |url| ==>
              ScanAll(sc, Paths(n), url, pos, caps) == (if n.ruleIndex != 0 then Found(n.ruleIndex, caps) else NOTHING)
  {
    var own := if n.ruleIndex != 0 then [Rule([], n.ruleIndex)] else [];
    ScanAllAppend(sc, own, Branches(n.children), url, pos, caps);
    assert own != [] ==> own[1..] == [];
    if pos == |url| {
      BranchesNonEmpty(n.children);
      ScanAtEnd(sc, Branches(n.children), url, caps);
    }
  }

  /** What one more child contributes to the lookup below a node. */
  lemma ScanOneMoreChild(sc: Scanners, cs: seq<Node>, i: nat, url: string, pos: nat, caps: Captures)
    requires i < |cs| && pos < |url|
    requires WellBehaved(sc)
    ensures Advance(sc, cs[i], url, pos, caps).Some? ==> Advance(sc, cs[i], url, pos, caps).value.0 <= |url|
    ensures ScanAll(sc, Branches(cs[..i + 1]), url, pos, caps)
         == Better(ScanAll(sc, Branches(cs[..i]), url, pos, caps),
                   match Advance(sc, cs[i], url, pos, caps)
                   case Some(a) => ScanAll(sc, Paths(cs[i]), url, a.0, a.1)
                   case None => NOTHING)
  {
    BranchesSplit(cs, i);
    ScanAllAppend(sc, Branches(cs[..i]), Branch(cs[i]), url, pos, caps);
    ScanPrefixed(sc, cs[i], Paths(cs[i]), url, pos, caps);
  }

  // ---- Merging chains of literal nodes ----

  /** Siblings, at every level, differ in the first token of their labels. */
  ghost predicate SiblingsDiffer(n: Node) {
    && (forall k :: 0 <= k < |n.children| ==> Label(n.children[k]) != [] && SiblingsDiffer(n.children[k]))
    && (forall j, k :: 0 <= j < k < |n.children| ==> Label(n.children[j])[0] != Label(n.children[k])[0])
  }

  /** No node below n, and not n itself, could be merged with its only child. */
  ghost predicate Compressed(n: Node) {
    && (n.children != [] ==> !IsSimple(n))
    && forall k :: 0 <= k < |n.children| ==> Compressed(n.children[k])
  }

  function MergedWithChild(n: Node): Node
    requires |n.children| == 1
  {
    var child := n.children[0];
    Node(child.ruleIndex, child.blueprintIndex, n.key + child.key, n.param, child.children)
  }

  lemma MergeKeepsRules(n: Node)
    requires n.children != [] && IsSimple(n)
    ensures Branch(MergedWithChild(n)) == Branch(n)
    ensures Size(MergedWithChild(n)) < Size(n)
    ensures Labelled(n) ==> Labelled(MergedWithChild(n))
    ensures SiblingsDiffer(n) ==> SiblingsDiffer(MergedWithChild(n))
  {
    var child := n.children[0];
    assert n.children == [child];
    SizeOfChild(n.children, 0);
    assert Labelled(n) ==> Labelled(n.children[0]);
    assert SiblingsDiffer(n) ==> SiblingsDiffer(n.children[0]);
    BranchesOne(child);
    hide Labelled, SiblingsDiffer, Sizes, Branches;
    assert Paths(n) == [] + Branches(n.children) == Branch(child);
    assert Paths(MergedWithChild(n)) == Paths(child);
    PrefixedTwice(Lits(n.key), Lits(child.key), Paths(child));
    assert Lits(n.key + child.key) == Lits(n.key) + Lits(child.key);
  }

  lemma PrefixedTwice(a: Pattern, b: Pattern, rs: seq<Rule>)
    ensures Prefixed(a, Prefixed(b, rs)) == Prefixed(a + b, rs)
  {
    forall i | 0 <= i < |rs|
      ensures Prefixed(a, Prefixed(b, rs))[i] == Prefixed(a + b, rs)[i]
    {
      assert a + (b + rs[i].pattern) == a + b + rs[i].pattern;
    }
  }

  /** Replacing a child by an equivalent one with the same first token. */
  lemma ReplaceChild(n: Node, k: nat, m: Node)
    requires k < |n.children|
    requires Branch(m) == Branch(n.children[k]) && Size(m) <= Size(n.children[k])
    requires m.param == n.children[k].param && n.children[k].key <= m.key
    requires Labelled(n.children[k]) ==> Labelled(m)
    requires SiblingsDiffer(n.children[k]) ==> SiblingsDiffer(m)
    ensures var n' := n.(children := n.children[k := m]);
            && Branches(n'.children) == Branches(n.children)
            && Sizes(n'.children) <= Sizes(n.children)
            && IsSimple(n') == IsSimple(n)
            && (Labelled(n) ==> Labelled(n'))
            && (SiblingsDiffer(n) ==> SiblingsDiffer(n'))
  {
    BranchesSplit(n.children, k);
    BranchesUpdate(n.children, k, m);
    SizesUpdate(n.children, k, m);
    if Label(n.children[k]) != [] { SameFirstToken(n.children[k], m); }
    hide Branches, Branch, Paths, Sizes, Size, Label;
    ReplaceKeepsShape(n, k, m);
  }

  lemma ReplaceKeepsShape(n: Node, k: nat, m: Node)
    requires k < |n.children| && m.param == n.children[k].param
    requires Labelled(n.children[k]) ==> Labelled(m)
    requires SiblingsDiffer(n.children[k]) ==> SiblingsDiffer(m)
    requires Label(n.children[k]) != [] ==> Label(m) != [] && Label(m)[0] == Label(n.children[k])[0]
    ensures var n' := n.(children := n.children[k := m]);
            && IsSimple(n') == IsSimple(n)
            && (Labelled(n) ==> Labelled(n'))
            && (SiblingsDiffer(n) ==> SiblingsDiffer(n'))
  {
    hide Label;
    var ds := n.children[k := m];
    assert forall j :: 0 <= j < |ds| ==> ds[j].param == n.children[j].param;
    assert forall j :: 0 <= j < |ds| && j != k ==> ds[j] == n.children[j];
  }

  /** Path compression of one subtree keeps the rules it denotes, in the same order, and the first character by
      which its parent tells it from its siblings; nothing mergeable is left in it. */
  method OptimizeNode(node: Node) returns (r: Node)
    ensures Branch(r) == Branch(node)
    ensures Compressed(r)
    ensures Labelled(node) ==> Labelled(r)
    ensures SiblingsDiffer(node) ==> SiblingsDiffer(r)
    ensures r.param == node.param && node.key <= r.key
    ensures Size(r) <= Size(node)
    decreases Size(node)
  {
    if node.children == [] {
      return node;
    }
    if IsSimple(node) {
      MergeKeepsRules(node);
      r := OptimizeNode(MergedWithChild(node));
    } else {
      hide Branches, Branch, Paths, Label, Size, Sizes, Labelled, SiblingsDiffer, IsSimple;
      r := node;
      var i := 0;
      while i < |node.children|
        invariant 0 <= i <= |node.children| == |r.children|
        invariant r.(children := node.children) == node
        invariant r.children[i..] == node.children[i..]
        invariant Branches(r.children) == Branches(node.children)
        invariant Sizes(r.children) <= Sizes(node.children)
        invariant !IsSimple(r)
        invariant forall k :: 0 <= k < i ==> Compressed(r.children[k])
        invariant Labelled(node) ==> Labelled(r)
        invariant SiblingsDiffer(node) ==> SiblingsDiffer(r)
      {
        SizeOfChild(node.children, i);
        assert r.children[i] == r.children[i..][0] == node.children[i];
        var child := OptimizeNode(r.children[i]);
        ReplaceChild(r, i, child);
        r := r.(children := r.children[i := child]);
        assert r.children[i + 1..] == node.children[i..][1..];
        i := i + 1;
      }
    }
  }

  lemma SameFirstToken(before: Node, after: Node)
    requires after.param == before.param && before.key <= after.key
    requires Label(before) != []
    ensures Label(after) != [] && Label(after)[0] == Label(before)[0]
  {
  }

  lemma {:induction false} SizesUpdate(cs: seq<Node>, k: nat, m: Node)
    requires k < |cs|
    ensures Sizes(cs[k := m]) == Sizes(cs) - Size(cs[k]) + Size(m)
  {
    if k > 0 {
      SizesUpdate(cs[1..], k - 1, m);
      assert cs[k := m][1..] == cs[1..][k - 1 := m];
    } else {
      assert cs[k := m][1..] == cs[1..];
    }
  }

  // ---- Adding: a cursor into the tree ----

  /** The position of a node: which child to take at every level. */
  type Cursor = seq<nat>

  predicate ValidCursor(n: Node, c: Cursor) {
    c == [] || (c[0] < |n.children| && ValidCursor(n.children[c[0]], c[1..]))
  }

  function At(n: Node, c: Cursor): Node
    requires ValidCursor(n, c)
  {
    if c == [] then n else At(n.children[c[0]], c[1..])
  }

  function Put(n: Node, c: Cursor, m: Node): Node
    requires ValidCursor(n, c)
    decreases |c|
  {
    if c == [] then m else n.(children := n.children[c[0] := Put(n.children[c[0]], c[1..], m)])
  }

  /** The pattern spelled by the labels from n's children down to the cursor. */
  function Spelled(n: Node, c: Cursor): Pattern
    requires ValidCursor(n, c)
  {
    if c == [] then [] else Label(n.children[c[0]]) + Spelled(n.children[c[0]], c[1..])
  }

  lemma {:induction false} CursorStep(n: Node, c: Cursor, k: nat)
    requires ValidCursor(n, c) && k < |At(n, c).children|
    ensures ValidCursor(n, c + [k])
    ensures At(n, c + [k]) == At(n, c).children[k]
    ensures Spelled(n, c + [k]) == Spelled(n, c) + Label(At(n, c).children[k])
    decreases |c|
  {
    hide Label;
    var d := c + [k];
    if c == [] {
      assert d[1..] == [];
      assert [] + Label(n.children[k]) == Label(n.children[k]) + [];
    } else {
      var child := n.children[c[0]];
      assert d[0] == c[0] && d[1..] == c[1..] + [k];
      CursorStep(child, c[1..], k);
      assert Label(child) + (Spelled(child, c[1..]) + Label(At(n, c).children[k]))
          == Label(child) + Spelled(child, c[1..]) + Label(At(n, c).children[k]);
    }
  }

  /** The shape add relies on: one character or one parameter per node, siblings all different. */
  ghost predicate Fresh(n: Node) {
    && (forall k :: 0 <= k < |n.children| ==>
          && (if n.children[k].param == MAX then |n.children[k].key| == 1 else n.children[k].key == "")
          && Fresh(n.children[k]))
    && (forall j, k :: 0 <= j < k < |n.children| ==> Label(n.children[j]) != Label(n.children[k]))
  }

  lemma {:induction false} FreshIsLabelled(n: Node)
    requires Fresh(n)
    ensures Labelled(n)
  {
    forall k | 0 <= k < |n.children|
      ensures Label(n.children[k]) != [] && Labelled(n.children[k])
    {
      FreshIsLabelled(n.children[k]);
    }
  }

  lemma {:induction false} FreshSiblingsDiffer(n: Node)
    requires Fresh(n)
    ensures SiblingsDiffer(n)
  {
    forall k | 0 <= k < |n.children|
      ensures |Label(n.children[k])| == 1 && SiblingsDiffer(n.children[k])
    {
      FreshSiblingsDiffer(n.children[k]);
    }
    forall j, k | 0 <= j < k < |n.children|
      ensures Label(n.children[j])[0] != Label(n.children[k])[0]
    {
      assert Label(n.children[j]) == [Label(n.children[j])[0]];
      assert Label(n.children[k]) == [Label(n.children[k])[0]];
    }
  }

  lemma {:induction false} FreshAt(n: Node, c: Cursor)
    requires Fresh(n) && ValidCursor(n, c)
    ensures Fresh(At(n, c))
    decreases |c|
  {
    if c != [] { FreshAt(n.children[c[0]], c[1..]); }
  }

  lemma {:induction false} FreshLabelLength(n: Node, k: nat)
    requires Fresh(n) && k < |n.children|
    ensures |Label(n.children[k])| == 1
  {
  }

  lemma {:induction false} InBranches(cs: seq<Node>, r: Rule)
    ensures r in Branches(cs) <==> exists k :: 0 <= k < |cs| && r in Branch(cs[k])
  {
    if cs != [] {
      InBranches(cs[1..], r);
      if r in Branches(cs[1..]) {
        var k :| 0 <= k < |cs[1..]| && r in Branch(cs[1..][k]);
        assert r in Branch(cs[k + 1]);
      }
      if k :| 0 <= k < |cs| && r in Branch(cs[k]) {
        assert k > 0 ==> cs[1..][k - 1] == cs[k];
      }
    }
  }

  lemma InBranch(n: Node, rest: Pattern, index: nat)
    ensures Rule(Label(n) + rest, index) in Branch(n) <==> Rule(rest, index) in Paths(n)
  {
    var r := Rule(Label(n) + rest, index);
    if r in Branch(n) {
      var i :| 0 <= i < |Branch(n)| && Branch(n)[i] == r;
      assert (Label(n) + rest)[|Label(n)|..] == rest;
      assert (Label(n) + Paths(n)[i].pattern)[|Label(n)|..] == Paths(n)[i].pattern;
      assert Paths(n)[i] == Rule(rest, index);
    }
    if Rule(rest, index) in Paths(n) {
      var i :| 0 <= i < |Paths(n)| && Paths(n)[i] == Rule(rest, index);
      assert Branch(n)[i] == r;
    }
  }

  lemma BranchStartsWithLabel(n: Node, r: Rule)
    requires r in Branch(n)
    ensures Label(n) <= r.pattern
  {
    var i :| 0 <= i < |Branch(n)| && Branch(n)[i] == r;
  }

  /** In a fresh tree a pattern leads to one node only: the rules with the pattern spelled by a cursor are
      exactly the rule stored at that cursor. */
  lemma {:induction false} RuleAtCursor(n: Node, c: Cursor, index: nat)
    requires Fresh(n) && ValidCursor(n, c)
    ensures Rule(Spelled(n, c), index) in Paths(n) <==> index != 0 && At(n, c).ruleIndex == index
    decreases |c|
  {
    var r := Rule(Spelled(n, c), index);
    InBranches(n.children, r);
    if c == [] {
      FreshIsLabelled(n);
      BranchesNonEmpty(n.children);
    } else {
      var child := n.children[c[0]];
      FreshLabelLength(n, c[0]);
      RuleAtCursor(child, c[1..], index);
      InBranch(child, Spelled(child, c[1..]), index);
      if k :| 0 <= k < |n.children| && r in Branch(n.children[k]) {
        FreshLabelLength(n, k);
        BranchStartsWithLabel(n.children[k], r);
        assert Label(n.children[k]) == r.pattern[..1] == Label(child);
        assert k == c[0];
      }
    }
  }

  ghost predicate NewLeaf(n: Node, leaf: Node) {
    && leaf.ruleIndex == 0 && leaf.children == []
    && (if leaf.param == MAX then |leaf.key| == 1 else leaf.key == "")
    && forall k :: 0 <= k < |n.children| ==> Label(n.children[k]) != Label(leaf)
  }

  lemma AddLeafHere(n: Node, leaf: Node)
    requires Fresh(n) && NewLeaf(n, leaf)
    ensures var m := n.(children := n.children + [leaf]);
            Fresh(m) && Paths(m) == Paths(n)
  {
    LeafAddsNoRule(n.children, leaf);
    PathsByBranches(n.(children := n.children + [leaf]), n);
    hide Paths, Branches;
    LeafKeepsFresh(n, leaf);
  }

  lemma LeafKeepsFresh(n: Node, leaf: Node)
    requires Fresh(n) && NewLeaf(n, leaf)
    ensures Fresh(n.(children := n.children + [leaf]))
  {
    hide Label;
    var m := n.(children := n.children + [leaf]);
    assert Fresh(leaf);
    assert forall k :: 0 <= k < |n.children| ==> m.children[k] == n.children[k];
  }

  lemma PathsByBranches(a: Node, b: Node)
    requires a.ruleIndex == b.ruleIndex && Branches(a.children) == Branches(b.children)
    ensures Paths(a) == Paths(b)
  {
  }

  lemma LeafAddsNoRule(cs: seq<Node>, leaf: Node)
    requires leaf.ruleIndex == 0 && leaf.children == []
    ensures Branches(cs + [leaf]) == Branches(cs)
  {
    BranchesAppend(cs, [leaf]);
    BranchesOne(leaf);
    assert Paths(leaf) == [];
  }

  lemma FreshUpdate(n: Node, k: nat, m: Node)
    requires Fresh(n) && k < |n.children| && Fresh(m)
    requires Label(m) == Label(n.children[k]) && m.key == n.children[k].key && m.param == n.children[k].param
    ensures Fresh(n.(children := n.children[k := m]))
  {
  }

  /** Hanging a new, rule-less leaf below the cursor changes no rule. */
  lemma {:induction false} AddLeafKeepsRules(n: Node, c: Cursor, leaf: Node)
    requires Fresh(n) && ValidCursor(n, c)
    requires NewLeaf(At(n, c), leaf)
    ensures var grown := At(n, c).(children := At(n, c).children + [leaf]);
            var m := Put(n, c, grown);
            && Fresh(m) && Paths(m) == Paths(n) && Label(m) == Label(n)
            && ValidCursor(m, c) && At(m, c) == grown && Spelled(m, c) == Spelled(n, c)
            && m.key == n.key && m.param == n.param
    decreases |c|
  {
    if c == [] {
      AddLeafHere(n, leaf);
    } else {
      var k := c[0];
      var grown := At(n, c).(children := At(n, c).children + [leaf]);
      AddLeafKeepsRules(n.children[k], c[1..], leaf);
      var m' := Put(n.children[k], c[1..], grown);
      hide Fresh, Label;
      FreshUpdate(n, k, m');
      BranchesUpdate(n.children, k, m');
      BranchesSplit(n.children, k);
    }
  }

  /** Storing a rule at the cursor adds that one rule. */
  lemma {:induction false} SetRuleAddsRule(n: Node, c: Cursor, index: uint16)
    requires Fresh(n) && ValidCursor(n, c) && At(n, c).ruleIndex == 0
    ensures var m := Put(n, c, At(n, c).(ruleIndex := index));
            && Fresh(m) && Label(m) == Label(n) && m.key == n.key && m.param == n.param
            && forall r :: r in Paths(m) <==> r in Paths(n) || (index != 0 && r == Rule(Spelled(n, c), index))
    decreases |c|
  {
    var m := Put(n, c, At(n, c).(ruleIndex := index));
    if c == [] {
      assert Paths(m) == (if index != 0 then [Rule([], index)] else []) + Branches(n.children);
    } else {
      var k := c[0];
      var child := n.children[k];
      SetRuleAddsRule(child, c[1..], index);
      var m' := Put(child, c[1..], At(n, c).(ruleIndex := index));
      assert m.children == n.children[k := m'];
      forall r: Rule
        ensures r in Paths(m) <==> r in Paths(n) || (index != 0 && r == Rule(Spelled(n, c), index))
      {
        BranchesUpdate(n.children, k, m');
        BranchesSplit(n.children, k);
        BranchOfChanged(child, m', r, Rule(Spelled(child, c[1..]), index), index != 0);
      }
    }
  }

  lemma BranchOfChanged(old': Node, new': Node, r: Rule, extra: Rule, added: bool)
    requires Label(old') == Label(new')
    requires forall x :: x in Paths(new') <==> x in Paths(old') || (added && x == extra)
    ensures r in Branch(new') <==> r in Branch(old') || (added && r == Rule(Label(old') + extra.pattern, extra.index))
  {
    var l := Label(old');
    if r in Branch(new') || r in Branch(old') {
      assert l <= r.pattern by {
        if r in Branch(new') { BranchStartsWithLabel(new', r); } else { BranchStartsWithLabel(old', r); }
      }
      assert r.pattern == l + r.pattern[|l|..];
      InBranch(new', r.pattern[|l|..], r.index);
      InBranch(old', r.pattern[|l|..], r.index);
      assert (l + extra.pattern)[|l|..] == extra.pattern;
    }
    InBranch(new', extra.pattern, extra.index);
  }
}
