/**
 Compiling a template: the tags are laid out in one flat array of actions, and the two ends of every block are linked
 to each other by position.
 */
module MustacheTemplate {
  import opened Mustache

  datatype ActionType = Ignore | Tag | UnescapeTag | OpenBlock | ElseBlock | CloseBlock

  /** A tag of the template text, as it is met. */
  datatype SourceTag = SourceTag(t: ActionType, name: string)

  datatype Action = Action(t: ActionType, name: string, hasEndMatch: bool, pos: nat)

  predicate Opens(t: ActionType) { t == OpenBlock || t == ElseBlock }

  function SourceOf(a: Action): SourceTag { SourceTag(a.t, a.name) }

  function SourcesOf(actions: seq<Action>): seq<SourceTag> {
    seq(|actions|, i requires 0 <= i < |actions| => SourceOf(actions[i]))
  }

  /** The actions from b up to e are properly nested: every block in there is closed in there, by a tag of the same
      name, and the two point at each other. */
  ghost predicate Linked(a: seq<Action>, b: nat, e: nat)
    requires b <= e <= |a|
    decreases e - b
  {
    if b == e then true
    else if Opens(a[b].t) then
      var p := a[b].pos;
      && b < p < e && a[b].hasEndMatch
      && a[p].t == CloseBlock && a[p].pos == b && a[p].name == a[b].name
      && Linked(a, b + 1, p) && Linked(a, p + 1, e)
    else a[b].t != CloseBlock && Linked(a, b + 1, e)
  }

  lemma {:induction false} LinkedFrame(a: seq<Action>, a': seq<Action>, b: nat, e: nat)
    requires b <= e <= |a| && e <= |a'| && Linked(a, b, e)
    requires forall k :: b <= k < e ==> a[k] == a'[k]
    ensures Linked(a', b, e)
    decreases e - b
  {
    if b < e {
      if Opens(a[b].t) {
        LinkedFrame(a, a', b + 1, a[b].pos);
        LinkedFrame(a, a', a[b].pos + 1, e);
      } else {
        LinkedFrame(a, a', b + 1, e);
      }
    }
  }

  lemma {:induction false} LinkedAppend(a: seq<Action>, b: nat, m: nat, e: nat)
    requires b <= m <= e <= |a| && Linked(a, b, m) && Linked(a, m, e)
    ensures Linked(a, b, e)
    decreases m - b
  {
    if b < m {
      LinkedAppend(a, if Opens(a[b].t) then a[b].pos + 1 else b + 1, m, e);
    }
  }

  /** The stretches between the blocks that are still open are nested. */
  ghost predicate OpenSegments(a: seq<Action>, opened': seq<nat>, c: nat)
    requires c <= |a|
    decreases |opened'|
  {
    if opened' == [] then Linked(a, 0, c)
    else
      var last := opened'[|opened'| - 1];
      && last < c && Opens(a[last].t) && !a[last].hasEndMatch
      && Linked(a, last + 1, c)
      && OpenSegments(a, opened'[..|opened'| - 1], last)
  }

  lemma {:induction false} SegmentsFrame(a: seq<Action>, a': seq<Action>, opened': seq<nat>, c: nat)
    requires c <= |a| && c <= |a'| && OpenSegments(a, opened', c)
    requires forall k :: 0 <= k < c ==> a[k] == a'[k]
    ensures OpenSegments(a', opened', c)
    decreases |opened'|
  {
    if opened' == [] {
      LinkedFrame(a, a', 0, c);
    } else {
      var last := opened'[|opened'| - 1];
      LinkedFrame(a, a', last + 1, c);
      SegmentsFrame(a, a', opened'[..|opened'| - 1], last);
    }
  }

  // ---- Which tag sequences are templates ----

  /** The tags of a tree of nodes, in the order they are written. */
  function TagsOf(nodes: seq<Node>): seq<SourceTag>
    decreases nodes, 0
  {
    if nodes == [] then [] else TagsOfNode(nodes[0]) + TagsOf(nodes[1..])
  }

  function TagsOfNode(n: Node): seq<SourceTag>
    decreases n, 1
  {
    match n
    case Comment(_, text) => [SourceTag(Ignore, text)]
    case Variable(_, name, escaped, _) => [SourceTag(if escaped then Tag else UnescapeTag, name)]
    case Block(_, name, inverted, body, _) =>
      [SourceTag(if inverted then ElseBlock else OpenBlock, name)] + TagsOf(body) + [SourceTag(CloseBlock, name)]
  }

  datatype CompileError = UnexpectedClosingTag | NotMatchedPair | NoMatchingEndTag

  datatype Outcome = Compiled | Rejected(error: CompileError)

  /** Reading the tags left to right with the names of the open blocks on a stack: the first tag that does not fit is
      the reason for refusing. */
  function Verdict(tags: seq<SourceTag>, names: seq<string>): Outcome
    decreases |tags|
  {
    if tags == [] then (if names == [] then Compiled else Rejected(NoMatchingEndTag))
    else if Opens(tags[0].t) then Verdict(tags[1..], names + [tags[0].name])
    else if tags[0].t == CloseBlock then
      if names == [] then Rejected(UnexpectedClosingTag)
      else if names[|names| - 1] != tags[0].name then Rejected(NotMatchedPair)
      else Verdict(tags[1..], names[..|names| - 1])
    else Verdict(tags[1..], names)
  }

  predicate Accepts(tags: seq<SourceTag>, names: seq<string>) { Verdict(tags, names) == Compiled }

  /** The tags of a tree are read without touching what is below them on the stack. */
  lemma {:induction false} VerdictOfTree(nodes: seq<Node>, rest: seq<SourceTag>, names: seq<string>)
    ensures Verdict(TagsOf(nodes) + rest, names) == Verdict(rest, names)
    decreases nodes, 0
  {
    if nodes == [] {
      assert TagsOf(nodes) + rest == rest;
    } else {
      var more := TagsOf(nodes[1..]) + rest;
      assert TagsOf(nodes) + rest == TagsOfNode(nodes[0]) + more;
      VerdictOfNode(nodes[0], more, names);
      VerdictOfTree(nodes[1..], rest, names);
    }
  }

  lemma {:induction false} VerdictOfNode(n: Node, rest: seq<SourceTag>, names: seq<string>)
    ensures Verdict(TagsOfNode(n) + rest, names) == Verdict(rest, names)
    decreases n, 1
  {
    var tags := TagsOfNode(n) + rest;
    if n.Block? {
      var close := [SourceTag(CloseBlock, n.name)] + rest;
      assert tags[1..] == TagsOf(n.body) + close;
      VerdictOfTree(n.body, close, names + [n.name]);
      assert close[1..] == rest;
      assert (names + [n.name])[..|names|] == names;
    } else {
      assert tags[1..] == rest;
    }
  }

  // ---- The tree of a nested stretch ----

  /** Whether a tag counts as standing in an object block: going back over the tags, closing tags are counted up,
      opening ones of plain blocks down, and an opening one met at zero decides. */
  function EnclosedFrom(a: seq<Action>, current: nat, openedBlock: int): bool
    requires current <= |a|
    decreases current
  {
    if current == 0 then false
    else if a[current - 1].t == OpenBlock then
      openedBlock == 0 || EnclosedFrom(a, current - 1, openedBlock - 1)
    else if a[current - 1].t == CloseBlock then EnclosedFrom(a, current - 1, openedBlock + 1)
    else EnclosedFrom(a, current - 1, openedBlock)
  }

  /** The nodes that the actions from b to e stand for; fragment k is the text in front of tag k. */
  ghost function Nodes(a: seq<Action>, fragments: seq<string>, b: nat, e: nat): seq<Node>
    requires b <= e <= |a| && |a| <= |fragments| && Linked(a, b, e)
    decreases e - b
  {
    if b == e then []
    else if Opens(a[b].t) then
      var p := a[b].pos;
      [Block(fragments[b], a[b].name, a[b].t == ElseBlock, Nodes(a, fragments, b + 1, p), fragments[p])]
      + Nodes(a, fragments, p + 1, e)
    else if a[b].t == Ignore then [Comment(fragments[b], a[b].name)] + Nodes(a, fragments, b + 1, e)
    else
      [Variable(fragments[b], a[b].name, a[b].t == Tag, EnclosedFrom(a, b, 0))] + Nodes(a, fragments, b + 1, e)
  }

  lemma SourcesSplit(a: seq<Action>, b: nat, p: nat, e: nat)
    requires b < p < e <= |a|
    ensures SourcesOf(a[b..e])
         == ([SourceOf(a[b])] + SourcesOf(a[b + 1..p]) + [SourceOf(a[p])]) + SourcesOf(a[p + 1..e])
  {
  }

  lemma SourcesFirst(a: seq<Action>, b: nat, e: nat)
    requires b < e <= |a|
    ensures SourcesOf(a[b..e]) == [SourceOf(a[b])] + SourcesOf(a[b + 1..e])
  {
  }

  lemma TagsOfMore(n: Node, more: seq<Node>)
    ensures TagsOf([n] + more) == TagsOfNode(n) + TagsOf(more)
  {
    assert ([n] + more)[1..] == more;
  }

  /** The node of the block that opens at b, with a given body. */
  function BlockOf(a: seq<Action>, fragments: seq<string>, b: nat, body: seq<Node>): Node
    requires b < |a| <= |fragments| && a[b].pos < |a|
  {
    Block(fragments[b], a[b].name, a[b].t == ElseBlock, body, fragments[a[b].pos])
  }

  /** The node of an action that is no end of a block. */
  function LeafOf(a: seq<Action>, fragments: seq<string>, b: nat): Node
    requires b < |a| <= |fragments|
  {
    if a[b].t == Ignore then Comment(fragments[b], a[b].name)
    else Variable(fragments[b], a[b].name, a[b].t == Tag, EnclosedFrom(a, b, 0))
  }

  lemma NodesFirst(a: seq<Action>, fragments: seq<string>, b: nat, e: nat)
    requires b < e <= |a| && |a| <= |fragments| && Linked(a, b, e)
    ensures var p := a[b].pos;
            if Opens(a[b].t) then
              && b < p < e && Linked(a, b + 1, p) && Linked(a, p + 1, e)
              && SourceOf(a[p]) == SourceTag(CloseBlock, a[b].name)
              && Nodes(a, fragments, b, e)
                 == [BlockOf(a, fragments, b, Nodes(a, fragments, b + 1, p))] + Nodes(a, fragments, p + 1, e)
            else
              && a[b].t != CloseBlock && Linked(a, b + 1, e)
              && Nodes(a, fragments, b, e) == [LeafOf(a, fragments, b)] + Nodes(a, fragments, b + 1, e)
  {
    hide EnclosedFrom;
  }

  lemma TagsOfFirst(a: seq<Action>, fragments: seq<string>, b: nat, body: seq<Node>)
    requires b < |a| <= |fragments| && (!Opens(a[b].t) ==> a[b].t != CloseBlock)
    ensures !Opens(a[b].t) ==> TagsOfNode(LeafOf(a, fragments, b)) == [SourceOf(a[b])]
    ensures Opens(a[b].t) && a[b].pos < |a| && SourceOf(a[a[b].pos]) == SourceTag(CloseBlock, a[b].name) ==>
              TagsOfNode(BlockOf(a, fragments, b, body)) == [SourceOf(a[b])] + TagsOf(body) + [SourceOf(a[a[b].pos])]
  {
    hide TagsOf, EnclosedFrom;
  }

  /** Writing the tags of that tree gives back the tags it was built from. */
  lemma {:induction false} TagsOfNodes(a: seq<Action>, fragments: seq<string>, b: nat, e: nat)
    requires b <= e <= |a| && |a| <= |fragments| && Linked(a, b, e)
    ensures TagsOf(Nodes(a, fragments, b, e)) == SourcesOf(a[b..e])
    decreases e - b
  {
    hide *;
    if b == e {
      NoNodes(a, fragments, b);
    } else {
      NodesFirst(a, fragments, b, e);
      var p := a[b].pos;
      if Opens(a[b].t) {
        TagsOfNodes(a, fragments, b + 1, p);
        TagsOfNodes(a, fragments, p + 1, e);
        SourcesSplit(a, b, p, e);
        TagsOfFirst(a, fragments, b, Nodes(a, fragments, b + 1, p));
        TagsOfMore(BlockOf(a, fragments, b, Nodes(a, fragments, b + 1, p)), Nodes(a, fragments, p + 1, e));
      } else {
        TagsOfNodes(a, fragments, b + 1, e);
        SourcesFirst(a, b, e);
        TagsOfFirst(a, fragments, b, []);
        TagsOfMore(LeafOf(a, fragments, b), Nodes(a, fragments, b + 1, e));
      }
    }
  }

  /** The literal texts of a tree, each in front of a tag, in the order they are written. */
  function TextsOf(nodes: seq<Node>): seq<string>
    decreases nodes, 0
  {
    if nodes == [] then [] else TextsOfNode(nodes[0]) + TextsOf(nodes[1..])
  }

  function TextsOfNode(n: Node): seq<string>
    decreases n, 1
  {
    [n.before] + if n.Block? then TextsOf(n.body) + [n.tail] else []
  }

  lemma TextsOfMore(n: Node, more: seq<Node>)
    ensures TextsOf([n] + more) == TextsOfNode(n) + TextsOf(more)
  {
    assert ([n] + more)[1..] == more;
  }

  lemma NoNodes(a: seq<Action>, fragments: seq<string>, b: nat)
    requires b <= |a| <= |fragments| && Linked(a, b, b)
    ensures TagsOf(Nodes(a, fragments, b, b)) == SourcesOf(a[b..b])
    ensures TextsOf(Nodes(a, fragments, b, b)) == fragments[b..b]
  {
  }

  /** And it holds every fragment once, in its place. */
  lemma {:induction false} TextsOfNodes(a: seq<Action>, fragments: seq<string>, b: nat, e: nat)
    requires b <= e <= |a| && |a| <= |fragments| && Linked(a, b, e)
    ensures TextsOf(Nodes(a, fragments, b, e)) == fragments[b..e]
    decreases e - b
  {
    hide *;
    if b == e {
      NoNodes(a, fragments, b);
    } else {
      NodesFirst(a, fragments, b, e);
      var p := a[b].pos;
      if Opens(a[b].t) {
        TextsOfNodes(a, fragments, b + 1, p);
        TextsOfNodes(a, fragments, p + 1, e);
        TextsSplit(fragments, b, p, e);
        TextsOfFirst(a, fragments, b, Nodes(a, fragments, b + 1, p));
        TextsOfMore(BlockOf(a, fragments, b, Nodes(a, fragments, b + 1, p)), Nodes(a, fragments, p + 1, e));
      } else {
        TextsOfNodes(a, fragments, b + 1, e);
        TextsFirst(fragments, b, e);
        TextsOfFirst(a, fragments, b, []);
        TextsOfMore(LeafOf(a, fragments, b), Nodes(a, fragments, b + 1, e));
      }
    }
  }

  lemma TextsOfFirst(a: seq<Action>, fragments: seq<string>, b: nat, body: seq<Node>)
    requires b < |a| <= |fragments|
    ensures TextsOfNode(LeafOf(a, fragments, b)) == [fragments[b]] + []
    ensures a[b].pos < |a| ==>
              TextsOfNode(BlockOf(a, fragments, b, body)) == [fragments[b]] + (TextsOf(body) + [fragments[a[b].pos]])
  {
    hide TextsOf, EnclosedFrom;
  }

  lemma TextsSplit(fragments: seq<string>, b: nat, p: nat, e: nat)
    requires b < p < e <= |fragments|
    ensures fragments[b..e] == ([fragments[b]] + (fragments[b + 1..p] + [fragments[p]])) + fragments[p + 1..e]
  {
  }

  lemma TextsFirst(fragments: seq<string>, b: nat, e: nat)
    requires b < e <= |fragments|
    ensures fragments[b..e] == [fragments[b]] + fragments[b + 1..e] == [fragments[b]] + [] + fragments[b + 1..e]
  {
  }

  // ---- Compiling ----

  function Names(a: seq<Action>, opened': seq<nat>): seq<string>
    requires forall k :: 0 <= k < |opened'| ==> opened'[k] < |a|
  {
    seq(|opened'|, i requires 0 <= i < |opened'| => a[opened'[i]].name)
  }

  /** The state while tags are read: everything but the open blocks is linked, and what is left to read is accepted
      on the names of the open blocks exactly when the whole is accepted. */
  ghost predicate ReadSoFar(tags: seq<SourceTag>, c: nat, actions: seq<Action>, opened': seq<nat>) {
    && c <= |tags| && |actions| == c
    && SourcesOf(actions) == tags[..c]
    && (forall k :: 0 <= k < |opened'| ==> opened'[k] < c)
    && OpenSegments(actions, opened', c)
    && (forall i :: 0 <= i < c && Opens(actions[i].t) && !actions[i].hasEndMatch ==> i in opened')
    && Verdict(tags, []) == Verdict(tags[c..], Names(actions, opened'))
  }

  lemma NothingRead(tags: seq<SourceTag>)
    ensures ReadSoFar(tags, 0, [], [])
  {
    assert tags[0..] == tags && SourcesOf([]) == [] && Names([], []) == [];
  }

  lemma PlainKeepsReading(tags: seq<SourceTag>, a: seq<Action>, opened': seq<nat>, tag: SourceTag)
    requires ReadSoFar(tags, |a|, a, opened') && |a| < |tags| && tags[|a|] == tag
    requires !Opens(tag.t) && tag.t != CloseBlock
    ensures ReadSoFar(tags, |a| + 1, a + [Action(tag.t, tag.name, false, 0)], opened')
  {
    var c := |a|;
    var a' := a + [Action(tag.t, tag.name, false, 0)];
    VerdictFirst(tags[c..], Names(a, opened'));
    SegmentsFrame(a, a', opened', c);
    SegmentsGrow(a', opened', c);
    PushNames(a, a', opened', a'[c]);
    assert tags[c..][1..] == tags[c + 1..];
    hide OpenSegments, Linked, Verdict, Names, SourcesOf;
    assert ReadSoFar(tags, c + 1, a', opened');
  }

  lemma OpenKeepsReading(tags: seq<SourceTag>, a: seq<Action>, opened': seq<nat>, tag: SourceTag)
    requires ReadSoFar(tags, |a|, a, opened') && |a| < |tags| && tags[|a|] == tag && Opens(tag.t)
    ensures ReadSoFar(tags, |a| + 1, a + [Action(tag.t, tag.name, false, 0)], opened' + [|a|])
  {
    var c := |a|;
    var a' := a + [Action(tag.t, tag.name, false, 0)];
    VerdictFirst(tags[c..], Names(a, opened'));
    SegmentsFrame(a, a', opened', c);
    SegmentsOpen(a', opened', c);
    PushNames(a, a', opened', a'[c]);
    assert tags[c..][1..] == tags[c + 1..];
    hide OpenSegments, Linked, Verdict, Names, SourcesOf;
    assert ReadSoFar(tags, c + 1, a', opened' + [c]);
  }

  lemma CloseKeepsReading(tags: seq<SourceTag>, a: seq<Action>, opened': seq<nat>, tag: SourceTag)
    requires ReadSoFar(tags, |a|, a, opened') && |a| < |tags| && tags[|a|] == tag && tag.t == CloseBlock
    ensures opened' == [] ==> Verdict(tags, []) == Rejected(UnexpectedClosingTag)
    ensures opened' != [] ==> opened'[|opened'| - 1] < |a|
    ensures opened' != [] && a[opened'[|opened'| - 1]].name != tag.name ==>
              Verdict(tags, []) == Rejected(NotMatchedPair)
    ensures opened' != [] && a[opened'[|opened'| - 1]].name == tag.name ==>
              var last := opened'[|opened'| - 1];
              ReadSoFar(tags, |a| + 1,
                        a[last := a[last].(pos := |a|, hasEndMatch := true)]
                        + [Action(CloseBlock, tag.name, false, last)],
                        opened'[..|opened'| - 1])
  {
    var c := |a|;
    VerdictClose(tags[c..], Names(a, opened'));
    if opened' != [] {
      var n := |opened'| - 1;
      var last := opened'[n];
      assert Names(a, opened')[n] == a[last].name;
      if a[last].name == tag.name {
        LinkEnds(tags, a, opened', tag);
      }
    }
  }

  lemma VerdictClose(tags: seq<SourceTag>, names: seq<string>)
    requires tags != [] && tags[0].t == CloseBlock
    ensures Verdict(tags, names)
            == if names == [] then Rejected(UnexpectedClosingTag)
               else if names[|names| - 1] != tags[0].name then Rejected(NotMatchedPair)
               else Verdict(tags[1..], names[..|names| - 1])
  {
  }

  lemma LinkEnds(tags: seq<SourceTag>, a: seq<Action>, opened': seq<nat>, tag: SourceTag)
    requires ReadSoFar(tags, |a|, a, opened') && |a| < |tags| && tags[|a|] == tag && tag.t == CloseBlock
    requires opened' != [] && a[opened'[|opened'| - 1]].name == tag.name
    ensures var last := opened'[|opened'| - 1];
            ReadSoFar(tags, |a| + 1,
                      a[last := a[last].(pos := |a|, hasEndMatch := true)]
                      + [Action(CloseBlock, tag.name, false, last)],
                      opened'[..|opened'| - 1])
  {
    hide OpenSegments, Linked, Verdict, SourcesOf;
    var c, n := |a|, |opened'| - 1;
    var last, outer := opened'[n], opened'[..n];
    var linked := a[last].(pos := c, hasEndMatch := true);
    var a' := a[last := linked] + [Action(CloseBlock, tag.name, false, last)];
    CloseSegments(a, a', opened', c);
    CloseNames(a, a', opened', linked, a'[c]);
    assert tags[c..][1..] == tags[c + 1..];
    VerdictClose(tags[c..], Names(a, opened'));
    assert Names(a, opened')[n] == tag.name;
    hide Names;
    assert Verdict(tags, []) == Verdict(tags[c + 1..], Names(a', outer));
    assert tags[..c + 1] == tags[..c] + [tag];
    forall i | 0 <= i < c + 1 && Opens(a'[i].t) && !a'[i].hasEndMatch
      ensures i in outer
    {
      assert i in opened';
      var k :| 0 <= k <= n && opened'[k] == i;
      assert outer[k] == i;
    }
  }

  class Template {
    var actions: seq<Action>
    var blockPositions: seq<nat>

    constructor ()
      ensures actions == [] && blockPositions == []
    {
      actions, blockPositions := [], [];
    }

    ghost predicate Reading(tags: seq<SourceTag>, c: nat)
      reads this
    {
      ReadSoFar(tags, c, actions, blockPositions)
    }

    method PushPlain(ghost tags: seq<SourceTag>, tag: SourceTag)
      requires Reading(tags, |actions|) && |actions| < |tags| && tags[|actions|] == tag
      requires !Opens(tag.t) && tag.t != CloseBlock
      modifies this
      ensures |actions| == old(|actions|) + 1 && Reading(tags, |actions|)
    {
      PlainKeepsReading(tags, actions, blockPositions, tag);
      hide ReadSoFar;
      actions := actions + [Action(tag.t, tag.name, false, 0)];
    }

    method PushOpen(ghost tags: seq<SourceTag>, tag: SourceTag)
      requires Reading(tags, |actions|) && |actions| < |tags| && tags[|actions|] == tag && Opens(tag.t)
      modifies this
      ensures |actions| == old(|actions|) + 1 && Reading(tags, |actions|)
    {
      OpenKeepsReading(tags, actions, blockPositions, tag);
      hide ReadSoFar;
      blockPositions := blockPositions + [|actions|];
      actions := actions + [Action(tag.t, tag.name, false, 0)];
    }

    /** A closing tag: refused without an open block or with another name, otherwise the two are linked. */
    method PushClose(ghost tags: seq<SourceTag>, tag: SourceTag) returns (r: Outcome)
      requires Reading(tags, |actions|) && |actions| < |tags| && tags[|actions|] == tag && tag.t == CloseBlock
      modifies this
      ensures r.Compiled? ==> |actions| == old(|actions|) + 1 && Reading(tags, |actions|)
      ensures r.Rejected? ==> r == Verdict(tags, [])
    {
      CloseKeepsReading(tags, actions, blockPositions, tag);
      if blockPositions == [] {
        return Rejected(UnexpectedClosingTag);
      }
      var last := blockPositions[|blockPositions| - 1];
      var matched := actions[last];
      if matched.name != tag.name {
        return Rejected(NotMatchedPair);
      }
      hide ReadSoFar, Verdict;
      actions := actions[last := matched.(pos := |actions|, hasEndMatch := true)];
      actions := actions + [Action(CloseBlock, tag.name, false, last)];
      blockPositions := blockPositions[..|blockPositions| - 1];
      r := Compiled;
    }

    /** parse: the tags are accepted exactly when they can be nested, and then the array is linked; otherwise the
        first tag that does not fit is reported. */
    method Parse(tags: seq<SourceTag>) returns (r: Outcome)
      requires actions == [] && blockPositions == []
      modifies this
      ensures r == Verdict(tags, [])
      ensures r.Compiled? ==> SourcesOf(actions) == tags && Linked(actions, 0, |actions|)
      ensures r.Compiled? ==> blockPositions == []
    {
      var c := 0;
      NothingRead(tags);
      while c < |tags|
        invariant 0 <= c <= |tags| && Reading(tags, c)
      {
        var tag := tags[c];
        if Opens(tag.t) {
          PushOpen(tags, tag);
        } else if tag.t == CloseBlock {
          r := PushClose(tags, tag);
          if r.Rejected? {
            return;
          }
        } else {
          PushPlain(tags, tag);
        }
        c := c + 1;
      }
      assert tags[c..] == [] && tags[..c] == tags;
      r := EnsureNoUnmatchedTags();
      assert r.Compiled? <==> Names(actions, blockPositions) == [];
    }

    /** The final check goes over all actions for an opening tag without its end. */
    method EnsureNoUnmatchedTags() returns (r: Outcome)
      requires OpenSegments(actions, blockPositions, |actions|)
      requires forall i :: 0 <= i < |actions| && Opens(actions[i].t) && !actions[i].hasEndMatch ==> i in blockPositions
      ensures r == if blockPositions == [] then Compiled else Rejected(NoMatchingEndTag)
    {
      var i := 0;
      while i < |actions|
        invariant 0 <= i <= |actions|
        invariant forall k :: 0 <= k < i ==> !Opens(actions[k].t) || actions[k].hasEndMatch
      {
        if Opens(actions[i].t) && !actions[i].hasEndMatch {
          assert i in blockPositions;
          return Rejected(NoMatchingEndTag);
        }
        i := i + 1;
      }
      r := Compiled;
    }
  }

  lemma PushNames(a: seq<Action>, a': seq<Action>, opened': seq<nat>, x: Action)
    requires forall k :: 0 <= k < |opened'| ==> opened'[k] < |a|
    requires a' == a + [x]
    ensures Names(a', opened') == Names(a, opened')
    ensures Names(a', opened' + [|a|]) == Names(a, opened') + [x.name]
    ensures SourcesOf(a') == SourcesOf(a) + [SourceOf(x)]
  {
  }

  lemma CloseNames(a: seq<Action>, a': seq<Action>, opened': seq<nat>, linked: Action, close: Action)
    requires opened' != [] && forall k :: 0 <= k < |opened'| ==> opened'[k] < |a|
    requires var last := opened'[|opened'| - 1];
             a' == a[last := linked] + [close] && SourceOf(linked) == SourceOf(a[last])
    ensures Names(a', opened'[..|opened'| - 1]) == Names(a, opened')[..|opened'| - 1]
    ensures SourcesOf(a') == SourcesOf(a) + [SourceOf(close)]
  {
    var n := |opened'| - 1;
    var x, y := Names(a', opened'[..n]), Names(a, opened')[..n];
    assert forall k :: 0 <= k < n ==> x[k] == y[k];
  }

  lemma SegmentsGrow(a: seq<Action>, opened': seq<nat>, c: nat)
    requires c < |a| && OpenSegments(a, opened', c) && !Opens(a[c].t) && a[c].t != CloseBlock
    ensures OpenSegments(a, opened', c + 1)
  {
    var lo := if opened' == [] then 0 else opened'[|opened'| - 1] + 1;
    assert Linked(a, c, c + 1);
    LinkedAppend(a, lo, c, c + 1);
  }

  lemma SegmentsOpen(a: seq<Action>, opened': seq<nat>, c: nat)
    requires |a| == c + 1 && OpenSegments(a, opened', c) && Opens(a[c].t) && !a[c].hasEndMatch
    ensures OpenSegments(a, opened' + [c], c + 1)
  {
    assert (opened' + [c])[..|opened'|] == opened';
  }

  lemma VerdictFirst(tags: seq<SourceTag>, names: seq<string>)
    requires tags != []
    ensures Opens(tags[0].t) ==> Verdict(tags, names) == Verdict(tags[1..], names + [tags[0].name])
    ensures !Opens(tags[0].t) && tags[0].t != CloseBlock ==> Verdict(tags, names) == Verdict(tags[1..], names)
  {
  }

  /** Closing the innermost open block joins its stretch to the one around it. */
  lemma CloseSegments(a: seq<Action>, a': seq<Action>, opened': seq<nat>, c: nat)
    requires c == |a| && |a'| == c + 1 && opened' != [] && OpenSegments(a, opened', c)
    requires var last := opened'[|opened'| - 1];
             && a'[c] == Action(CloseBlock, a[last].name, false, last)
             && a'[last] == a[last].(pos := c, hasEndMatch := true)
             && forall k :: 0 <= k < c && k != last ==> a'[k] == a[k]
    ensures OpenSegments(a', opened'[..|opened'| - 1], c + 1)
  {
    var n := |opened'| - 1;
    var last, outer := opened'[n], opened'[..n];
    SegmentsFrame(a, a', outer, last);
    LinkedFrame(a, a', last + 1, c);
    assert Linked(a', c + 1, c + 1);
    assert Linked(a', last, c + 1);
    var lo := if outer == [] then 0 else outer[|outer| - 1] + 1;
    LinkedAppend(a', lo, last, c + 1);
  }

  /** The accepted tag sequences are exactly the tags of trees. */
  lemma AcceptedAreTrees(tags: seq<SourceTag>, nodes: seq<Node>)
    requires TagsOf(nodes) == tags
    ensures Accepts(tags, [])
  {
    VerdictOfTree(nodes, [], []);
    assert tags + [] == tags;
  }

  lemma LinkedIsTree(a: seq<Action>, fragments: seq<string>)
    requires |fragments| == |a| + 1 && Linked(a, 0, |a|)
    ensures TagsOf(Nodes(a, fragments, 0, |a|)) == SourcesOf(a)
    ensures TextsOf(Nodes(a, fragments, 0, |a|)) + [fragments[|a|]] == fragments
    ensures Accepts(SourcesOf(a), [])
  {
    hide TextsOf, TagsOf, Nodes, Linked, Verdict;
    TagsOfNodes(a, fragments, 0, |a|);
    TextsOfNodes(a, fragments, 0, |a|);
    assert a[0..|a|] == a && fragments[0..|a|] + [fragments[|a|]] == fragments;
    AcceptedAreTrees(SourcesOf(a), Nodes(a, fragments, 0, |a|));
  }

  // ---- When a tag counts as standing in a section ----

  /** Closing tags minus section openers from b up to m: by how much going back over them moves the counter. */
  function Net(a: seq<Action>, b: nat, m: nat): int
    requires b <= m <= |a|
  {
    if b == m then 0
    else Net(a, b, m - 1) + (if a[m - 1].t == CloseBlock then 1 else if a[m - 1].t == OpenBlock then -1 else 0)
  }

  /** The inverted blocks that open from b up to m and are closed before c. */
  function InvertedDone(a: seq<Action>, b: nat, m: nat, c: nat): nat
    requires b <= m <= |a|
  {
    if b == m then 0
    else InvertedDone(a, b, m - 1, c) + (if a[m - 1].t == ElseBlock && a[m - 1].pos < c then 1 else 0)
  }

  predicate IsAround(a: seq<Action>, j: nat, c: nat) {
    j < c <= |a| && a[j].t == OpenBlock && c <= a[j].pos
  }

  /** The sections that open from b up to m and are still open at c. */
  function SectionsOpen(a: seq<Action>, b: nat, m: nat, c: nat): nat
    requires b <= m <= |a|
  {
    if b == m then 0 else SectionsOpen(a, b, m - 1, c) + (if IsAround(a, m - 1, c) then 1 else 0)
  }

  lemma {:induction false} SplitCounts(a: seq<Action>, b: nat, k: nat, m: nat, c: nat)
    requires b <= k <= m <= |a|
    ensures Net(a, b, m) == Net(a, b, k) + Net(a, k, m)
    ensures InvertedDone(a, b, m, c) == InvertedDone(a, b, k, c) + InvertedDone(a, k, m, c)
    ensures SectionsOpen(a, b, m, c) == SectionsOpen(a, b, k, c) + SectionsOpen(a, k, m, c)
  {
    if k < m { SplitCounts(a, b, k, m - 1, c); }
  }

  /** A whole block in the range: its two ends, what it holds and what follows it. */
  lemma SplitBlock(a: seq<Action>, b: nat, p: nat, m: nat, c: nat)
    requires b < p < m <= |a|
    ensures Net(a, b, m) == Net(a, b, b + 1) + Net(a, b + 1, p) + Net(a, p, p + 1) + Net(a, p + 1, m)
    ensures Net(a, b + 1, m) == Net(a, b + 1, p) + Net(a, p, p + 1) + Net(a, p + 1, m)
    ensures InvertedDone(a, b, m, c) == InvertedDone(a, b, b + 1, c) + InvertedDone(a, b + 1, p, c)
                                        + InvertedDone(a, p, p + 1, c) + InvertedDone(a, p + 1, m, c)
    ensures SectionsOpen(a, b, m, c) == SectionsOpen(a, b, b + 1, c) + SectionsOpen(a, b + 1, p, c)
                                        + SectionsOpen(a, p, p + 1, c) + SectionsOpen(a, p + 1, m, c)
  {
    SplitCounts(a, b, b + 1, m, c);
    SplitCounts(a, b + 1, p, m, c);
    SplitCounts(a, p, p + 1, m, c);
  }

  /** Going back, the counter is never below zero where it is looked at, so an opening tag that would find it at zero
      or below is the reason for the answer, or one behind it is. */
  lemma {:induction false} EnclosedByNet(a: seq<Action>, c: nat, n: nat)
    requires c <= |a|
    ensures EnclosedFrom(a, c, n) <==> exists j :: 0 <= j < c && a[j].t == OpenBlock && n + Net(a, j + 1, c) <= 0
    decreases c
  {
    if c > 0 {
      var last := a[c - 1].t;
      var n' := if last == CloseBlock then n + 1 else if last == OpenBlock then n - 1 else n;
      assert Net(a, c, c) == 0;
      if n' >= 0 {
        EnclosedByNet(a, c - 1, n');
        assert forall j :: 0 <= j < c - 1 && a[j].t == OpenBlock ==> n + Net(a, j + 1, c) == n' + Net(a, j + 1, c - 1);
      }
    }
  }

  /** In nested tags the counter is moved by the inverted blocks that are over, against the sections still open. */
  lemma {:induction false} NetCounts(a: seq<Action>, b: nat, e: nat, m: nat, c: nat)
    requires b <= m <= e <= |a| && m <= c <= |a| && (m == c || m == e) && Linked(a, b, e)
    ensures Net(a, b, m) == InvertedDone(a, b, m, c) - SectionsOpen(a, b, m, c)
    decreases e - b
  {
    if b < m {
      if Opens(a[b].t) {
        var p := a[b].pos;
        if p < m {
          NetCounts(a, b + 1, p, p, c);
          NetCounts(a, p + 1, e, m, c);
          SplitBlock(a, b, p, m, c);
        } else {
          NetCounts(a, b + 1, p, m, c);
          SplitCounts(a, b, b + 1, m, c);
        }
      } else {
        NetCounts(a, b + 1, e, m, c);
        SplitCounts(a, b, b + 1, m, c);
      }
    }
  }

  /** If no section around c finds the counter at zero or below, no other section before c does. */
  lemma {:induction false} OnlyAround(a: seq<Action>, b: nat, e: nat, c: nat)
    requires b <= c <= e <= |a| && Linked(a, b, e)
    requires forall k :: b <= k < c && IsAround(a, k, c) ==> Net(a, k + 1, c) > 0
    ensures Net(a, b, c) >= 0
    ensures forall j :: b <= j < c && a[j].t == OpenBlock ==> Net(a, j + 1, c) > 0
    decreases e - b
  {
    if b < c {
      SplitCounts(a, b, b + 1, c, c);
      if Opens(a[b].t) {
        var p := a[b].pos;
        if p < c {
          InnerEnds(a, b + 1, p);
          OnlyAround(a, b + 1, p, p);
          OnlyAround(a, p + 1, e, c);
          SplitBlock(a, b, p, c, c);
          forall j | b + 1 <= j < p && a[j].t == OpenBlock ensures Net(a, j + 1, c) > 0 {
            SplitCounts(a, j + 1, p, c, c);
            SplitCounts(a, p, p + 1, c, c);
          }
        } else {
          OnlyAround(a, b + 1, p, c);
          assert a[b].t == OpenBlock ==> IsAround(a, b, c);
        }
      } else {
        OnlyAround(a, b + 1, e, c);
      }
    }
  }

  /** A block inside a nested range ends inside it, and what it holds is nested. */
  lemma {:induction false} InnerEnds(a: seq<Action>, b: nat, e: nat)
    requires b <= e <= |a| && Linked(a, b, e)
    ensures forall j :: b <= j < e && Opens(a[j].t) ==> j < a[j].pos < e && Linked(a, j + 1, a[j].pos)
    decreases e - b
  {
    if b < e {
      if Opens(a[b].t) {
        InnerEnds(a, b + 1, a[b].pos);
        InnerEnds(a, a[b].pos + 1, e);
      } else {
        InnerEnds(a, b + 1, e);
      }
    }
  }

  ghost predicate SectionAround(a: seq<Action>, c: nat) { exists j: nat :: IsAround(a, j, c) }

  /** A section around the tag with no more inverted blocks between the two, begun and over, than further sections
      around the tag. */
  ghost predicate NotHidden(a: seq<Action>, c: nat) {
    exists j: nat :: IsAround(a, j, c) && InvertedDone(a, j + 1, c, c) <= SectionsOpen(a, j + 1, c, c)
  }

  /** Every inverted block that is over hides one section from a tag behind it: the tag counts as enclosed exactly if
      some section around it is not hidden, so the answer is right exactly if there is such a section or none at all. */
  lemma EnclosedExactly(a: seq<Action>, c: nat)
    requires c <= |a| && Linked(a, 0, |a|)
    ensures EnclosedFrom(a, c, 0) <==> NotHidden(a, c)
    ensures (EnclosedFrom(a, c, 0) <==> SectionAround(a, c)) <==> (SectionAround(a, c) ==> NotHidden(a, c))
  {
    EnclosedByNet(a, c, 0);
    InnerEnds(a, 0, |a|);
    forall j: nat | IsAround(a, j, c)
      ensures Net(a, j + 1, c) == InvertedDone(a, j + 1, c, c) - SectionsOpen(a, j + 1, c, c)
    {
      NetCounts(a, j + 1, a[j].pos, c, c);
    }
    if !NotHidden(a, c) { OnlyAround(a, 0, |a|, c); }
    hide Linked, InvertedDone, SectionsOpen;
  }

  /** So with one section around it a tag counts as enclosed exactly if no inverted block is over since that began. */
  lemma OneSectionAround(a: seq<Action>, c: nat, j: nat)
    requires c <= |a| && Linked(a, 0, |a|)
    requires forall k: nat :: IsAround(a, k, c) <==> k == j
    ensures EnclosedFrom(a, c, 0) <==> forall k :: j < k < c && a[k].t == ElseBlock ==> c <= a[k].pos
  {
    EnclosedExactly(a, c);
    assert IsAround(a, j, c);
    NoneOpen(a, j + 1, c, c);
    NoneDone(a, j + 1, c, c);
  }

  lemma {:induction false} NoneOpen(a: seq<Action>, b: nat, m: nat, c: nat)
    requires b <= m <= |a| && forall k :: b <= k < m ==> !IsAround(a, k, c)
    ensures SectionsOpen(a, b, m, c) == 0
  {
    if b < m { NoneOpen(a, b, m - 1, c); }
  }

  lemma {:induction false} NoneDone(a: seq<Action>, b: nat, m: nat, c: nat)
    requires b <= m <= |a|
    ensures InvertedDone(a, b, m, c) == 0 <==> forall k :: b <= k < m && a[k].t == ElseBlock ==> c <= a[k].pos
  {
    if b < m { NoneDone(a, b, m - 1, c); }
  }

  /** And without inverted blocks the answer is always right. */
  lemma EnclosedMeansInASection(a: seq<Action>, c: nat)
    requires c <= |a| && Linked(a, 0, |a|) && forall k :: 0 <= k < |a| ==> a[k].t != ElseBlock
    ensures EnclosedFrom(a, c, 0) <==> SectionAround(a, c)
  {
    EnclosedExactly(a, c);
    forall j: nat | IsAround(a, j, c) ensures InvertedDone(a, j + 1, c, c) == 0 { NoneDone(a, j + 1, c, c); }
  }

  /** One section with a dotted name in it: {{#a}}{{{x.y}}}{{/a}}. */
  function PlainSection(): seq<Action> {
    [Action(OpenBlock, "a", true, 2), Action(UnescapeTag, "x.y", false, 0), Action(CloseBlock, "a", true, 0)]
  }

  /** The same with an empty inverted block in front of the name: {{#a}}{{^b}}{{/b}}{{{x.y}}}{{/a}}. */
  function HiddenSection(): seq<Action> {
    [Action(OpenBlock, "a", true, 4), Action(ElseBlock, "b", true, 2), Action(CloseBlock, "b", true, 1),
     Action(UnescapeTag, "x.y", false, 0), Action(CloseBlock, "a", true, 0)]
  }

  lemma InvertedBlockHidesTheSection()
    ensures var a := HiddenSection(); Linked(a, 0, |a|) && SectionAround(a, 3) && !EnclosedFrom(a, 3, 0)
    ensures var a := PlainSection(); Linked(a, 0, |a|) && EnclosedFrom(a, 1, 0)
  {
    var a := HiddenSection();
    assert Linked(a, 2, 2) && Linked(a, 4, 4) && Linked(a, 3, 4) && Linked(a, 1, 4) && Linked(a, 5, 5);
    assert IsAround(a, 0, 3);
    assert !EnclosedFrom(a, 0, 0);
    assert !EnclosedFrom(a, 1, 1) && !EnclosedFrom(a, 2, 1);
    var b := PlainSection();
    assert Linked(b, 2, 2) && Linked(b, 1, 2) && Linked(b, 3, 3);
  }
}
