/**
 Rendering a compiled template: one index moves over the flat array of actions, jumping over hidden blocks, pushing a
 context when it enters a block and popping it at the block's closing tag; only lists are rendered by recursion.
 The output is that of rendering the tree, and the stack is left as it was found.
 */
module MustacheRender {
  import opened Mustache
  import opened MustacheTemplate

  /** What is still to be shown from c to the end of the innermost stretch, its last fragment included. */
  ghost function RenderRange(a: seq<Action>, fragments: seq<string>, c: nat, e: nat, stack: seq<Context>): Rendered
    requires c <= e <= |a| && |a| < |fragments| && Linked(a, c, e) && stack != []
  {
    Join(Render(Nodes(a, fragments, c, e), stack), Shown(fragments[e]))
  }

  /** Where the innermost stretch ends: at the closing tag of the block entered last. */
  function StretchEnd(a: seq<Action>, entered: seq<nat>, end: nat): nat
    requires forall k :: 0 <= k < |entered| ==> entered[k] < |a|
  {
    if entered == [] then end else a[entered[|entered| - 1]].pos
  }

  /** The blocks entered without recursion, innermost last: what follows each of them is nested. */
  ghost predicate Pending(a: seq<Action>, entered: seq<nat>, c: nat, end: nat)
    decreases |entered|
  {
    && (forall k :: 0 <= k < |entered| ==> entered[k] < |a|)
    && c <= StretchEnd(a, entered, end) <= |a| && end <= |a|
    && Linked(a, c, StretchEnd(a, entered, end))
    && (entered != [] ==>
          var p := StretchEnd(a, entered, end);
          p < |a| && a[p].t == CloseBlock && p < end && Pending(a, entered[..|entered| - 1], p + 1, end))
  }

  /** All that is still to be shown: the innermost stretch, then what follows each entered block with its context
      taken off the stack. */
  ghost function Remaining(a: seq<Action>, fragments: seq<string>, entered: seq<nat>, c: nat, end: nat,
                           stack: seq<Context>): Rendered
    requires Pending(a, entered, c, end) && |a| < |fragments| && |stack| > |entered|
    decreases |entered|, 1
  {
    Join(RenderRange(a, fragments, c, StretchEnd(a, entered, end), stack), After(a, fragments, entered, end, stack))
  }

  /** What follows the closing tag of the innermost entered block. */
  ghost function After(a: seq<Action>, fragments: seq<string>, entered: seq<nat>, end: nat,
                       stack: seq<Context>): Rendered
    requires (exists c :: Pending(a, entered, c, end)) && |a| < |fragments| && |stack| > |entered|
    decreases |entered|, 0
  {
    if entered == [] then Shown("")
    else Remaining(a, fragments, entered[..|entered| - 1], StretchEnd(a, entered, end) + 1, end, stack[..|stack| - 1])
  }

  lemma JoinFailed(t: Rendered)
    ensures Join(Failed, t) == Failed
  {
  }

  lemma JoinStep(o: Rendered, x: Rendered, r: Rendered, t: Rendered)
    ensures Join(o, Join(Join(x, r), t)) == Join(Join(o, x), Join(r, t))
  {
    JoinAssociative(x, r, t);
    JoinAssociative(o, x, Join(r, t));
  }

  // ---- One step over an action ----

  /** What a variable shows. */
  function ShowVariable(a: seq<Action>, c: nat, stack: seq<Context>): Rendered
    requires c < |a| && stack != []
  {
    RenderValue(FindContext(a[c].name, stack, EnclosedFrom(a, c, 0) && stack[|stack| - 1].Object?), a[c].t == Tag)
  }

  lemma RangeVariable(a: seq<Action>, fragments: seq<string>, c: nat, e: nat, stack: seq<Context>)
    requires c < e <= |a| && |a| < |fragments| && Linked(a, c, e) && stack != []
    requires a[c].t == Tag || a[c].t == UnescapeTag
    ensures RenderRange(a, fragments, c, e, stack)
         == Join(Join(Shown(fragments[c]), ShowVariable(a, c, stack)), RenderRange(a, fragments, c + 1, e, stack))
  {
    assert Linked(a, c + 1, e);
    hide FindContext, RenderValue, EnclosedFrom, Linked;
    var nodes := Nodes(a, fragments, c, e);
    assert nodes[1..] == Nodes(a, fragments, c + 1, e);
    JoinAssociative(RenderNode(nodes[0], stack), Render(nodes[1..], stack), Shown(fragments[e]));
  }

  lemma RangeIgnore(a: seq<Action>, fragments: seq<string>, c: nat, e: nat, stack: seq<Context>)
    requires c < e <= |a| && |a| < |fragments| && Linked(a, c, e) && stack != [] && a[c].t == Ignore
    ensures RenderRange(a, fragments, c, e, stack)
         == Join(Shown(fragments[c]), RenderRange(a, fragments, c + 1, e, stack))
  {
    assert Linked(a, c + 1, e);
    hide Linked;
    var nodes := Nodes(a, fragments, c, e);
    assert nodes[1..] == Nodes(a, fragments, c + 1, e);
    JoinAssociative(RenderNode(nodes[0], stack), Render(nodes[1..], stack), Shown(fragments[e]));
    JoinEmpty(Shown(fragments[c]));
  }

  /** The body of the block opened at c, once for each of the given contexts. */
  ghost function RenderEach(a: seq<Action>, fragments: seq<string>, c: nat, instances: seq<Context>,
                            stack: seq<Context>): Rendered
    requires c < |a| && c < a[c].pos < |a| < |fragments| && Linked(a, c + 1, a[c].pos) && stack != []
    decreases |instances|
  {
    if instances == [] then Shown("")
    else
      Join(RenderRange(a, fragments, c + 1, a[c].pos, stack + [instances[0]]),
           RenderEach(a, fragments, c, instances[1..], stack))
  }

  lemma {:induction false} EachIsBodies(a: seq<Action>, fragments: seq<string>, c: nat, instances: seq<Context>,
                                        stack: seq<Context>, n: Node)
    requires c < |a| && c < a[c].pos < |a| < |fragments| && Linked(a, c + 1, a[c].pos) && stack != []
    requires n.Block? && n.body == Nodes(a, fragments, c + 1, a[c].pos) && n.tail == fragments[a[c].pos]
    ensures RenderEach(a, fragments, c, instances, stack) == RenderBodies(n, instances, stack)
    decreases |instances|
  {
    if instances != [] {
      EachIsBodies(a, fragments, c, instances[1..], stack, n);
    }
  }

  lemma RangeBlock(a: seq<Action>, fragments: seq<string>, c: nat, e: nat, stack: seq<Context>)
    requires c < e <= |a| && |a| < |fragments| && Linked(a, c, e) && stack != [] && Opens(a[c].t)
    ensures c < a[c].pos < e && Linked(a, c + 1, a[c].pos) && Linked(a, a[c].pos + 1, e)
    ensures a[a[c].pos].t == CloseBlock
    ensures var instances := Instances(FindContext(a[c].name, stack, false), a[c].t == ElseBlock);
            RenderRange(a, fragments, c, e, stack)
            == Join(Shown(fragments[c]),
                    Join(RenderEach(a, fragments, c, instances, stack),
                         RenderRange(a, fragments, a[c].pos + 1, e, stack)))
  {
    hide FindContext, Instances;
    var p := a[c].pos;
    var nodes := Nodes(a, fragments, c, e);
    var instances := Instances(FindContext(a[c].name, stack, false), a[c].t == ElseBlock);
    hide Linked;
    assert nodes[1..] == Nodes(a, fragments, p + 1, e);
    EachIsBodies(a, fragments, c, instances, stack, nodes[0]);
    var bodies := RenderBodies(nodes[0], instances, stack);
    JoinAssociative(RenderNode(nodes[0], stack), Render(nodes[1..], stack), Shown(fragments[e]));
    JoinAssociative(Shown(fragments[c]), bodies, RenderRange(a, fragments, p + 1, e, stack));
  }

  // ---- Looking a name up, going down the stack ----

  method WalkDown(start: Context, names: seq<string>) returns (hit: Lookup)
    ensures hit == Walk(start, names)
  {
    var view := start;
    var j := 0;
    assert names[0..] == names;
    while j < |names|
      invariant 0 <= j <= |names|
      invariant Walk(start, names) == Walk(view, names[j..])
    {
      if view.Object? && names[j] in view.members {
        view := view.members[names[j]];
        assert names[j..][1..] == names[j + 1..];
      } else {
        return Missing;
      }
      j := j + 1;
    }
    hit := Lookup.Found(view);
  }

  method FindContextInStack(name: string, stack: seq<Context>, onlyTop: bool) returns (hit: Lookup)
    requires stack != []
    ensures hit == FindContext(name, stack, onlyTop)
  {
    if name == "." {
      return Lookup.Found(stack[|stack| - 1]);
    }
    var names := SplitDots(name);
    var it := |stack|;
    assert stack[..it] == stack;
    while it > 0
      invariant 0 <= it <= |stack|
      invariant FindContext(name, stack, onlyTop) == FindIn(stack[..it], names, onlyTop)
    {
      assert stack[..it][..it - 1] == stack[..it - 1];
      hit := WalkDown(stack[it - 1], names);
      if hit.Found? || (onlyTop && |names| > 1) {
        return;
      }
      it := it - 1;
    }
    hit := Missing;
  }

  method EscapeText(s: string) returns (out: string)
    ensures out == EscapeHtml(s)
  {
    out := "";
    var i := 0;
    assert s[0..] == s;
    while i < |s|
      invariant 0 <= i <= |s|
      invariant out + EscapeHtml(s[i..]) == EscapeHtml(s)
    {
      assert s[i..][1..] == s[i + 1..];
      assert out + (EscapeHtmlChar(s[i]) + EscapeHtml(s[i + 1..]))
          == out + EscapeHtmlChar(s[i]) + EscapeHtml(s[i + 1..]);
      out := out + EscapeHtmlChar(s[i]);
      i := i + 1;
    }
  }

  /** The context stack and the output, both shared by reference. */
  class Renderer {
    const actions: seq<Action>
    const fragments: seq<string>
    var stack: seq<Context>
    var out: string

    ghost predicate Valid() {
      |fragments| == |actions| + 1
    }

    constructor (actions: seq<Action>, fragments: seq<string>, ctx: Context)
      requires |fragments| == |actions| + 1
      ensures Valid() && stack == [ctx] && out == ""
      ensures this.actions == actions && this.fragments == fragments
    {
      this.actions, this.fragments := actions, fragments;
      stack, out := [ctx], "";
    }

    method IsTagInsideObjectBlock(current: nat) returns (inside: bool)
      requires current <= |actions| && stack != []
      ensures inside == (EnclosedFrom(actions, current, 0) && stack[|stack| - 1].Object?)
    {
      var openedBlock := 0;
      var i := current;
      while i > 0
        invariant 0 <= i <= current
        invariant stack[|stack| - 1].Object? ==>
                    (EnclosedFrom(actions, current, 0) <==> EnclosedFrom(actions, i, openedBlock))
      {
        if actions[i - 1].t == OpenBlock {
          if openedBlock == 0 && stack[|stack| - 1].Object? {
            return true;
          }
          openedBlock := openedBlock - 1;
        } else if actions[i - 1].t == CloseBlock {
          openedBlock := openedBlock + 1;
        }
        i := i - 1;
      }
      inside := false;
    }

    /** Appends what a variable shows, or reports the exception. */
    method RenderTag(current: nat) returns (ok: bool)
      requires Valid() && current < |actions| && stack != []
      requires actions[current].t == Tag || actions[current].t == UnescapeTag
      modifies this`out
      ensures Join(Shown(old(out)), ShowVariable(actions, current, stack)) == if ok then Shown(out) else Failed
    {
      var onlyTop := IsTagInsideObjectBlock(current);
      var hit := FindContextInStack(actions[current].name, stack, onlyTop);
      ok := true;
      match hit
      case Missing =>
        assert out + "" == out;
      case Found(ctx) =>
        match ctx
        case False => out := out + "false";
        case True => out := out + "true";
        case Number(text) => out := out + text;
        case Text(s) =>
          if actions[current].t == Tag {
            var escaped := EscapeText(s);
            out := out + escaped;
          } else {
            out := out + s;
          }
        case _ => ok := false;
    }

    /** Renders a list block once per element, with the element on the stack for the time of the call. */
    method RenderList(current: nat, items: seq<Context>) returns (ok: bool)
      requires Valid() && stack != [] && current < |actions| && current < actions[current].pos < |actions|
      requires Linked(actions, current + 1, actions[current].pos)
      modifies this`stack, this`out
      ensures Join(Shown(old(out)), RenderEach(actions, fragments, current, items, old(stack)))
           == if ok then Shown(out) else Failed
      ensures ok ==> stack == old(stack)
      decreases actions[current].pos - current, 0
    {
      hide Linked, RenderRange;
      var it := 0;
      ok := true;
      assert items[0..] == items;
      while it < |items|
        invariant 0 <= it <= |items| && stack == old(stack)
        invariant Join(Shown(old(out)), RenderEach(actions, fragments, current, items, stack))
               == Join(Shown(out), RenderEach(actions, fragments, current, items[it..], stack))
      {
        ghost var before := out;
        assert items[it..][1..] == items[it + 1..];
        stack := stack + [items[it]];
        ok := RenderInternal(current + 1, actions[current].pos);
        JoinAssociative(Shown(before),
                        RenderRange(actions, fragments, current + 1, actions[current].pos, old(stack) + [items[it]]),
                        RenderEach(actions, fragments, current, items[it + 1..], old(stack)));
        if !ok {
          return;
        }
        stack := stack[..|stack| - 1];
        it := it + 1;
      }
      JoinEmpty(Shown(out));
    }

    /** One turn of the loop: the fragment in front of the action, and the action.  The next action may be the one
        after a block that was skipped or rendered by recursion. */
    method RenderAction(current: nat, end: nat, ghost entered: seq<nat>)
      returns (ok: bool, next: nat, ghost entered': seq<nat>)
      requires Valid() && Pending(actions, entered, current, end) && current < end && |stack| > |entered|
      modifies this`stack, this`out
      ensures !ok ==> Join(Shown(old(out)), Remaining(actions, fragments, entered, current, end, old(stack))) == Failed
      ensures ok ==>
                && current < next && Pending(actions, entered', next, end) && |stack| > |entered'|
                && |stack| - |entered'| == old(|stack|) - |entered|
                && stack[..|stack| - |entered'|] == old(stack)[..|stack| - |entered'|]
                && Join(Shown(old(out)), Remaining(actions, fragments, entered, current, end, old(stack)))
                   == Join(Shown(out), Remaining(actions, fragments, entered', next, end, stack))
      decreases end - current, 2
    {
      assert current < |actions| && StretchEnd(actions, entered, end) <= |actions|;
      hide Remaining, RenderRange, Linked, After, Pending, StretchEnd;
      ghost var o := Shown(out);
      ghost var e := StretchEnd(actions, entered, end);
      ghost var rest := After(actions, fragments, entered, end, stack);
      var action := actions[current];
      ok, next, entered' := true, current + 1, entered;
      if action.t == CloseBlock {
        entered' := RenderClose(current, end, entered);
        return;
      }
      NotAtClose(actions, entered, current, end);
      out := out + fragments[current];
      match action.t
      case Ignore =>
        PlainStep(actions, fragments, entered, current, end, stack);
        RangeIgnore(actions, fragments, current, e, stack);
        JoinStep(o, Shown(fragments[current]), RenderRange(actions, fragments, current + 1, e, stack), rest);
      case Tag =>
        PlainStep(actions, fragments, entered, current, end, stack);
        ok := RenderTagAt(current, e, o, rest);
      case UnescapeTag =>
        PlainStep(actions, fragments, entered, current, end, stack);
        ok := RenderTagAt(current, e, o, rest);
      case OpenBlock =>
        ok, next, entered' := RenderOpenBlock(current, end, entered, o);
      case ElseBlock =>
        ok, next, entered' := RenderElseBlock(current, end, entered, o);
    }

    /** The end of a block that was entered takes its context off the stack. */
    method RenderClose(current: nat, end: nat, ghost entered: seq<nat>) returns (ghost entered': seq<nat>)
      requires Valid() && Pending(actions, entered, current, end) && current < end && |stack| > |entered|
      requires actions[current].t == CloseBlock
      modifies this`stack, this`out
      ensures entered != [] && entered' == entered[..|entered| - 1] && stack == old(stack)[..|old(stack)| - 1]
      ensures Pending(actions, entered', current + 1, end)
      ensures Join(Shown(old(out)), Remaining(actions, fragments, entered, current, end, old(stack)))
           == Join(Shown(out), Remaining(actions, fragments, entered', current + 1, end, stack))
    {
      assert current < |actions|;
      hide Remaining, Pending;
      CloseStep(actions, fragments, entered, current, end, stack, Shown(out));
      out := out + fragments[current];
      stack := stack[..|stack| - 1];
      entered' := entered[..|entered| - 1];
    }

    method RenderTagAt(current: nat, ghost e: nat, ghost o: Rendered, ghost rest: Rendered) returns (ok: bool)
      requires Valid() && current < e <= |actions| && stack != [] && Linked(actions, current, e)
      requires actions[current].t == Tag || actions[current].t == UnescapeTag
      requires o.Shown? && out == o.text + fragments[current]
      modifies this`out
      ensures Linked(actions, current + 1, e)
      ensures Join(o, Join(RenderRange(actions, fragments, current, e, stack), rest))
           == if ok then Join(Shown(out), Join(RenderRange(actions, fragments, current + 1, e, stack), rest))
              else Failed
    {
      assert Linked(actions, current + 1, e);
      hide Linked, RenderRange, ShowVariable;
      RangeVariable(actions, fragments, current, e, stack);
      ghost var frag, shown := Shown(fragments[current]), ShowVariable(actions, current, stack);
      JoinStep(o, Join(frag, shown), RenderRange(actions, fragments, current + 1, e, stack), rest);
      JoinAssociative(o, frag, shown);
      ok := RenderTag(current);
    }

    /** An inverted block: entered with an empty context on the stack when its name is missing, false, null or an
        empty list, skipped otherwise. */
    method RenderElseBlock(current: nat, end: nat, ghost entered: seq<nat>, ghost o: Rendered)
      returns (ok: bool, next: nat, ghost entered': seq<nat>)
      requires Valid() && Pending(actions, entered, current, end) && |stack| > |entered|
      requires current < StretchEnd(actions, entered, end) && actions[current].t == ElseBlock
      requires o.Shown? && Join(o, Shown(fragments[current])) == Shown(out)
      modifies this`stack, this`out
      ensures !ok ==> Join(o, Remaining(actions, fragments, entered, current, end, old(stack))) == Failed
      ensures ok ==>
                && (if entered' == entered then stack == old(stack)
                    else
                      && entered' == entered + [current] && |stack| == |old(stack)| + 1
                      && stack[..|old(stack)|] == old(stack))
                && current < next && Pending(actions, entered', next, end)
                && Join(o, Remaining(actions, fragments, entered, current, end, old(stack)))
                   == Join(Shown(out), Remaining(actions, fragments, entered', next, end, stack))
    {
      var action := actions[current];
      hide Pending, Remaining, Linked, FindContext;
      var hit := FindContextInStack(action.name, stack, false);
      var enter := true;
      match hit {
        case Missing =>
        case Found(ctx) =>
          match ctx {
            case List(items) => enter := items == [];
            case False =>
            case NullValue =>
            case _ => enter := false;
          }
      }
      ok := true;
      if enter {
        entered' := entered + [current];
        next := current + 1;
        EnterBlock(current, end, NullValue, entered, o);
      } else {
        BlockSkipped(actions, fragments, entered, current, end, stack, o);
        entered' := entered;
        next := action.pos + 1;
      }
    }

    /** A plain block: a list is rendered once per element, another value is pushed and the block entered, and a
        missing, false or null name skips it. */
    method RenderOpenBlock(current: nat, end: nat, ghost entered: seq<nat>, ghost o: Rendered)
      returns (ok: bool, next: nat, ghost entered': seq<nat>)
      requires Valid() && Pending(actions, entered, current, end) && |stack| > |entered|
      requires current < StretchEnd(actions, entered, end) && actions[current].t == OpenBlock
      requires o.Shown? && Join(o, Shown(fragments[current])) == Shown(out)
      modifies this`stack, this`out
      ensures !ok ==> Join(o, Remaining(actions, fragments, entered, current, end, old(stack))) == Failed
      ensures ok ==>
                && (if entered' == entered then stack == old(stack)
                    else
                      && entered' == entered + [current] && |stack| == |old(stack)| + 1
                      && stack[..|old(stack)|] == old(stack))
                && current < next && Pending(actions, entered', next, end)
                && Join(o, Remaining(actions, fragments, entered, current, end, old(stack)))
                   == Join(Shown(out), Remaining(actions, fragments, entered', next, end, stack))
      decreases end - current, 1
    {
      var action := actions[current];
      hide Pending, Remaining, Linked, FindContext, RenderEach, Join;
      var hit := FindContextInStack(action.name, stack, false);
      if hit.Found? && hit.ctx.List? {
        entered' := entered;
        next := action.pos + 1;
        ok := RenderListBlock(current, end, hit.ctx.items, entered, o);
      } else if hit.Missing? || hit.ctx.False? || hit.ctx.NullValue? {
        BlockSkipped(actions, fragments, entered, current, end, stack, o);
        ok, entered' := true, entered;
        next := action.pos + 1;
      } else {
        ok, next, entered' := true, current + 1, entered + [current];
        EnterBlock(current, end, hit.ctx, entered, o);
      }
    }

    /** Goes into a block with one context on top of the stack. */
    method EnterBlock(current: nat, end: nat, ctx: Context, ghost entered: seq<nat>, ghost o: Rendered)
      requires Valid() && Pending(actions, entered, current, end) && |stack| > |entered|
      requires current < StretchEnd(actions, entered, end) && Opens(actions[current].t)
      requires Instances(FindContext(actions[current].name, stack, false), actions[current].t == ElseBlock) == [ctx]
      requires o.Shown? && Join(o, Shown(fragments[current])) == Shown(out)
      modifies this`stack
      ensures |stack| == |old(stack)| + 1 && stack[..|old(stack)|] == old(stack)
      ensures Pending(actions, entered + [current], current + 1, end)
      ensures Join(o, Remaining(actions, fragments, entered, current, end, old(stack)))
           == Join(Shown(out), Remaining(actions, fragments, entered + [current], current + 1, end, stack))
    {
      hide Pending, Remaining, Linked, FindContext, Join;
      BlockEntered(actions, fragments, entered, current, end, stack, o, ctx);
      stack := stack + [ctx];
    }

    /** A plain block over a list. */
    method RenderListBlock(current: nat, end: nat, items: seq<Context>, ghost entered: seq<nat>, ghost o: Rendered)
      returns (ok: bool)
      requires Valid() && Pending(actions, entered, current, end) && |stack| > |entered|
      requires current < StretchEnd(actions, entered, end) && actions[current].t == OpenBlock
      requires FindContext(actions[current].name, stack, false) == Lookup.Found(List(items))
      requires o.Shown? && Join(o, Shown(fragments[current])) == Shown(out)
      modifies this`stack, this`out
      ensures current < actions[current].pos < end && Pending(actions, entered, actions[current].pos + 1, end)
      ensures !ok ==> Join(o, Remaining(actions, fragments, entered, current, end, old(stack))) == Failed
      ensures ok ==>
                && stack == old(stack)
                && Join(o, Remaining(actions, fragments, entered, current, end, old(stack)))
                   == Join(Shown(out), Remaining(actions, fragments, entered, actions[current].pos + 1, end, stack))
      decreases end - current, 0
    {
      assert current < end <= |actions|;
      hide Pending, Remaining, Linked, FindContext, RenderEach;
      BlockBehind(actions, fragments, entered, current, end, stack, o, items);
      JoinFailed(Remaining(actions, fragments, entered, actions[current].pos + 1, end, stack));
      hide Join;
      ok := RenderList(current, items);
    }

    /** render_internal: what is appended is the rendering of the tree of the range, the exception is thrown exactly
        when the tree cannot be shown, and the stack is as it was. */
    method RenderInternal(begin: nat, end: nat) returns (ok: bool)
      requires Valid() && begin <= end <= |actions| && Linked(actions, begin, end) && stack != []
      modifies this`stack, this`out
      ensures Join(Shown(old(out)), RenderRange(actions, fragments, begin, end, old(stack)))
           == if ok then Shown(out) else Failed
      ensures ok ==> stack == old(stack)
      decreases end - begin, 3
    {
      var current := begin;
      ghost var entered: seq<nat> := [];
      JoinEmpty(RenderRange(actions, fragments, begin, end, stack));
      while current < end
        invariant begin <= current && Pending(actions, entered, current, end) && |stack| > |entered|
        invariant |stack| - |entered| == |old(stack)| && stack[..|old(stack)|] == old(stack)
        invariant Join(Shown(old(out)), RenderRange(actions, fragments, begin, end, old(stack)))
               == Join(Shown(out), Remaining(actions, fragments, entered, current, end, stack))
        decreases end - current
      {
        hide RenderRange, Remaining;
        ok, current, entered := RenderAction(current, end, entered);
        if !ok {
          return;
        }
      }
      assert entered == [] && current == end && stack == old(stack);
      JoinEmpty(Shown(fragments[end]));
      out := out + fragments[end];
      ok := true;
    }
  }

  /** render_string: the whole template against one context. */
  method RenderString(actions: seq<Action>, fragments: seq<string>, ctx: Context) returns (r: Rendered)
    requires |fragments| == |actions| + 1 && Linked(actions, 0, |actions|)
    ensures r == Join(Render(Nodes(actions, fragments, 0, |actions|), [ctx]), Shown(fragments[|actions|]))
  {
    var renderer := new Renderer(actions, fragments, ctx);
    JoinEmpty(RenderRange(actions, fragments, 0, |actions|, [ctx]));
    var ok := renderer.RenderInternal(0, |fragments| - 1);
    r := if ok then Shown(renderer.out) else Failed;
  }

  /** Compiles the tags and renders them: refused exactly when they are not those of a tree.  Otherwise linked is the
      array with these tags, its tree has them and the fragments in their places, and the output is the rendering of
      that tree. */
  method CompileAndRender(tags: seq<SourceTag>, fragments: seq<string>, ctx: Context)
    returns (r: Rendered, compiled: bool, ghost linked: seq<Action>)
    requires |fragments| == |tags| + 1
    ensures compiled <==> Accepts(tags, [])
    ensures compiled ==>
              && |linked| == |tags| && SourcesOf(linked) == tags && Linked(linked, 0, |linked|)
              && var nodes := Nodes(linked, fragments, 0, |linked|);
              && TagsOf(nodes) == tags && TextsOf(nodes) + [fragments[|tags|]] == fragments
              && r == Join(Render(nodes, [ctx]), Shown(fragments[|tags|]))
  {
    hide Verdict, Linked, Render, TagsOf, TextsOf, Nodes;
    var template := new Template();
    var outcome := template.Parse(tags);
    linked := template.actions;
    if !outcome.Compiled? {
      return Failed, false, linked;
    }
    assert |linked| == |tags|;
    LinkedIsTree(linked, fragments);
    r := RenderString(template.actions, fragments, ctx);
    compiled := true;
  }

  lemma NotAtClose(a: seq<Action>, entered: seq<nat>, c: nat, end: nat)
    requires Pending(a, entered, c, end) && c < end && a[c].t != CloseBlock
    ensures c < StretchEnd(a, entered, end) && Linked(a, c, StretchEnd(a, entered, end))
  {
    hide Linked;
  }

  /** A step over an action that is no end of a block stays in the same stretch. */
  lemma PlainStep(a: seq<Action>, fragments: seq<string>, entered: seq<nat>, c: nat, end: nat, stack: seq<Context>)
    requires Pending(a, entered, c, end) && |a| < |fragments| && |stack| > |entered|
    requires c < StretchEnd(a, entered, end) && !Opens(a[c].t)
    ensures Pending(a, entered, c + 1, end) && Linked(a, c + 1, StretchEnd(a, entered, end))
    ensures forall k :: c <= k <= c + 1 ==>
              Pending(a, entered, k, end) && Linked(a, k, StretchEnd(a, entered, end))
              && Remaining(a, fragments, entered, k, end, stack)
              == Join(RenderRange(a, fragments, k, StretchEnd(a, entered, end), stack),
                      After(a, fragments, entered, end, stack))
  {
    hide RenderRange, After;
  }

  /** At the closing tag of the block entered last. */
  lemma CloseStep(a: seq<Action>, fragments: seq<string>, entered: seq<nat>, c: nat, end: nat, stack: seq<Context>,
                  o: Rendered)
    requires Pending(a, entered, c, end) && c < end && |a| < |fragments| && |stack| > |entered|
    requires a[c].t == CloseBlock
    ensures entered != [] && c == StretchEnd(a, entered, end)
    ensures Pending(a, entered[..|entered| - 1], c + 1, end)
    ensures Join(o, Remaining(a, fragments, entered, c, end, stack))
         == Join(Join(o, Shown(fragments[c])),
                 Remaining(a, fragments, entered[..|entered| - 1], c + 1, end, stack[..|stack| - 1]))
  {
    JoinEmpty(Shown(fragments[c]));
    JoinAssociative(o, Shown(fragments[c]),
                    Remaining(a, fragments, entered[..|entered| - 1], c + 1, end, stack[..|stack| - 1]));
  }

  lemma BlockPending(a: seq<Action>, entered: seq<nat>, c: nat, end: nat)
    requires Pending(a, entered, c, end) && c < StretchEnd(a, entered, end) && Opens(a[c].t)
    ensures c < a[c].pos < StretchEnd(a, entered, end) <= end
    ensures Linked(a, c + 1, a[c].pos) && Linked(a, a[c].pos + 1, StretchEnd(a, entered, end))
    ensures Pending(a, entered, a[c].pos + 1, end) && Pending(a, entered + [c], c + 1, end)
  {
    var p := a[c].pos;
    assert Pending(a, entered, p + 1, end);
    assert (entered + [c])[..|entered|] == entered;
    assert StretchEnd(a, entered + [c], end) == p;
    hide Linked;
    assert Pending(a, entered + [c], c + 1, end);
  }

  /** Rendering a block for its instances and going on behind it. */
  lemma BlockBehind(a: seq<Action>, fragments: seq<string>, entered: seq<nat>, c: nat, end: nat, stack: seq<Context>,
                    o: Rendered, instances: seq<Context>)
    requires Pending(a, entered, c, end) && |a| < |fragments| && |stack| > |entered|
    requires c < StretchEnd(a, entered, end) && Opens(a[c].t)
    requires instances == Instances(FindContext(a[c].name, stack, false), a[c].t == ElseBlock)
    ensures c < a[c].pos < end && Linked(a, c + 1, a[c].pos)
    ensures Pending(a, entered, a[c].pos + 1, end)
    ensures Join(o, Remaining(a, fragments, entered, c, end, stack))
         == Join(Join(Join(o, Shown(fragments[c])), RenderEach(a, fragments, c, instances, stack)),
                 Remaining(a, fragments, entered, a[c].pos + 1, end, stack))
  {
    BlockPending(a, entered, c, end);
    var e := StretchEnd(a, entered, end);
    assert end <= |a| && stack != [] && Linked(a, c, e) && Pending(a, entered, c, end);
    hide Pending, Linked, FindContext, Instances, RenderRange, RenderEach, Join, After, Remaining, StretchEnd;
    RemainingIs(a, fragments, entered, c, end, stack);
    RemainingIs(a, fragments, entered, a[c].pos + 1, end, stack);
    RangeBlock(a, fragments, c, e, stack);
    JoinBehind(o, Shown(fragments[c]), RenderEach(a, fragments, c, instances, stack),
               RenderRange(a, fragments, a[c].pos + 1, e, stack), After(a, fragments, entered, end, stack));
  }

  lemma RemainingIs(a: seq<Action>, fragments: seq<string>, entered: seq<nat>, c: nat, end: nat, stack: seq<Context>)
    requires Pending(a, entered, c, end) && |a| < |fragments| && |stack| > |entered|
    requires c <= StretchEnd(a, entered, end) && Linked(a, c, StretchEnd(a, entered, end))
    ensures Remaining(a, fragments, entered, c, end, stack)
         == Join(RenderRange(a, fragments, c, StretchEnd(a, entered, end), stack),
                 After(a, fragments, entered, end, stack))
  {
    hide Join, RenderRange, After, Linked, Pending;
  }

  lemma JoinBehind(o: Rendered, frag: Rendered, each: Rendered, next: Rendered, rest: Rendered)
    ensures Join(o, Join(Join(frag, Join(each, next)), rest)) == Join(Join(Join(o, frag), each), Join(next, rest))
  {
    JoinAssociative(frag, each, next);
    JoinStep(o, Join(frag, each), next, rest);
    JoinAssociative(o, frag, each);
  }

  /** Entering a block with one context. */
  lemma BlockInside(a: seq<Action>, fragments: seq<string>, entered: seq<nat>, c: nat, end: nat, stack: seq<Context>,
                    of: Rendered, ctx: Context)
    requires Pending(a, entered, c, end) && |a| < |fragments| && |stack| > |entered|
    requires c < StretchEnd(a, entered, end) && Opens(a[c].t)
    ensures c < a[c].pos < end && Linked(a, c + 1, a[c].pos)
    ensures Pending(a, entered, a[c].pos + 1, end) && Pending(a, entered + [c], c + 1, end)
    ensures Join(Join(of, RenderEach(a, fragments, c, [ctx], stack)),
                 Remaining(a, fragments, entered, a[c].pos + 1, end, stack))
         == Join(of, Remaining(a, fragments, entered + [c], c + 1, end, stack + [ctx]))
  {
    var p := a[c].pos;
    BlockPending(a, entered, c, end);
    var inner := RenderRange(a, fragments, c + 1, p, stack + [ctx]);
    assert [ctx][1..] == [];
    JoinEmpty(inner);
    assert RenderEach(a, fragments, c, [ctx], stack) == inner;
    var behind := Remaining(a, fragments, entered, p + 1, end, stack);
    hide Pending, Linked, RenderRange, RenderEach;
    assert After(a, fragments, entered + [c], end, stack + [ctx]) == behind by {
      assert (entered + [c])[..|entered|] == entered;
      assert (stack + [ctx])[..|stack|] == stack;
      assert StretchEnd(a, entered + [c], end) == p;
    }
    assert StretchEnd(a, entered + [c], end) == p;
    JoinAssociative(of, inner, behind);
  }

  /** A block with no instance is jumped over. */
  lemma BlockSkipped(a: seq<Action>, fragments: seq<string>, entered: seq<nat>, c: nat, end: nat, stack: seq<Context>,
                     o: Rendered)
    requires Pending(a, entered, c, end) && |a| < |fragments| && |stack| > |entered|
    requires c < StretchEnd(a, entered, end) && Opens(a[c].t)
    requires Instances(FindContext(a[c].name, stack, false), a[c].t == ElseBlock) == []
    ensures c < a[c].pos < end && Pending(a, entered, a[c].pos + 1, end)
    ensures Join(o, Remaining(a, fragments, entered, c, end, stack))
         == Join(Join(o, Shown(fragments[c])), Remaining(a, fragments, entered, a[c].pos + 1, end, stack))
  {
    BlockBehind(a, fragments, entered, c, end, stack, o, []);
    hide Remaining, Pending, Join, Instances, FindContext;
    JoinEmpty(Join(o, Shown(fragments[c])));
  }

  /** A block with one instance may be entered. */
  lemma BlockEntered(a: seq<Action>, fragments: seq<string>, entered: seq<nat>, c: nat, end: nat, stack: seq<Context>,
                     o: Rendered, ctx: Context)
    requires Pending(a, entered, c, end) && |a| < |fragments| && |stack| > |entered|
    requires c < StretchEnd(a, entered, end) && Opens(a[c].t)
    requires Instances(FindContext(a[c].name, stack, false), a[c].t == ElseBlock) == [ctx]
    ensures Pending(a, entered + [c], c + 1, end)
    ensures Join(o, Remaining(a, fragments, entered, c, end, stack))
         == Join(Join(o, Shown(fragments[c])), Remaining(a, fragments, entered + [c], c + 1, end, stack + [ctx]))
  {
    BlockBehind(a, fragments, entered, c, end, stack, o, [ctx]);
    hide Remaining, Pending, Join, Instances, FindContext;
    BlockInside(a, fragments, entered, c, end, stack, Join(o, Shown(fragments[c])), ctx);
  }

  // ---- What a hidden section changes ----

  /** The trees of the two templates, between empty texts. */
  lemma SectionTrees()
    ensures var a, b := HiddenSection(), PlainSection();
            var none := ["", "", "", "", "", ""];
            && Linked(a, 0, |a|) && Linked(b, 0, |b|)
            && Nodes(a, none, 0, |a|)
               == [Block("", "a", false, [Block("", "b", true, [], ""), Variable("", "x.y", false, false)], "")]
            && Nodes(b, none, 0, |b|) == [Block("", "a", false, [Variable("", "x.y", false, true)], "")]
  {
    InvertedBlockHidesTheSection();
    var a, b, none := HiddenSection(), PlainSection(), ["", "", "", "", "", ""];
    assert Nodes(a, none, 4, 4) == [] && Nodes(a, none, 5, 5) == [] && Nodes(a, none, 2, 2) == [];
    assert Nodes(a, none, 3, 4) == [Variable("", "x.y", false, false)];
    assert Nodes(a, none, 1, 4) == [Block("", "b", true, [], ""), Variable("", "x.y", false, false)];
    assert Nodes(b, none, 2, 2) == [] && Nodes(b, none, 3, 3) == [];
    assert Nodes(b, none, 1, 2) == [Variable("", "x.y", false, true)];
  }

  /** x.y stands outside of the object a. */
  function Outer(s: string): Context {
    Object(map["a" := Object(map[]), "x" := Object(map["y" := Text(s)])])
  }

  lemma OuterLookups(s: string)
    ensures var outer, inner := Outer(s), Object(map[]);
            && FindContext("a", [outer], false) == Lookup.Found(inner)
            && FindContext("b", [outer, inner], false) == Missing
            && FindContext("x.y", [outer, inner], false) == Lookup.Found(Text(s))
            && FindContext("x.y", [outer, inner], true) == Missing
  {
    var outer, inner := Outer(s), Object(map[]);
    OneName('a');
    OneName('b');
    TwoNames();
    hide SplitDots;
    assert [outer, inner][..1] == [outer] && [outer][..0] == [];
    WalkOne(inner, "b");
    WalkOne(outer, "b");
    WalkOne(outer, "a");
    assert FindIn([], ["b"], false) == Missing && FindIn([outer], ["b"], false) == Missing;
    assert FindIn([outer], ["x", "y"], false) == Lookup.Found(Text(s)) by { WalkTwo(s); }
    assert Walk(inner, ["x", "y"]) == Missing;
  }

  lemma OneName(c: char)
    requires c != '.'
    ensures SplitDots([c]) == [[c]]
  {
    assert [c][1..] == "" && SplitDots("") == [""];
    assert [c] + "" == [c];
  }

  lemma TwoNames()
    ensures SplitDots("x.y") == ["x", "y"]
  {
    OneName('y');
    assert "x.y"[1..] == ".y" && ".y"[1..] == "y";
    assert SplitDots(".y") == [""] + ["y"];
    assert ['x'] + "" == "x" && ([""] + ["y"])[1..] == ["y"];
  }

  lemma WalkTwo(s: string)
    ensures Walk(Outer(s), ["x", "y"]) == Lookup.Found(Text(s))
  {
    assert ["x", "y"][1..] == ["y"];
    WalkOne(Outer(s).members["x"], "y");
  }

  lemma WalkOne(view: Context, name: string)
    ensures Walk(view, [name])
            == if view.Object? && name in view.members then Lookup.Found(view.members[name]) else Missing
  {
    assert [name][1..] == [];
  }

  lemma RenderOne(n: Node, stack: seq<Context>)
    requires stack != []
    ensures Render([n], stack) == RenderNode(n, stack)
  {
    assert [n][1..] == [];
    JoinEmpty(RenderNode(n, stack));
  }

  lemma RenderTwo(n: Node, n': Node, stack: seq<Context>)
    requires stack != []
    ensures Render([n, n'], stack) == Join(RenderNode(n, stack), RenderNode(n', stack))
  {
    hide RenderNode;
    assert [n, n'][1..] == [n'];
    RenderOne(n', stack);
  }

  lemma RenderOnce(n: Node, ctx: Context, stack: seq<Context>)
    requires n.Block? && stack != [] && n.before == "" && n.tail == ""
    requires Instances(FindContext(n.name, stack, false), n.inverted) == [ctx]
    ensures RenderNode(n, stack) == Render(n.body, stack + [ctx])
  {
    hide FindContext, Instances;
    var body := Render(n.body, stack + [ctx]);
    assert [ctx][1..] == [] && RenderBodies(n, [], stack) == Shown("");
    JoinEmpty(body);
    JoinEmpty(RenderBodies(n, [ctx], stack));
  }

  /** The empty inverted block changes what the template shows: with it the name is found outside of the section's
      object, without it only the section's object is looked at, which does not have it. */
  lemma HiddenSectionShowsMore(s: string)
    ensures var a, b := HiddenSection(), PlainSection();
            var none := ["", "", "", "", "", ""];
            && Linked(a, 0, |a|) && Linked(b, 0, |b|)
            && Render(Nodes(a, none, 0, |a|), [Outer(s)]) == Shown(s)
            && Render(Nodes(b, none, 0, |b|), [Outer(s)]) == Shown("")
  {
    SectionTrees();
    OuterLookups(s);
    ShownInside(s);
    hide *;
    var outer, inner := Outer(s), Object(map[]);
    var hidden := Block("", "a", false, [Block("", "b", true, [], ""), Variable("", "x.y", false, false)], "");
    var plain := Block("", "a", false, [Variable("", "x.y", false, true)], "");
    RenderOne(hidden, [outer]);
    RenderOne(plain, [outer]);
    OneInstance(inner);
    RenderOnce(hidden, inner, [outer]);
    RenderOnce(plain, inner, [outer]);
    assert [outer] + [inner] == [outer, inner];
  }

  lemma OneInstance(ctx: Context)
    requires ctx.Object?
    ensures Instances(Lookup.Found(ctx), false) == [ctx] && Instances(Missing, true) == [NullValue]
  {
  }

  /** The two bodies, inside of the section. */
  lemma ShownInside(s: string)
    ensures var stack := [Outer(s), Object(map[])];
            && Render([Block("", "b", true, [], ""), Variable("", "x.y", false, false)], stack) == Shown(s)
            && Render([Variable("", "x.y", false, true)], stack) == Shown("")
  {
    OuterLookups(s);
    hide FindContext;
    var stack := [Outer(s), Object(map[])];
    var block, name, enclosed := Block("", "b", true, [], ""), Variable("", "x.y", false, false),
                                 Variable("", "x.y", false, true);
    RenderTwo(block, name, stack);
    RenderOne(enclosed, stack);
    OneInstance(Object(map[]));
    RenderOnce(block, NullValue, stack);
    JoinEmpty(Shown(s));
    assert RenderNode(name, stack) == Join(Shown(""), Shown(s));
    assert RenderNode(enclosed, stack) == Join(Shown(""), Shown(""));
    assert Render([], stack + [NullValue]) == Shown("");
  }
}
