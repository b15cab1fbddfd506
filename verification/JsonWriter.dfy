/** Writing a value by appending to one output string. */
module JsonWriter {
  import opened Json

  class Output {
    var text: string

    constructor ()
      ensures text == ""
    {
      text := "";
    }

    method PushBack(c: char)
      modifies this
      ensures text == old(text) + [c]
    {
      text := text + [c];
    }

    method Append(s: string)
      modifies this
      ensures text == old(text) + s
    {
      text := text + s;
    }

    method AppendCopies(n: nat, c: char)
      modifies this
      ensures text == old(text) + Repeat(c, n)
    {
      var i := n;
      while i > 0
        invariant 0 <= i <= n
        invariant text + Repeat(c, i) == old(text) + Repeat(c, n)
      {
        assert text + ([c] + Repeat(c, i - 1)) == text + [c] + Repeat(c, i - 1);
        text := text + [c];
        i := i - 1;
      }
    }

    method AppendEscaped(str: string)
      modifies this
      ensures text == old(text) + Escape(str)
    {
      var i := 0;
      while i < |str|
        invariant 0 <= i <= |str|
        invariant text + Escape(str[i..]) == old(text) + Escape(str)
      {
        var c := str[i];
        assert str[i..][1..] == str[i + 1..];
        ghost var before := text;
        assert before + (EscapeChar(c) + Escape(str[i + 1..])) == before + EscapeChar(c) + Escape(str[i + 1..]);
        match c {
          case '"' => Append("\\\"");
          case '\\' => Append("\\\\");
          case '\n' => Append("\\n");
          case '\U{8}' => Append("\\b");
          case '\U{c}' => Append("\\f");
          case '\r' => Append("\\r");
          case '\t' => Append("\\t");
          case _ =>
            if c < ' ' {
              Append("\\u00");
              PushBack(HexDigit(c as int / 16));
              PushBack(HexDigit(c as int % 16));
            } else {
              PushBack(c);
            }
        }
        assert text == before + EscapeChar(c);
        i := i + 1;
      }
    }

    method DumpString(str: string)
      modifies this
      ensures text == old(text) + Quoted(str)
    {
      PushBack('"');
      AppendEscaped(str);
      PushBack('"');
    }

    method DumpIndentationPart(lay: Layout, level: nat)
      requires lay.indent >= 0
      modifies this
      ensures text == old(text) + Indentation(lay, level)
    {
      PushBack('\n');
      AppendCopies(level * lay.indent, lay.separator);
    }

    method Break(lay: Layout, level: nat)
      modifies this
      ensures text == old(text) + Indentation(lay, level)
    {
      if lay.indent >= 0 {
        DumpIndentationPart(lay, level);
      }
    }

    /** Appends exactly what the value is written as. */
    method DumpInternal(v: Value, lay: Layout, level: nat)
      modifies this
      ensures text == old(text) + Dump(v, lay, level)
      decreases v, 1
    {
      match v
      case Null => Append("null");
      case Bool(b) => Append(if b then "true" else "false");
      case Integer(i) => Append(Decimal(i));
      case Str(s) => DumpString(s);
      case List(items) =>
        hide DumpItems, Indentation;
        ghost var start := text;
        PushBack('[');
        Break(lay, level + 1);
        DumpListItems(items, lay, level);
        Break(lay, level);
        PushBack(']');
        Glue(start, "[", Indentation(lay, level + 1), DumpItems(items, lay, level), Indentation(lay, level), "]");
      case Object(members) =>
        hide DumpMembers, Indentation;
        ghost var start := text;
        PushBack('{');
        Break(lay, level + 1);
        DumpObjectMembers(members, lay, level);
        Break(lay, level);
        PushBack('}');
        Glue(start, "{", Indentation(lay, level + 1), DumpMembers(members, lay, level), Indentation(lay, level), "}");
    }

    method DumpListItems(items: seq<Value>, lay: Layout, level: nat)
      modifies this
      ensures text == old(text) + DumpItems(items, lay, level)
      decreases items, 0
    {
      hide Dump, DumpItems, Indentation, Remaining;
      var first := true;
      var i := 0;
      assert items[0..] == items;
      RemainingNone(0, |items|, lay, level, DumpItems(items, lay, level));
      while i < |items|
        invariant 0 <= i <= |items|
        invariant first <==> i == 0
        invariant text + Remaining(i, |items|, lay, level, DumpItems(items[i..], lay, level))
               == old(text) + DumpItems(items, lay, level)
      {
        var x := items[i];
        ghost var start := text;
        assert items[i..][1..] == items[i + 1..];
        if !first {
          PushBack(',');
          Break(lay, level + 1);
        }
        first := false;
        DumpInternal(x, lay, level + 1);
        ItemsFrom(items, i, lay, level);
        GlueRest(start, if i > 0 then "," + Indentation(lay, level + 1) else "", Dump(x, lay, level + 1),
                 Remaining(i + 1, |items|, lay, level, DumpItems(items[i + 1..], lay, level)));
        i := i + 1;
      }
      ItemsFrom(items, i, lay, level);
    }

    method DumpObjectMembers(members: seq<(string, Value)>, lay: Layout, level: nat)
      modifies this
      ensures text == old(text) + DumpMembers(members, lay, level)
      decreases members, 0
    {
      hide DumpMember, DumpMembers, Indentation, Remaining;
      var first := true;
      var i := 0;
      assert members[0..] == members;
      RemainingNone(0, |members|, lay, level, DumpMembers(members, lay, level));
      while i < |members|
        invariant 0 <= i <= |members|
        invariant first <==> i == 0
        invariant text + Remaining(i, |members|, lay, level, DumpMembers(members[i..], lay, level))
               == old(text) + DumpMembers(members, lay, level)
      {
        ghost var start := text;
        if !first {
          PushBack(',');
          Break(lay, level + 1);
        }
        first := false;
        DumpOneMember(members[i], lay, level);
        MembersFrom(members, i, lay, level);
        GlueRest(start, if i > 0 then "," + Indentation(lay, level + 1) else "", DumpMember(members[i], lay, level),
                 Remaining(i + 1, |members|, lay, level, DumpMembers(members[i + 1..], lay, level)));
        i := i + 1;
      }
      MembersFrom(members, i, lay, level);
    }

    method DumpOneMember(m: (string, Value), lay: Layout, level: nat)
      modifies this
      ensures text == old(text) + DumpMember(m, lay, level)
      decreases m, 2
    {
      DumpString(m.0);
      PushBack(':');
      if lay.indent >= 0 {
        PushBack(' ');
      }
      DumpInternal(m.1, lay, level + 1);
    }
  }

  /** What is still to be written before the i-th of n elements: a separator, unless it is the first. */
  function Remaining(i: nat, n: nat, lay: Layout, level: nat, rest: string): string {
    if 0 < i < n then "," + Indentation(lay, level + 1) + rest else rest
  }

  lemma RemainingNone(i: nat, n: nat, lay: Layout, level: nat, rest: string)
    requires i == 0 || i >= n
    ensures Remaining(i, n, lay, level, rest) == rest
  {
  }

  lemma ItemsFrom(items: seq<Value>, i: nat, lay: Layout, level: nat)
    requires i <= |items|
    ensures i == |items| ==> Remaining(i, |items|, lay, level, DumpItems(items[i..], lay, level)) == ""
    ensures i < |items| ==>
              Remaining(i, |items|, lay, level, DumpItems(items[i..], lay, level))
              == (if i > 0 then "," + Indentation(lay, level + 1) else "") + Dump(items[i], lay, level + 1)
                 + Remaining(i + 1, |items|, lay, level, DumpItems(items[i + 1..], lay, level))
  {
    hide Indentation;
    if i < |items| {
      assert items[i..][1..] == items[i + 1..];
    }
  }

  lemma MembersFrom(members: seq<(string, Value)>, i: nat, lay: Layout, level: nat)
    requires i <= |members|
    ensures i == |members| ==> Remaining(i, |members|, lay, level, DumpMembers(members[i..], lay, level)) == ""
    ensures i < |members| ==>
              Remaining(i, |members|, lay, level, DumpMembers(members[i..], lay, level))
              == (if i > 0 then "," + Indentation(lay, level + 1) else "") + DumpMember(members[i], lay, level)
                 + Remaining(i + 1, |members|, lay, level, DumpMembers(members[i + 1..], lay, level))
  {
    hide Indentation, DumpMember;
    if i < |members| {
      assert members[i..][1..] == members[i + 1..];
    }
  }

  lemma Glue(start: string, a: string, b: string, c: string, d: string, e: string)
    ensures start + a + b + c + d + e == start + (a + b + c + d + e)
  {
  }

  lemma GlueRest(start: string, a: string, b: string, c: string)
    ensures start + a + b + c == start + (a + b + c)
  {
  }

  /** dump: the whole document. */
  method DumpDocument(v: Value, lay: Layout) returns (text: string)
    ensures text == Dump(v, lay, 0)
  {
    var out := new Output();
    out.DumpInternal(v, lay, 0);
    text := out.text;
  }
}
