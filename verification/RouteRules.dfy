/**
 What a route is, independently of the search tree: a pattern is a sequence of literal characters and typed
 parameters, a URL either matches it in exactly one way or not at all, and a rule table is searched by trying
 every rule and keeping the smallest index that matches.  The tree in RouteTrie.dfy is proved against this.
 */
module RouteRules {
  import opened Wrappers

  datatype ParamType = INT | UINT | DOUBLE | STRING | PATH | MAX

  datatype Token = Lit(c: char) | Par(kind: ParamType)

  type Pattern = seq<Token>

  datatype Rule = Rule(pattern: Pattern, index: nat)

  /** The captured values, one list per type, in the order they were captured. */
  datatype Captures = Captures(ints: seq<int>, uints: seq<int>, doubles: seq<real>, strings: seq<string>)

  const NO_CAPTURES := Captures([], [], [], [])

  datatype Capture = IntValue(i: int) | UintValue(u: int) | DoubleValue(d: real) | StringValue(s: string)

  function Push(caps: Captures, v: Capture): Captures {
    match v
    case IntValue(i) => caps.(ints := caps.ints + [i])
    case UintValue(u) => caps.(uints := caps.uints + [u])
    case DoubleValue(d) => caps.(doubles := caps.doubles + [d])
    case StringValue(s) => caps.(strings := caps.strings + [s])
  }

  /** The C library's number conversions: the end of the number and its value, or None when nothing could be
      converted or the value is out of range. */
  datatype Scanners = Scanners(
    strtoll: (string, nat) -> Option<(nat, int)>,
    strtoull: (string, nat) -> Option<(nat, int)>,
    strtod: (string, nat) -> Option<(nat, real)>)

  /** A successful conversion consumes at least one character and stays inside the URL. */
  ghost predicate WellBehaved(sc: Scanners) {
    && (forall url: string, pos: nat ::
          sc.strtoll(url, pos).Some? ==> pos < sc.strtoll(url, pos).value.0 <= |url|)
    && (forall url: string, pos: nat ::
          sc.strtoull(url, pos).Some? ==> pos < sc.strtoull(url, pos).value.0 <= |url|)
    && (forall url: string, pos: nat ::
          sc.strtod(url, pos).Some? ==> pos < sc.strtod(url, pos).value.0 <= |url|)
  }

  predicate IsDigit(c: char) { '0' <= c <= '9' }

  /** Where the path segment that starts at pos ends: at the next slash or at the end. */
  function SegmentEnd(url: string, pos: nat): (e: nat)
    requires pos <= |url|
    ensures pos <= e <= |url|
    ensures forall k :: pos <= k < e ==> url[k] != '/'
    ensures e < |url| ==> url[e] == '/'
    decreases |url| - pos
  {
    if pos == |url| || url[pos] == '/' then pos else SegmentEnd(url, pos + 1)
  }

  /** What a parameter of the given type captures at pos, and where it stops. */
  function Scan(sc: Scanners, kind: ParamType, url: string, pos: nat): Option<(nat, Capture)>
    requires pos < |url|
  {
    var c := url[pos];
    match kind
    case INT =>
      if IsDigit(c) || c == '+' || c == '-' then
        match sc.strtoll(url, pos)
        case Some(v) => Some((v.0, IntValue(v.1)))
        case None => None
      else None
    case UINT =>
      if IsDigit(c) || c == '+' then
        match sc.strtoull(url, pos)
        case Some(v) => Some((v.0, UintValue(v.1)))
        case None => None
      else None
    case DOUBLE =>
      if IsDigit(c) || c == '+' || c == '-' || c == '.' then
        match sc.strtod(url, pos)
        case Some(v) => Some((v.0, DoubleValue(v.1)))
        case None => None
      else None
    case STRING =>
      var e := SegmentEnd(url, pos);
      if e != pos then Some((e, StringValue(url[pos..e]))) else None
    case PATH => Some((|url|, StringValue(url[pos..])))
    case MAX => None
  }

  /** One pattern against one URL: the captures of the whole match, or None. */
  function Match(sc: Scanners, pat: Pattern, url: string, pos: nat, caps: Captures): Option<Captures>
    requires pos <= |url|
    requires WellBehaved(sc)
    decreases |pat|
  {
    if pos == |url| then (if pat == [] then Some(caps) else None)
    else if pat == [] then None
    else
      match pat[0]
      case Lit(c) => if url[pos] == c then Match(sc, pat[1..], url, pos + 1, caps) else None
      case Par(kind) =>
        match Scan(sc, kind, url, pos)
        case Some(hit) => Match(sc, pat[1..], url, hit.0, Push(caps, hit.1))
        case None => None
  }

  /** Index 0 stands for "nothing found". */
  datatype Found = Found(index: nat, captures: Captures)

  const NOTHING := Found(0, NO_CAPTURES)

  /** Keep the first result unless the second one is a hit with a smaller index. */
  function Better(a: Found, b: Found): Found {
    if b.index != 0 && (a.index == 0 || a.index > b.index) then b else a
  }

  function Try(sc: Scanners, rule: Rule, url: string, pos: nat, caps: Captures): Found
    requires pos <= |url|
    requires WellBehaved(sc)
  {
    match Match(sc, rule.pattern, url, pos, caps)
    case Some(c) => if rule.index != 0 then Found(rule.index, c) else NOTHING
    case None => NOTHING
  }

  /** The reference: try the rules one after the other. */
  function ScanAll(sc: Scanners, rules: seq<Rule>, url: string, pos: nat, caps: Captures): Found
    requires pos <= |url|
    requires WellBehaved(sc)
  {
    if rules == [] then NOTHING
    else Better(Try(sc, rules[0], url, pos, caps), ScanAll(sc, rules[1..], url, pos, caps))
  }

  lemma {:induction false} ScanAllAppend(sc: Scanners, a: seq<Rule>, b: seq<Rule>, url: string, pos: nat,
                                         caps: Captures)
    requires pos <= |url|
    requires WellBehaved(sc)
    ensures ScanAll(sc, a + b, url, pos, caps) == Better(ScanAll(sc, a, url, pos, caps), ScanAll(sc, b, url, pos, caps))
  {
    if a == [] {
      assert a + b == b;
    } else {
      assert (a + b)[1..] == a[1..] + b;
      ScanAllAppend(sc, a[1..], b, url, pos, caps);
    }
  }

  /** What a linear scan means: the smallest index among the rules that match, with the captures of a rule that
      has that index. */
  ghost predicate IsSmallestMatch(sc: Scanners, rules: seq<Rule>, url: string, f: Found)
    requires WellBehaved(sc)
  {
    && (f.index == 0 ==> f == NOTHING)
    && (forall r :: r in rules && r.index != 0 && Match(sc, r.pattern, url, 0, NO_CAPTURES).Some? ==>
          0 < f.index <= r.index)
    && (f.index != 0 ==>
          exists r :: r in rules && r.index == f.index
            && Match(sc, r.pattern, url, 0, NO_CAPTURES) == Some(f.captures))
  }

  lemma {:induction false} ScanAllIsSmallestMatch(sc: Scanners, rules: seq<Rule>, url: string)
    requires WellBehaved(sc)
    ensures IsSmallestMatch(sc, rules, url, ScanAll(sc, rules, url, 0, NO_CAPTURES))
  {
    if rules != [] {
      ScanAllIsSmallestMatch(sc, rules[1..], url);
      assert rules == [rules[0]] + rules[1..];
      var rest := ScanAll(sc, rules[1..], url, 0, NO_CAPTURES);
      var all := ScanAll(sc, rules, url, 0, NO_CAPTURES);
      if all.index != 0 && all != Try(sc, rules[0], url, 0, NO_CAPTURES) {
        assert all == rest;
        var r :| && r in rules[1..] && r.index == rest.index
                 && Match(sc, r.pattern, url, 0, NO_CAPTURES) == Some(rest.captures);
        assert r in rules;
      }
    }
  }

  /** An index that belongs to one pattern only.  Index 1, shared by every trailing-slash redirect, does not. */
  ghost predicate Unshared(rules: seq<Rule>, index: nat) {
    forall a, b :: a in rules && b in rules && a.index == index && b.index == index ==> a == b
  }

  /** Two tables with the same rules, whatever their order, are searched alike: same index, and the same
      captures whenever that index is not shared. */
  lemma SameRulesSameAnswer(sc: Scanners, a: seq<Rule>, b: seq<Rule>, url: string)
    requires WellBehaved(sc)
    requires forall r: Rule :: r.index != 0 ==> (r in a <==> r in b)
    ensures ScanAll(sc, a, url, 0, NO_CAPTURES).index == ScanAll(sc, b, url, 0, NO_CAPTURES).index
    ensures Unshared(b, ScanAll(sc, b, url, 0, NO_CAPTURES).index) ==>
              ScanAll(sc, a, url, 0, NO_CAPTURES) == ScanAll(sc, b, url, 0, NO_CAPTURES)
  {
    ScanAllIsSmallestMatch(sc, a, url);
    ScanAllIsSmallestMatch(sc, b, url);
    var fa := ScanAll(sc, a, url, 0, NO_CAPTURES);
    var fb := ScanAll(sc, b, url, 0, NO_CAPTURES);
    if fa.index != 0 {
      var ra :| ra in a && ra.index == fa.index && Match(sc, ra.pattern, url, 0, NO_CAPTURES) == Some(fa.captures);
      assert ra in b;
    }
    if fb.index != 0 {
      var rb :| rb in b && rb.index == fb.index && Match(sc, rb.pattern, url, 0, NO_CAPTURES) == Some(fb.captures);
      assert rb in a;
    }
  }
}
