/**
 Python structural pattern matching (`match` / `case`), restricted to the
 pattern kinds a two-component point needs: literals, capture names, the
 wildcard `_`, value patterns (dotted names compared with `==`) and fixed-length
 sequence patterns. Cases are tried in order and the first match wins.
 */
module Patterns {
  import opened Wrappers
  import opened Values

  /** The variables visible where the `match` statement runs. */
  type Scope = map<string, Value>

  /** The names a successful match binds, with the values it binds them to. */
  type Bindings = map<string, Value>

  datatype Pattern =
    | Literal(k: int)          // `0`: compares the subject with an int literal
    | Capture(name: string)    // `y`: binds the subject, never compares
    | Wildcard                 // `_`: matches anything, binds nothing
    | ValueP(name: string)     // `Color.RED`: looks the name up and compares
    | SeqP(elems: seq<Pattern>) // `(p0, p1)`: a sequence of exactly |elems| items

  /** A pattern that never reads the scope: no value pattern anywhere inside it. */
  predicate ScopeFree(p: Pattern)
    decreases p
  {
    match p
    case ValueP(_) => false
    case SeqP(elems) => ScopeFreeAll(elems)
    case _ => true
  }

  predicate ScopeFreeAll(ps: seq<Pattern>)
    decreases ps
  {
    |ps| == 0 || (ScopeFree(ps[0]) && ScopeFreeAll(ps[1..]))
  }

  /** Matches one pattern against a subject; `None` when it does not match. */
  function Match(p: Pattern, v: Value, scope: Scope): Option<Bindings>
    decreases p
  {
    match p
    case Literal(k) => if v == Int(k) then Some(map[]) else None
    case Capture(name) => Some(map[name := v])
    case Wildcard => Some(map[])
    case ValueP(name) => if name in scope && scope[name] == v then Some(map[]) else None
    case SeqP(elems) =>
      if v.Tuple? && |v.items| == |elems| then MatchItems(elems, v.items, scope) else None
  }

  /** Matches sub-patterns against the items of a sequence subject, left to right. */
  function MatchItems(ps: seq<Pattern>, vs: seq<Value>, scope: Scope): Option<Bindings>
    requires |ps| == |vs|
    decreases ps
  {
    if |ps| == 0 then Some(map[])
    else
      match Match(ps[0], vs[0], scope)
      case None => None
      case Some(first) =>
        match MatchItems(ps[1..], vs[1..], scope)
        case None => None
        case Some(rest) => Some(first + rest)
  }

  /**
   The `match` statement: the index of the first case whose pattern matches,
   with that pattern's bindings; `None` when no case matches.
   */
  function FirstMatch(cases: seq<Pattern>, v: Value, scope: Scope): (r: Option<(nat, Bindings)>)
    ensures r.Some? ==>
      && r.value.0 < |cases|
      && Match(cases[r.value.0], v, scope) == Some(r.value.1)
      && forall j :: 0 <= j < r.value.0 ==> Match(cases[j], v, scope).None?
    ensures r.None? ==> forall j :: 0 <= j < |cases| ==> Match(cases[j], v, scope).None?
    decreases |cases|
  {
    if |cases| == 0 then None
    else
      match Match(cases[0], v, scope)
      case Some(b) => Some((0, b))
      case None =>
        var rest := FirstMatch(cases[1..], v, scope);
        if rest.None? then None else Some((rest.value.0 + 1, rest.value.1))
  }

  /**
   A bare-name case is irrefutable: whatever cases follow it and whatever the
   scope holds, it fires and binds the name to the subject, so no later case runs.
   */
  lemma BareNameShadowsLaterCases(name: string, rest: seq<Pattern>, v: Value, scope: Scope)
    ensures FirstMatch([Capture(name)] + rest, v, scope) == Some((0, map[name := v]))
  {
  }

  /** A two-element sequence pattern matches exactly the pairs whose items match the two sub-patterns. */
  lemma {:induction false} MatchTwo(p0: Pattern, p1: Pattern, v: Value, scope: Scope)
    ensures Match(SeqP([p0, p1]), v, scope) ==
      if IsPair(v) && Match(p0, v.items[0], scope).Some? && Match(p1, v.items[1], scope).Some?
      then Some(Match(p0, v.items[0], scope).value + Match(p1, v.items[1], scope).value)
      else None
  {
    if IsPair(v) {
      var ps := [p0, p1];
      assert ps[1..] == [p1];
      assert v.items[1..][1..] == [];
      assert ps[1..][1..] == [];
      assert v.items[1..][0] == v.items[1];
      assert [p1][1..] == [];
      assert MatchItems([p1][1..], v.items[1..][1..], scope) == Some(map[]);
      var m1 := MatchItems([p1], v.items[1..], scope);
      if Match(p1, v.items[1], scope).Some? {
        assert m1 == Some(Match(p1, v.items[1], scope).value + map[]);
        assert Match(p1, v.items[1], scope).value + map[] == Match(p1, v.items[1], scope).value;
      } else {
        assert m1 == None;
      }
    }
  }

  /** Patterns without value patterns give the same result in every scope: names capture, they never compare. */
  lemma {:induction false} MatchIgnoresScope(p: Pattern, v: Value, s1: Scope, s2: Scope)
    requires ScopeFree(p)
    ensures Match(p, v, s1) == Match(p, v, s2)
    decreases p
  {
    match p
    case SeqP(elems) =>
      if v.Tuple? && |v.items| == |elems| {
        MatchItemsIgnoresScope(elems, v.items, s1, s2);
      }
    case _ =>
  }

  lemma {:induction false} MatchItemsIgnoresScope(ps: seq<Pattern>, vs: seq<Value>, s1: Scope, s2: Scope)
    requires |ps| == |vs| && ScopeFreeAll(ps)
    ensures MatchItems(ps, vs, s1) == MatchItems(ps, vs, s2)
    decreases ps
  {
    if |ps| > 0 {
      MatchIgnoresScope(ps[0], vs[0], s1, s2);
      MatchItemsIgnoresScope(ps[1..], vs[1..], s1, s2);
    }
  }

  /** With scope-free cases, which case fires and what it binds is decided by the subject alone. */
  lemma {:induction false} FirstMatchIgnoresScope(cases: seq<Pattern>, v: Value, s1: Scope, s2: Scope)
    requires forall j :: 0 <= j < |cases| ==> ScopeFree(cases[j])
    ensures FirstMatch(cases, v, s1) == FirstMatch(cases, v, s2)
    decreases |cases|
  {
    if |cases| > 0 {
      MatchIgnoresScope(cases[0], v, s1, s2);
      var tail := cases[1..];
      assert forall j :: 0 <= j < |tail| ==> tail[j] == cases[j + 1];
      FirstMatchIgnoresScope(tail, v, s1, s2);
    }
  }
}
