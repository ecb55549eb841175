/**
 `match_point`: classifies a point against four tuple-shaped patterns, first
 match wins, and prints a report; anything that is not a two-element sequence
 falls through to `case _` and raises `ValueError("Not a point")`.
 */
module Points {
  import opened Wrappers
  import opened Decimal
  import opened Values
  import opened Patterns

  /** What the matched case prints. */
  datatype Report = Origin | YAxis(y: Value) | XAxis(x: Value) | General(x: Value, y: Value)

  datatype Exception = ValueError(message: string)

  /** A call either prints one report or raises. */
  datatype Outcome = Printed(report: Report) | Raised(error: Exception)

  const NotAPoint: Exception := ValueError("Not a point")

  /** The five cases of `match_point`, in source order. */
  const Cases: seq<Pattern> := [
    SeqP([Literal(0), Literal(0)]),     // case (0, 0)
    SeqP([Literal(0), Capture("y")]),   // case (0, y)
    SeqP([Capture("x"), Literal(0)]),   // case (x, 0)
    SeqP([Capture("x"), Capture("y")]), // case (x, y)
    Wildcard                            // case _
  ]

  /**
   `match_point` with its locals `x` and `y` holding `x0` and `y0` when the
   `match` starts. Each case body reads its names from the locals as updated
   by the case's bindings.
   */
  function MatchPointWith(point: Value, x0: Value, y0: Value): (r: Outcome)
    ensures r == Classify(point)
  {
    var scope := map["x" := x0, "y" := y0];
    CaseSelection(point, scope);
    MatchTwo(Literal(0), Capture("y"), point, scope);
    MatchTwo(Capture("x"), Literal(0), point, scope);
    MatchTwo(Capture("x"), Capture("y"), point, scope);
    var m := FirstMatch(Cases, point, scope);
    assert Match(Cases[4], point, scope).Some?;
    var locals := scope + m.value.1;
    match m.value.0
    case 0 => Printed(Origin)
    case 1 => Printed(YAxis(locals["y"]))
    case 2 => Printed(XAxis(locals["x"]))
    case 3 => Printed(General(locals["x"], locals["y"]))
    case _ => Raised(NotAPoint)
  }

  /**
   `match_point` as written: the locals are set to `x = 1` and `y = 2` first,
   and any other initial values would give the same outcome.
   */
  function MatchPoint(point: Value): (r: Outcome)
    ensures forall x0, y0 :: r == MatchPointWith(point, x0, y0)
  {
    MatchPointWith(point, Int(1), Int(2))
  }

  /** Reference classification, stated directly on the components of the point. */
  function Classify(point: Value): Outcome
  {
    if !IsPair(point) then Raised(NotAPoint)
    else
      var x, y := point.items[0], point.items[1];
      if x == Int(0) && y == Int(0) then Printed(Origin)
      else if x == Int(0) then Printed(YAxis(y))
      else if y == Int(0) then Printed(XAxis(x))
      else Printed(General(x, y))
  }

  /** The f-string each case body prints; for int reports, the line reads back as the report. */
  function Render(r: Report): (s: string)
    ensures IntReport(r) ==> ParseReport(s) == Some(r)
  {
    match r
    case Origin => "Origin"
    case YAxis(y) =>
      var s := "Y=" + Str(y);
      assert y.Int? ==> ParseReport(s) == Some(r) by {
        if y.Int? { ParseRenderYAxis(y.i); }
      }
      s
    case XAxis(x) =>
      var s := "X=" + Str(x);
      assert x.Int? ==> ParseReport(s) == Some(r) by {
        if x.Int? { ParseRenderXAxis(x.i); }
      }
      s
    case General(x, y) =>
      var s := "X=" + Str(x) + ", Y=" + Str(y);
      assert x.Int? && y.Int? ==> ParseReport(s) == Some(r) by {
        if x.Int? && y.Int? { ParseRenderGeneral(x.i, y.i); }
      }
      s
  }

  /** A report whose components are all ints. */
  predicate IntReport(r: Report)
  {
    match r
    case Origin => true
    case YAxis(y) => y.Int?
    case XAxis(x) => x.Int?
    case General(x, y) => x.Int? && y.Int?
  }

  /** Reads a printed report back; the inverse of `Render` on int reports. */
  function ParseReport(s: string): Option<Report>
  {
    if s == "Origin" then Some(Origin)
    else if |s| >= 2 && s[..2] == "Y=" then ParseYAxis(s[2..])
    else if |s| >= 2 && s[..2] == "X=" then ParseXReport(s[2..])
    else None
  }

  /** The text after `Y=`: one int. */
  function ParseYAxis(rest: string): Option<Report>
  {
    match ParseInt(rest)
    case None => None
    case Some(y) => Some(YAxis(Int(y)))
  }

  /** The text after `X=`: one int, or an int, `, Y=` and another int. */
  function ParseXReport(rest: string): Option<Report>
  {
    var k := IndexOf(rest, ',');
    if k == |rest| then
      match ParseInt(rest)
      case None => None
      case Some(x) => Some(XAxis(Int(x)))
    else if k + 4 <= |rest| && rest[k..k + 4] == ", Y=" then
      match (ParseInt(rest[..k]), ParseInt(rest[k + 4..]))
      case (Some(x), Some(y)) => Some(General(Int(x), Int(y)))
      case _ => None
    else None
  }

  // ---------------------------------------------------------------------
  // Case selection
  // ---------------------------------------------------------------------

  /** The patterns of `match_point` contain no value pattern: every name in them is a capture. */
  lemma CasesAreScopeFree()
    ensures forall j :: 0 <= j < |Cases| ==> ScopeFree(Cases[j])
  {
  }

  /** Which case fires, and what it binds, is the same whatever the locals hold. */
  lemma SelectionIgnoresLocals(point: Value, s1: Scope, s2: Scope)
    ensures FirstMatch(Cases, point, s1) == FirstMatch(Cases, point, s2)
  {
    CasesAreScopeFree();
    FirstMatchIgnoresScope(Cases, point, s1, s2);
  }

  /**
   Case priority: a pair selects case 0 exactly when both components are 0,
   case 1 exactly when only the first is, case 2 exactly when only the second
   is, case 3 exactly when neither is; `case _` fires exactly for non-pairs.
   */
  lemma CaseSelection(point: Value, scope: Scope)
    ensures FirstMatch(Cases, point, scope).Some?
    ensures var k := FirstMatch(Cases, point, scope).value.0;
      && (k == 4 <==> !IsPair(point))
      && (IsPair(point) ==>
            var x, y := point.items[0], point.items[1];
            && (k == 0 <==> x == Int(0) && y == Int(0))
            && (k == 1 <==> x == Int(0) && y != Int(0))
            && (k == 2 <==> x != Int(0) && y == Int(0))
            && (k == 3 <==> x != Int(0) && y != Int(0)))
  {
  }

  /** The origin matches all five patterns, yet only the first case runs. */
  lemma OriginShadowsLaterCases(scope: Scope)
    ensures forall j :: 0 <= j < |Cases| ==> Match(Cases[j], Pair(0, 0), scope).Some?
    ensures FirstMatch(Cases, Pair(0, 0), scope).value.0 == 0
    ensures MatchPoint(Pair(0, 0)) == Printed(Origin)
  {
    var p := Pair(0, 0);
    MatchTwo(Literal(0), Literal(0), p, scope);
    MatchTwo(Literal(0), Capture("y"), p, scope);
    MatchTwo(Capture("x"), Literal(0), p, scope);
    MatchTwo(Capture("x"), Capture("y"), p, scope);
  }

  // ---------------------------------------------------------------------
  // Reports
  // ---------------------------------------------------------------------

  /** The initial values of the locals `x` and `y` never change what `match_point` does. */
  lemma LocalsNeverRead(point: Value, x0: Value, y0: Value, x1: Value, y1: Value)
    ensures MatchPointWith(point, x0, y0) == MatchPointWith(point, x1, y1)
  {
  }

  /** A pair `(0, y)` with `y` not 0 prints `Y=<y>`, carrying the point's own second component. */
  lemma YAxisCase(p: Value)
    requires IsPair(p) && p.items[0] == Int(0) && p.items[1] != Int(0)
    ensures MatchPoint(p) == Printed(YAxis(p.items[1]))
    ensures Render(MatchPoint(p).report) == "Y=" + Str(p.items[1])
  {
  }

  /** A pair `(x, 0)` with `x` not 0 prints `X=<x>`, carrying the point's own first component. */
  lemma XAxisCase(p: Value)
    requires IsPair(p) && p.items[0] != Int(0) && p.items[1] == Int(0)
    ensures MatchPoint(p) == Printed(XAxis(p.items[0]))
    ensures Render(MatchPoint(p).report) == "X=" + Str(p.items[0])
  {
  }

  /** A pair with neither component 0 prints `X=<x>, Y=<y>`, both components in order. */
  lemma GeneralCase(p: Value)
    requires IsPair(p) && p.items[0] != Int(0) && p.items[1] != Int(0)
    ensures MatchPoint(p) == Printed(General(p.items[0], p.items[1]))
    ensures Render(MatchPoint(p).report) == "X=" + Str(p.items[0]) + ", Y=" + Str(p.items[1])
  {
  }

  /** `ValueError("Not a point")` is raised exactly for subjects that are not two-element sequences. */
  lemma RaisesOnlyForNonPairs(point: Value)
    ensures MatchPoint(point).Raised? <==> !IsPair(point)
    ensures MatchPoint(point).Raised? ==> MatchPoint(point).error.message == "Not a point"
  {
  }

  /** The module-level call `match_point((0, 1))` takes the Y-axis case and prints `Y=1`. */
  lemma ModuleLevelCall()
    ensures MatchPoint(Pair(0, 1)) == Printed(YAxis(Int(1)))
    ensures Render(MatchPoint(Pair(0, 1)).report) == "Y=1"
  {
  }

  // ---------------------------------------------------------------------
  // Printed lines
  // ---------------------------------------------------------------------

  lemma DecimalHasNoComma(i: int)
    ensures ',' !in IntToString(i)
  {
  }

  /** A line starting with `Y=` or `X=` is read by the matching branch. */
  lemma ParseTagged(tag: char, rest: string)
    requires tag == 'X' || tag == 'Y'
    ensures ParseReport([tag, '='] + rest) ==
      if tag == 'Y' then ParseYAxis(rest) else ParseXReport(rest)
  {
    var s := [tag, '='] + rest;
    assert s[..2] == [tag, '='] && s[2..] == rest;
    assert s[0] == tag;
  }

  lemma ParseRenderYAxis(y: int)
    ensures ParseReport("Y=" + IntToString(y)) == Some(YAxis(Int(y)))
  {
    ParseTagged('Y', IntToString(y));
  }

  lemma ParseRenderXAxis(x: int)
    ensures ParseReport("X=" + IntToString(x)) == Some(XAxis(Int(x)))
  {
    var a := IntToString(x);
    ParseTagged('X', a);
    DecimalHasNoComma(x);
    assert IndexOf(a, ',') == |a|;
  }

  /** Splitting `<a>, Y=<b>` at its first comma gives back `a` and `b` when `a` has no comma. */
  lemma SplitAtComma(a: string, b: string)
    requires ',' !in a
    ensures var rest := a + ", Y=" + b;
      && IndexOf(rest, ',') == |a|
      && rest[..|a|] == a
      && rest[|a|..|a| + 4] == ", Y="
      && rest[|a| + 4..] == b
  {
    var rest := a + ", Y=" + b;
    assert rest[|a|] == ',';
    assert forall i :: 0 <= i < |a| ==> rest[i] == a[i];
  }

  lemma ParseRenderGeneral(x: int, y: int)
    ensures ParseReport("X=" + IntToString(x) + ", Y=" + IntToString(y)) == Some(General(Int(x), Int(y)))
  {
    var a, b := IntToString(x), IntToString(y);
    var rest := a + ", Y=" + b;
    assert "X=" + a + ", Y=" + b == ['X', '='] + rest;
    ParseTagged('X', rest);
    DecimalHasNoComma(x);
    SplitAtComma(a, b);
  }

  /** Different int reports print different lines. */
  lemma RenderInjective(r1: Report, r2: Report)
    requires IntReport(r1) && IntReport(r2)
    requires Render(r1) == Render(r2)
    ensures r1 == r2
  {
  }

  /** For int points, the printed line alone tells which case fired and recovers the components it reports. */
  lemma PrintedLineDeterminesReport(x: int, y: int)
    ensures ParseReport(Render(MatchPoint(Pair(x, y)).report)) == Some(MatchPoint(Pair(x, y)).report)
  {
  }
}
