/**
 The module-level snippet: globals `a = 2`, `b = 5`, then `match a:` with the
 single case `case b:`. A bare name in a case is a capture pattern, so the case
 always fires and rebinds `b` to the subject; it never compares with the old `b`.
 */
module BareName {
  import opened Wrappers
  import opened Values
  import opened Patterns

  /** The two module globals the snippet touches. */
  datatype Globals = Globals(a: Value, b: Value)

  /** The pattern `b` as Python reads it: a capture of the name `b`. */
  const BareB: Pattern := Capture("b")

  /**
   Runs `match a: case b: print(a, b)` and then `print(a, b)` from globals `g`,
   returning the globals afterwards and the printed lines in order.
   */
  method MatchBareName(g: Globals) returns (after: Globals, output: seq<string>)
    ensures after.a == g.a
    ensures after.b == g.a
    ensures output == [PrintLine(g.a, g.a), PrintLine(g.a, g.a)]
  {
    var scope := map["a" := g.a, "b" := g.b];
    output := [];
    var m := FirstMatch([BareB], g.a, scope);
    if m.Some? && m.value.0 == 0 {
      scope := scope + m.value.1;
      output := output + [PrintLine(scope["a"], scope["b"])];
    }
    output := output + [PrintLine(scope["a"], scope["b"])];
    after := Globals(scope["a"], scope["b"]);
  }

  /** The snippet as written: from `a = 2`, `b = 5` it ends with `b == 2` and prints `2 2` twice. */
  method ModuleSnippet() returns (after: Globals, output: seq<string>)
    ensures after == Globals(Int(2), Int(2))
    ensures output == ["2 2", "2 2"]
  {
    after, output := MatchBareName(Globals(Int(2), Int(5)));
    assert Str(Int(2)) == "2";
    assert PrintLine(Int(2), Int(2)) == "2" + " " + "2" == "2 2";
  }
}
