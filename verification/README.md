# Point classifier and bare-name capture, modelled in Dafny

This project models `whats_new/match_case.py`, a short demonstration of Python's
structural pattern matching (`match` / `case`):

- `match_point(point)` sets its locals `x = 1` and `y = 2`, then matches `point`
  against five cases in order, first match wins: `(0, 0)` prints `Origin`,
  `(0, y)` prints `Y=<y>`, `(x, 0)` prints `X=<x>`, `(x, y)` prints
  `X=<x>, Y=<y>`, and `_` raises `ValueError("Not a point")`. The module calls
  it once with `(0, 1)`.
- A module-level snippet sets `a = 2`, `b = 5` and runs `match a:` with the
  single case `case b:`, which prints `a, b`; then it prints `a, b` again.

Both parts make the same point: a plain name in a pattern is a capture. It binds
the matched value and never compares with what the name held before. Only
literals such as `0`, and dotted value patterns, compare.

Files and modules:

- `wrappers.dfy` (`Wrappers`): `Option`.
- `decimal.dfy` (`Decimal`): Python `str()` of an int, and its inverse.
- `values.dfy` (`Values`): the subject values. `Int` is an int. `Tuple` is any
  sequence that a sequence pattern accepts. `Other` is any other object, given
  by its printed text. This module also defines how `print` and f-strings show
  ints, tuples and such objects.
- `patterns.dfy` (`Patterns`): patterns, matching one pattern, and the
  first-match-wins `match` statement (`FirstMatch`). The pattern kinds are
  literal, capture, wildcard, value pattern and fixed-length sequence.
- `points.dfy` (`Points`): `match_point`. It is modelled as the five source
  cases run by `FirstMatch` (`MatchPointWith`, parametrised by the initial
  values of the locals `x` and `y`; `MatchPoint` uses 1 and 2). There is also
  an independent reference classification (`Classify`), the printed report
  (`Render`), and a reader for printed reports (`ParseReport`).
- `bare_name.dfy` (`BareName`): the module-level `match a: case b:` snippet as
  a method over the two globals.

Printing is modelled as a value: a call of `match_point` yields
`Printed(report)` or `Raised(ValueError(...))`, and the snippet's method returns
its printed lines.

## Model

| member | source | states |
|---|---|---|
| `Patterns.FirstMatch` | whats_new/match_case.py:5-15 | the `match` statement picks the first case whose pattern matches; every earlier case fails; no case matching is reported as such |
| `Patterns.BareNameShadowsLaterCases` | whats_new/match_case.py:23-25 | a bare-name case fires for every subject in every scope, binding the name to the subject, so no case after it ever runs |
| `Patterns.MatchTwo` | whats_new/match_case.py:6-13 | a two-element sequence pattern matches exactly the two-element sequences whose items match the sub-patterns, and binds both sub-patterns' names |
| `Patterns.MatchIgnoresScope` | whats_new/match_case.py:8-13 | a pattern with no value pattern in it matches, and binds, the same way in every scope: capture names never read the variables they shadow |
| `Patterns.FirstMatchIgnoresScope` | whats_new/match_case.py:5-13 | with such patterns, the case chosen and its bindings do not depend on the scope |
| `Points.CasesAreScopeFree` | whats_new/match_case.py:6-14 | the five patterns of `match_point` contain no value pattern; `x` and `y` in them are captures |
| `Points.SelectionIgnoresLocals` | whats_new/match_case.py:2-13 | whatever the locals `x` and `y` hold, the same case fires with the same bindings |
| `Points.MatchPointWith` | whats_new/match_case.py:1-15 | for any initial values of the locals, running the five cases gives the reference classification of the point: `Origin`, `YAxis` of the second item, `XAxis` of the first item, both items in order, or `ValueError("Not a point")` for non-pairs |
| `Points.MatchPoint` | whats_new/match_case.py:2-3 | the call with `x = 1`, `y = 2` gives the same outcome as with any other initial values of those locals |
| `Points.CaseSelection` | whats_new/match_case.py:5-15 | a case always fires. `case _` fires if and only if the subject is not a two-element sequence. For a pair, case `(0, 0)` fires iff both items are 0, `(0, y)` iff only the first is, `(x, 0)` iff only the second is, and `(x, y)` iff neither is |
| `Points.OriginShadowsLaterCases` | whats_new/match_case.py:6-13 | `(0, 0)` matches all five patterns, yet the first case fires and `Origin` is reported |
| `Points.LocalsNeverRead` | whats_new/match_case.py:2-3 | the initial values `x = 1`, `y = 2` never change the outcome |
| `Points.YAxisCase` | whats_new/match_case.py:8-9 | a pair whose first item is 0 and second is not reports `YAxis` of the point's own second item, printed `Y=<second>` |
| `Points.XAxisCase` | whats_new/match_case.py:10-11 | a pair whose second item is 0 and first is not reports `XAxis` of the point's own first item, printed `X=<first>` |
| `Points.GeneralCase` | whats_new/match_case.py:12-13 | a pair with neither item 0 reports both items in order, printed `X=<first>, Y=<second>` |
| `Points.RaisesOnlyForNonPairs` | whats_new/match_case.py:14-15 | `ValueError("Not a point")` is raised iff the subject is not a two-element sequence |
| `Points.ModuleLevelCall` | whats_new/match_case.py:17 | `match_point((0, 1))` takes the Y-axis case and prints `Y=1` |
| `Points.Render` | whats_new/match_case.py:7-13 | the printed line of a report with int components reads back as that report |
| `Points.RenderInjective` | whats_new/match_case.py:7-13 | different int reports print different lines |
| `Points.PrintedLineDeterminesReport` | whats_new/match_case.py:5-13 | for an int point, the printed line recovers the case that fired and the components it reported |
| `Decimal.ParseNatRoundTrip` | whats_new/match_case.py:9 | the decimal numeral of a natural number reads back as that number |
| `Decimal.IntToString` | whats_new/match_case.py:9-13 | Python's `str()` of an int uses only digits and a leading `-` (present iff the int is negative), and reads back as that int |
| `Values.Str` | whats_new/match_case.py:9-13 | an int component prints as a numeral without spaces that reads back as the int |
| `Values.PrintLine` | whats_new/match_case.py:25-27 | for int `a`, the line `print(a, b)` writes splits at its first space into `a`'s numeral and the rest; with `b` an int too, both ints read back from the line |
| `Decimal.IntToStringInjective` | whats_new/match_case.py:9-13 | different ints print differently |
| `BareName.MatchBareName` | whats_new/match_case.py:23-27 | from any globals `a`, `b`: the bare-name case fires, `a` is unchanged, `b` becomes `a`, and both printed lines show `a` twice |
| `BareName.ModuleSnippet` | whats_new/match_case.py:20-27 | from `a = 2`, `b = 5`: afterwards `a == b == 2`, and the output is `2 2` twice |

## Left out

- `bonus/context_manager_class.py` is not part of this model. Its behaviour is console output plus Python's `with` statement and exception unwinding (`__exit__` receiving the exception and the exception propagating). Its only computation is the float division `0 / 0`, which raises `ZeroDivisionError`.
- Console I/O: `print` is modelled as the returned report or as the returned lines, not as writes to standard output. A traceback for the raised `ValueError` is not modelled.
- Python's full sequence-pattern rules are collapsed into `Tuple`, which stands for every sequence the pattern accepts (tuple, list, ...). `str`, `bytes` and every non-sequence object are `Other`.
- Components that are `bool` or `float`: Python's literal pattern `0` also matches `False` and `0.0`, because it compares with `==`. The model compares the literal only with ints.
- Values.Str: every `Tuple` prints in tuple form `(1, 2)`, although in Python a list prints as `[1, 2]` and other sequences (deques, ranges, named tuples) have their own forms. `Other` values print their given text both alone and inside a tuple, so Python's `str`/`repr` difference for such objects is not modelled.
- Decimal.IntToString: no digit limit is modelled. Since Python 3.10.7 and 3.11, `str()` raises `ValueError` for an int of more than 4300 decimal digits, so formatting such a component in the f-strings raises; the model prints it.
- Points.Render: the read-back is stated for reports with int components only. Other values can print text that contains `, Y=`, and then the printed line is ambiguous.
- Patterns.Match: a value pattern whose name is not in scope fails to match; in Python, looking the name up raises `NameError`. The source has no value patterns; they are modelled so that the scope independence of capture names is a property the model proves rather than one it assumes.
- Bindings from a failed case attempt are not kept. Python may leave such partial bindings, but in `match_point` every case that fires rebinds the names its body reads.
- Guards (`case p if cond`), star patterns, mapping, class and OR patterns are not used by the source and are not modelled.
