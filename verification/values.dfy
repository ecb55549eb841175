/**
 The Python values a `match` subject can be, as far as the classifier and the
 bare-name snippet can tell them apart, and how `print` shows them.
 */
module Values {
  import opened Wrappers
  import opened Decimal

  /**
   `Int` is a Python int. `Tuple` is any sequence a sequence pattern accepts
   (tuple, list, ...). `Other` is every remaining object (None, str, dict, ...),
   represented by the text Python prints for it.
   */
  datatype Value = Int(i: int) | Tuple(items: seq<Value>) | Other(text: string)

  /** A 2-element sequence: what `case (x, y)` accepts. */
  predicate IsPair(v: Value) {
    v.Tuple? && |v.items| == 2
  }

  function Pair(x: int, y: int): (v: Value)
    ensures IsPair(v) && v.items[0] == Int(x) && v.items[1] == Int(y)
  {
    Tuple([Int(x), Int(y)])
  }

  /**
   Python `str(v)`; a tuple shows its elements separated by `, `, a 1-tuple
   with a trailing comma. An int prints as a numeral that reads back as it.
   */
  function Str(v: Value): (s: string)
    ensures v.Int? ==> ParseInt(s) == Some(v.i) && ' ' !in s
    decreases v
  {
    match v
    case Int(i) => IntToString(i)
    case Other(text) => text
    case Tuple(items) =>
      "(" + StrItems(items) + (if |items| == 1 then "," else "") + ")"
  }

  function StrItems(items: seq<Value>): string
    decreases items
  {
    if |items| == 0 then ""
    else if |items| == 1 then Str(items[0])
    else Str(items[0]) + ", " + StrItems(items[1..])
  }

  /**
   The line `print(a, b)` writes: both values separated by one space. When
   `a` is an int, its numeral ends at the first space, so the line gives back
   both ints.
   */
  function PrintLine(a: Value, b: Value): (s: string)
    ensures a.Int? ==>
      var k := IndexOf(s, ' ');
      && k < |s|
      && ParseInt(s[..k]) == Some(a.i)
      && (b.Int? ==> ParseInt(s[k + 1..]) == Some(b.i))
  {
    var left := Str(a);
    var s := left + " " + Str(b);
    assert s[..|left|] == left && s[|left| + 1..] == Str(b);
    assert forall i :: 0 <= i < |left| ==> s[i] == left[i];
    assert s[|left|] == ' ';
    s
  }

  /** Position of the first `c` in `s`, or `|s|` when there is none. */
  function IndexOf(s: string, c: char): (k: nat)
    ensures k <= |s|
    ensures forall i :: 0 <= i < k ==> s[i] != c
    ensures k < |s| ==> s[k] == c
    decreases |s|
  {
    if |s| == 0 then 0
    else if s[0] == c then 0
    else 1 + IndexOf(s[1..], c)
  }

}
