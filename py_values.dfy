/** The values a graph-query row can hold, with Python's `==` on them (the
    test behind `in` and behind de-duplication) and Python's `repr`, which
    `str(list)` uses to print each element. */
module PyValues {
  import opened Text

  datatype Value =
    | Str(s: string)
    | Int(i: int)
    | Bool(b: bool)
    | Null
    | List(items: seq<Value>)

  /** A row returned by the query cursor: an ordered list of column values. */
  type Row = seq<Value>

  /** `bool` is a subclass of `int` in Python: `True == 1` and `False == 0`. */
  predicate IsNumeric(v: Value) {
    v.Int? || v.Bool?
  }

  function NumValue(v: Value): int
    requires IsNumeric(v)
  {
    if v.Int? then v.i else if v.b then 1 else 0
  }

  /** Python's `a == b` on row values. */
  predicate PyEq(a: Value, b: Value)
    decreases a
  {
    if IsNumeric(a) || IsNumeric(b) then
      IsNumeric(a) && IsNumeric(b) && NumValue(a) == NumValue(b)
    else
      match a
      case Str(s) => b.Str? && b.s == s
      case Null => b.Null?
      case List(xs) =>
        b.List? && |xs| == |b.items| &&
        forall k :: 0 <= k < |xs| ==> PyEq(xs[k], b.items[k])
      case _ => false
  }

  lemma {:induction false} PyEqReflexive(a: Value)
    ensures PyEq(a, a)
    decreases a
  {
    if a.List? {
      forall k | 0 <= k < |a.items| ensures PyEq(a.items[k], a.items[k]) {
        PyEqReflexive(a.items[k]);
      }
    }
  }

  lemma {:induction false} PyEqSymmetric(a: Value, b: Value)
    requires PyEq(a, b)
    ensures PyEq(b, a)
    decreases a
  {
    if a.List? && b.List? {
      forall k | 0 <= k < |b.items| ensures PyEq(b.items[k], a.items[k]) {
        PyEqSymmetric(a.items[k], b.items[k]);
      }
    }
  }

  lemma {:induction false} PyEqTransitive(a: Value, b: Value, c: Value)
    requires PyEq(a, b) && PyEq(b, c)
    ensures PyEq(a, c)
    decreases a
  {
    if a.List? && b.List? && c.List? {
      forall k | 0 <= k < |a.items| ensures PyEq(a.items[k], c.items[k]) {
        PyEqTransitive(a.items[k], b.items[k], c.items[k]);
      }
    }
  }

  /** Python's `x in xs` on a list: some element compares equal to `x`. */
  predicate InList(x: Value, xs: seq<Value>) {
    exists k :: 0 <= k < |xs| && PyEq(xs[k], x)
  }

  /** A character Python's `repr` writes as a `\xhh` escape: the C0 and C1
      control characters, DEL, the no-break space and the soft hyphen. */
  predicate HexEscaped(c: char) {
    c as int < 0x20 || (0x7f <= c as int <= 0xa0) || c as int == 0xad
  }

  function HexDigit(d: nat): char
    requires d < 16
  {
    "0123456789abcdef"[d]
  }

  /** How `repr` writes one character of a string quoted with `quote`. */
  function EscapeChar(c: char, quote: char): (r: string)
    ensures |r| >= 1
  {
    if c == quote || c == '\\' then ['\\', c]
    else if c == '\t' then "\\t"
    else if c == '\n' then "\\n"
    else if c == '\r' then "\\r"
    else if HexEscaped(c) then "\\x" + [HexDigit(c as int / 16), HexDigit(c as int % 16)]
    else [c]
  }

  function Escaped(s: string, quote: char): string
  {
    if s == [] then "" else EscapeChar(s[0], quote) + Escaped(s[1..], quote)
  }

  /** `repr` of a string: single quotes unless the text holds a single quote
      and no double quote. */
  function StrRepr(s: string): string
  {
    var quote := if '\'' in s && '"' !in s then '"' else '\'';
    [quote] + Escaped(s, quote) + [quote]
  }

  /** `", ".join(parts)`. */
  function CommaJoined(parts: seq<string>): string
  {
    if parts == [] then "" else if |parts| == 1 then parts[0]
    else parts[0] + ", " + CommaJoined(parts[1..])
  }

  /** Python's `repr(v)`. */
  function Repr(v: Value): string
    decreases v
  {
    match v
    case Str(s) => StrRepr(s)
    case Int(i) => IntDecimal(i)
    case Bool(b) => if b then "True" else "False"
    case Null => "None"
    case List(xs) => ListRepr(xs)
  }

  /** Python's `str(xs)` (equal to `repr(xs)`) for a list. */
  function ListRepr(xs: seq<Value>): string
    decreases List(xs), 0
  {
    "[" + CommaJoined(seq(|xs|, k requires 0 <= k < |xs| => Repr(xs[k]))) + "]"
  }

  /** Text `repr` copies unchanged between single quotes: no quote, no
      backslash, no character it escapes. */
  predicate PlainText(s: string) {
    forall k :: 0 <= k < |s| ==> s[k] != '\'' && s[k] != '\\' && !HexEscaped(s[k])
  }

  lemma {:induction false} EscapedPlain(s: string)
    requires PlainText(s)
    ensures Escaped(s, '\'') == s
    decreases |s|
  {
    if s != [] {
      assert PlainText(s[1..]) by {
        forall k | 0 <= k < |s[1..]| ensures s[1..][k] != '\'' && s[1..][k] != '\\' && !HexEscaped(s[1..][k]) {
          assert s[1..][k] == s[k + 1];
        }
      }
      EscapedPlain(s[1..]);
      assert EscapeChar(s[0], '\'') == [s[0]];
      assert s == [s[0]] + s[1..];
    }
  }

  /** `repr` of plain text is the text between single quotes. */
  lemma StrReprPlain(s: string)
    requires PlainText(s)
    ensures StrRepr(s) == "'" + s + "'"
  {
    EscapedPlain(s);
  }

  /** `str` of a list of two plain strings. */
  lemma ListReprTwoStrings(a: string, b: string)
    requires PlainText(a) && PlainText(b)
    ensures ListRepr([Str(a), Str(b)]) == "['" + a + "', '" + b + "']"
  {
    StrReprPlain(a);
    StrReprPlain(b);
    var parts := seq(2, k requires 0 <= k < 2 => Repr([Str(a), Str(b)][k]));
    assert parts == [StrRepr(a), StrRepr(b)];
    assert parts[1..] == [StrRepr(b)];
    assert CommaJoined(parts) == StrRepr(a) + ", " + StrRepr(b);
  }
}
