/** JSON values as the executor sees them once `json.loads` has run, with
    the Python semantics of `json.dumps`, truthiness, `==`, `in` and `len`
    over them.  Floating-point numbers are not part of this model. */
module Json {
  import opened Wrappers
  import Dicts
  import Text

  /** A decoded JSON value: Python's None, bool, int, str, list and dict.
      Objects keep their keys in insertion order, as Python dicts do. */
  datatype JValue =
    | JNull
    | JBool(b: bool)
    | JInt(i: int)
    | JStr(s: string)
    | JList(items: seq<JValue>)
    | JObj(members: Dicts.Dict<string, JValue>)

  /** `json.loads`: library code, so the model takes it as a parameter.
      `None` stands for the `JSONDecodeError` it raises. */
  type Decoder = string -> Option<JValue>

  /** `d.get(k)` on a dict: the stored value, or None when the key is missing. */
  function Member(ms: Dicts.Dict<string, JValue>, k: string): (r: JValue)
    ensures k !in Dicts.Keys(ms) ==> r == JNull
  {
    Dicts.Get(ms, k).GetOr(JNull)
  }

  /** Python truthiness (`if not x`). */
  predicate Truthy(v: JValue)
  {
    match v
    case JNull => false
    case JBool(b) => b
    case JInt(i) => i != 0
    case JStr(s) => s != ""
    case JList(xs) => xs != []
    case JObj(ms) => ms != []
  }

  // ---------------------------------------------------------------------
  // json.dumps(v, ensure_ascii=False)

  function DigitChar(d: nat): char
    requires d < 10
  {
    "0123456789"[d]
  }

  function NatText(n: nat): (r: string)
    ensures |r| >= 1
  {
    if n < 10 then [DigitChar(n)] else NatText(n / 10) + [DigitChar(n % 10)]
  }

  function IntText(i: int): string
  {
    if i < 0 then "-" + NatText(-i) else NatText(i)
  }

  function HexDigit(d: nat): char
    requires d < 16
  {
    "0123456789abcdef"[d]
  }

  /** One character inside a JSON string literal, as Python escapes it:
      quote, backslash and the control characters below U+0020; everything
      else (non-ASCII included, since ensure_ascii is off) is kept. */
  function EscapeChar(c: char): string
  {
    if c == '"' then "\\\""
    else if c == '\\' then "\\\\"
    else if c == '\n' then "\\n"
    else if c == '\r' then "\\r"
    else if c == '\t' then "\\t"
    else if c as int == 8 then "\\b"
    else if c as int == 12 then "\\f"
    else if (c as int) < 32 then "\\u00" + [HexDigit(c as int / 16), HexDigit(c as int % 16)]
    else [c]
  }

  function Escape(s: string): string
  {
    if s == [] then "" else EscapeChar(s[0]) + Escape(s[1..])
  }

  function Quote(s: string): (r: string)
    ensures |r| >= 2 && r[0] == '"'
  {
    "\"" + Escape(s) + "\""
  }

  /** Pieces joined by Python's default item separator ", ". */
  function CommaJoin(pieces: seq<string>): string
  {
    if pieces == [] then ""
    else if |pieces| == 1 then pieces[0]
    else pieces[0] + ", " + CommaJoin(pieces[1..])
  }

  /** `json.dumps(v, ensure_ascii=False)`. */
  function Dumps(v: JValue): (r: string)
    decreases v
  {
    match v
    case JNull => "null"
    case JBool(b) => if b then "true" else "false"
    case JInt(i) => IntText(i)
    case JStr(s) => Quote(s)
    case JList(xs) =>
      "[" + CommaJoin(seq(|xs|, k requires 0 <= k < |xs| => Dumps(xs[k]))) + "]"
    case JObj(ms) =>
      "{" + CommaJoin(seq(|ms|, k requires 0 <= k < |ms| => Quote(ms[k].0) + ": " + Dumps(ms[k].1))) + "}"
  }

  // ---------------------------------------------------------------------
  // Python comparison operators on decoded values

  function BoolAsInt(b: bool): int { if b then 1 else 0 }

  /** Python `a == b` on decoded values: dicts compare by key set and per-key
      value regardless of order, lists element-wise, and `True == 1`. */
  predicate PyEq(a: JValue, b: JValue)
    decreases a
  {
    match a
    case JNull => b.JNull?
    case JBool(x) => (b.JBool? && b.b == x) || (b.JInt? && b.i == BoolAsInt(x))
    case JInt(x) => (b.JInt? && b.i == x) || (b.JBool? && BoolAsInt(b.b) == x)
    case JStr(x) => b.JStr? && b.s == x
    case JList(xs) =>
      b.JList? && |b.items| == |xs| &&
      forall k :: 0 <= k < |xs| ==> PyEq(xs[k], b.items[k])
    case JObj(ms) =>
      b.JObj? && (set k | k in Dicts.Keys(ms)) == (set k | k in Dicts.Keys(b.members)) &&
      forall k :: 0 <= k < |ms| ==> PyEq(ms[k].1, Member(b.members, ms[k].0))
  }

  /** Some element of the list is `==` to `a`. */
  predicate AnyEq(xs: seq<JValue>, a: JValue)
  {
    exists k :: 0 <= k < |xs| && PyEq(xs[k], a)
  }

  /** Python `a in b`: substring on strings, membership on lists, key test on
      dicts.  `Err` is the TypeError Python raises (a non-string left operand
      against a string, an unhashable list or dict against a dict, a right
      operand that is not a container). */
  function PyIn(a: JValue, b: JValue): (r: Result<bool>)
    ensures r.Ok? <==> (b.JStr? && a.JStr?) || b.JList? || (b.JObj? && !a.JList? && !a.JObj?)
  {
    match b
    case JStr(t) => if a.JStr? then Ok(Text.Contains(t, a.s)) else Err("TypeError: 'in <string>' requires string as left operand")
    case JList(xs) => Ok(AnyEq(xs, a))
    case JObj(ms) =>
      if a.JList? || a.JObj? then Err("TypeError: unhashable type")
      else Ok(a.JStr? && a.s in Dicts.Keys(ms))
    case _ => Err("TypeError: argument is not iterable")
  }

  /** Python `len(b)`; `None` is the TypeError for values without a length. */
  function PyLen(b: JValue): (r: Option<nat>)
    ensures r.Some? <==> b.JStr? || b.JList? || b.JObj?
  {
    match b
    case JStr(s) => Some(|s|)
    case JList(xs) => Some(|xs|)
    case JObj(ms) => Some(|ms|)
    case _ => None
  }

  /** The integer value Python's ordering operators use: ints, and bools as
      0/1.  `None` is the TypeError for anything else. */
  function PyNumber(a: JValue): Option<int>
  {
    match a
    case JInt(i) => Some(i)
    case JBool(b) => Some(BoolAsInt(b))
    case _ => None
  }
}
