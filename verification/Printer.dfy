/** The text of an item: what `cJSON_Print` and `cJSON_PrintUnformatted` render. */
module Printer {
  import opened CString
  import opened JsonTree
  import opened StringLiteral

  const INT_MAX := 0x7FFF_FFFF
  const INT_MIN := -0x8000_0000

  /** `%d`. */
  function PrintInt(n: int): (s: string)
    ensures s != ""
  {
    if n < 0 then "-" + Decimal(-n) else Decimal(n)
  }

  function Tabs(n: nat): (s: string)
    ensures |s| == n && forall i | 0 <= i < n :: s[i] == '\t'
  {
    seq(n, i => '\t')
  }

  /** Text that only formatted output has. */
  function If(format: bool, s: string): string {
    if format then s else ""
  }

  /** The text of an item inside `depth` open containers. */
  function Print(j: Json, depth: nat, format: bool): string
    decreases j, 1
  {
    match j
    case Invalid => ""
    case Null => "null"
    case True => "true"
    case False => "false"
    case Number(n) => PrintInt(n)
    case String(s) => Quote(s)
    case Array(items) => "[" + PrintItems(items, depth + 1, format) + "]"
    case Object(ms) =>
      "{" + If(format, "\n") + PrintMembers(ms, depth + 1, format) + If(format, Tabs(depth)) + "}"
  }

  /** Elements with a separator after each but the last. */
  function PrintItems(items: seq<Json>, depth: nat, format: bool): string
    decreases items, 0
  {
    if items == [] then ""
    else
      Print(items[0], depth, format) +
      (if |items| > 1 then "," + If(format, " ") + PrintItems(items[1..], depth, format) else "")
  }

  function PrintMember(m: Member, depth: nat, format: bool): string
    decreases m, 2
  {
    Quote(m.key) + ":" + If(format, "\t") + Print(m.value, depth, format)
  }

  /** Each member on its own line, a comma after each but the last. */
  function PrintMembers(ms: seq<Member>, depth: nat, format: bool): string
    decreases ms, 0
  {
    if ms == [] then ""
    else
      If(format, Tabs(depth)) + PrintMember(ms[0], depth, format) +
      (If(|ms| > 1, ",") + If(format, "\n") + PrintMembers(ms[1..], depth, format))
  }

  /** What can be printed and read back: known types, numbers in the range of an int, C strings. */
  predicate Printable(j: Json) {
    match j
    case Invalid => false
    case Number(n) => INT_MIN <= n <= INT_MAX
    case String(s) => NulFree(s)
    case Array(items) => forall i | 0 <= i < |items| :: Printable(items[i])
    case Object(ms) => forall i | 0 <= i < |ms| :: NulFree(ms[i].key) && Printable(ms[i].value)
    case _ => true
  }

  lemma EmptyItems(depth: nat, format: bool)
    ensures PrintItems([], depth, format) == ""
  {
  }

  lemma EmptyMembers(depth: nat, format: bool)
    ensures PrintMembers([], depth, format) == ""
  {
  }
}
