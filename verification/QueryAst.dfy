/** The search query's syntax tree. Strings are sequences of characters; every character with a meaning is ASCII. */
module QueryAst {
  datatype Node =
    | MatchAll
    | And(left: Node, right: Node)
    | Or(left: Node, right: Node)
    | Not(expr: Node)
    | Term(value: string, phrase: bool)
    | FieldEq(field: string, value: string)
    | FieldExists(field: string)
    | FieldCompare(field: string, op: string, value: string)
    | FieldRange(field: string, lo: string, hi: string, includeLo: bool, includeHi: bool)

  const EXISTS := "_exists_"

  predicate ValidOp(op: string) {
    op == ">" || op == "<" || op == ">=" || op == "<="
  }

  predicate IsWildcard(c: char) { c == '*' || c == '?' }

  /** Does s contain a wildcard? */
  method HasWildcard(s: string) returns (found: bool)
    ensures found <==> exists i :: 0 <= i < |s| && IsWildcard(s[i])
  {
    for i := 0 to |s|
      invariant forall k :: 0 <= k < i ==> !IsWildcard(s[k])
    {
      if IsWildcard(s[i]) {
        return true;
      }
    }
    return false;
  }
}
