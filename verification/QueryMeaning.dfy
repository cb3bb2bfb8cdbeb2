/** What a query says about one message, in three-valued logic and in the two-valued reading. */
module QueryMeaning {
  import opened Wrappers
  import opened QueryAst
  import opened Wildcard

  /** SQL truth: a condition on an absent value is unknown. */
  datatype Kleene = True | False | Unknown

  function KOf(b: bool): Kleene { if b then True else False }

  function KNot(a: Kleene): Kleene {
    match a
    case True => False
    case False => True
    case Unknown => Unknown
  }

  function KAnd(a: Kleene, b: Kleene): Kleene {
    if a == False || b == False then False
    else if a == True && b == True then True
    else Unknown
  }

  function KOr(a: Kleene, b: Kleene): Kleene { KNot(KAnd(KNot(a), KNot(b))) }

  /** A 64-bit float, without its rounding. */
  datatype Num = Finite(x: real) | Infinite(negative: bool) | NaN

  /** Parsing and comparison that belong to the libraries: the same for every row. */
  datatype Env = Env(
    parseFloat: string -> Option<Num>,
    parseTime: string -> Option<real>,
    affinity: string -> Option<real>,
    foldEq: (char, char) -> bool,
    textLess: (string, string) -> bool)

  /** A value in the JSON column: its text and its number, as CAST gives them. */
  datatype JsonValue = JsonValue(text: string, num: real)

  datatype Column = Source | Stream | InputId | Id

  /** One stored message, and which full-text expressions its body matches. */
  datatype Row = Row(
    ts: real,
    received: real,
    columns: Column -> Option<string>,
    json: string -> Option<JsonValue>,
    matches: string -> bool)

  // ---- fields ----

  function ColumnOf(field: string): Option<Column> {
    if field == "source" then Some(Source)
    else if field == "stream" then Some(Stream)
    else if field == "input_id" || field == "input" then Some(InputId)
    else if field == "id" then Some(Id)
    else None
  }

  predicate IsFullText(field: string) { field == "message" || field == "body" }

  predicate IsTimestamp(field: string) { field == "timestamp" || field == "ts" }

  predicate IsReceived(field: string) { field == "received" || field == "received_at" }

  predicate IsNameChar(c: char) {
    'a' <= c <= 'z' || 'A' <= c <= 'Z' || '0' <= c <= '9' || c == '_' || c == '.' || c == '-'
  }

  predicate ValidName(field: string) {
    field != "" && forall i :: 0 <= i < |field| ==> IsNameChar(field[i])
  }

  /** Compared as a number: the two times and every field that is not a text column. */
  predicate IsNumeric(field: string) {
    IsTimestamp(field) || IsReceived(field) || (ColumnOf(field).None? && ValidName(field))
  }

  function TextOf(row: Row, field: string): Option<string> {
    if ColumnOf(field).Some? then row.columns(ColumnOf(field).value)
    else if row.json(field).Some? then Some(row.json(field).value.text)
    else None
  }

  function NumberOf(row: Row, field: string): Option<real> {
    if IsTimestamp(field) then Some(row.ts)
    else if IsReceived(field) then Some(row.received)
    else if row.json(field).Some? then Some(row.json(field).value.num)
    else None
  }

  /** The number a query writes for a field: an RFC 3339 time for the two times, otherwise a decimal. */
  function NumericValue(env: Env, field: string, v: string): Option<Num> {
    if (IsTimestamp(field) || IsReceived(field)) && env.parseTime(v).Some? then Some(Finite(env.parseTime(v).value))
    else env.parseFloat(v)
  }

  // ---- full text ----

  function NoQuotes(s: string): string {
    if s == "" then "" else [if s[0] == '\"' then ' ' else s[0]] + NoQuotes(s[1..])
  }

  predicate IsTokenChar(c: char) { 'a' <= c <= 'z' || 'A' <= c <= 'Z' || '0' <= c <= '9' || c == '_' }

  function OnlyTokenChars(s: string): string {
    if s == "" then "" else (if IsTokenChar(s[0]) then [s[0]] else "") + OnlyTokenChars(s[1..])
  }

  /** A single star, at the end. */
  predicate IsPrefixSearch(v: string) {
    v != "" && v[|v| - 1] == '*' && forall i :: 0 <= i < |v| - 1 ==> v[i] != '*'
  }

  /** The full-text expression for a term: a prefix token, or one quoted phrase. */
  function FtsMatch(v: string, phrase: bool): string {
    if !phrase && IsPrefixSearch(v) && OnlyTokenChars(v[..|v| - 1]) != "" then OnlyTokenChars(v[..|v| - 1]) + "*"
    else "\"" + NoQuotes(v) + "\""
  }

  lemma {:induction false} NoQuotesHasNone(s: string)
    ensures |NoQuotes(s)| == |s|
    ensures forall i :: 0 <= i < |s| ==> NoQuotes(s)[i] == if s[i] == '\"' then ' ' else s[i]
  {
    if s != "" {
      NoQuotesHasNone(s[1..]);
    }
  }

  lemma {:induction false} OnlyTokenCharsAre(s: string)
    ensures forall i :: 0 <= i < |OnlyTokenChars(s)| ==> IsTokenChar(OnlyTokenChars(s)[i])
  {
    if s != "" {
      OnlyTokenCharsAre(s[1..]);
    }
  }

  /** A stem keeps every letter, digit and underscore, in place, and nothing else. */
  lemma {:induction false} StemKeeps(s: string, c: char)
    ensures OnlyTokenChars(s + [c]) == OnlyTokenChars(s) +
            if 'a' <= c <= 'z' || 'A' <= c <= 'Z' || '0' <= c <= '9' || c == '_' then [c] else []
  {
    if s == "" {
      assert s + [c] == [c] && [c][1..] == "";
    } else {
      assert (s + [c])[1..] == s[1..] + [c];
      StemKeeps(s[1..], c);
    }
  }

  /**
    * A term is looked up as it is written: a phrase holds its characters in place, with blanks for the double
    * quotes, and a single star at the end, behind a letter, a digit or an underscore, makes a prefix of them.
    */
  lemma FtsMatchKeeps(v: string, phrase: bool)
    ensures var m := FtsMatch(v, phrase);
            if HasStem(v, phrase) then m == OnlyTokenChars(v[..|v| - 1]) + "*"
            else && |m| == |v| + 2 && m[0] == '"' == m[|v| + 1]
                 && forall i :: 0 <= i < |v| ==> m[i + 1] == if v[i] == '"' then ' ' else v[i]
    ensures HasStem(v, phrase) <==>
            && !phrase && v != "" && v[|v| - 1] == '*' && '*' !in v[..|v| - 1]
            && exists i :: 0 <= i < |v| - 1 && IsTokenChar(v[i])
  {
    hide OnlyTokenChars, NoQuotes, IsTokenChar;
    NoQuotesHasNone(v);
    if v != "" {
      var stem := v[..|v| - 1];
      assert (forall i :: 0 <= i < |v| - 1 ==> v[i] != '*') <==> '*' !in stem;
      HasTokenChar(stem);
      assert (exists i :: 0 <= i < |v| - 1 && IsTokenChar(v[i])) <==>
             exists i :: 0 <= i < |stem| && IsTokenChar(stem[i]);
    }
  }

  lemma {:induction false} HasTokenChar(s: string)
    ensures OnlyTokenChars(s) != "" <==> exists i :: 0 <= i < |s| && IsTokenChar(s[i])
  {
    if s != "" {
      HasTokenChar(s[1..]);
      if i :| 0 <= i < |s[1..]| && IsTokenChar(s[1..][i]) {
        assert IsTokenChar(s[i + 1]);
      }
      if i :| 0 <= i < |s| && IsTokenChar(s[i]) {
        assert i > 0 ==> s[1..][i - 1] == s[i];
      }
    }
  }

  /** The barewords that the full-text language reads as operators. */
  predicate IsOperator(s: string) { s == "AND" || s == "OR" || s == "NOT" }

  /** One bare prefix token. */
  predicate BarePrefix(m: string) {
    && |m| > 1 && m[|m| - 1] == '*'
    && (forall i :: 0 <= i < |m| - 1 ==> IsTokenChar(m[i]))
    && !IsOperator(m[..|m| - 1])
  }

  /** One quoted phrase, closed at its end only, and without the NUL at which the full-text language stops reading. */
  predicate ClosedPhrase(m: string) {
    |m| > 1 && m[0] == '\"' == m[|m| - 1] && forall i :: 0 < i < |m| - 1 ==> m[i] != '\"' && m[i] != '\0'
  }

  /** An expression that the full-text language reads as one token or one phrase. */
  predicate Inert(m: string) { BarePrefix(m) || ClosedPhrase(m) }

  /** The term is a prefix search for the name of an operator, once the other characters are stripped. */
  predicate OperatorStem(v: string, phrase: bool) {
    !phrase && IsPrefixSearch(v) && IsOperator(OnlyTokenChars(v[..|v| - 1]))
  }

  /** The term becomes a prefix token. */
  predicate HasStem(v: string, phrase: bool) {
    !phrase && IsPrefixSearch(v) && OnlyTokenChars(v[..|v| - 1]) != ""
  }

  /** The full-text language reads an operator in the term, or the beginning of a phrase only. */
  predicate Rejected(v: string, phrase: bool) {
    OperatorStem(v, phrase) || (!HasStem(v, phrase) && '\0' in v)
  }

  /**
    * A term becomes one prefix token or one phrase exactly when it is no prefix search for an operator's name,
    * and holds no NUL unless it is a prefix search, which loses it.
    */
  lemma FtsMatchIsInert(v: string, phrase: bool)
    ensures Inert(FtsMatch(v, phrase)) <==> !Rejected(v, phrase)
  {
    hide OnlyTokenChars, NoQuotes, IsTokenChar;
    if HasStem(v, phrase) {
      var stem := OnlyTokenChars(v[..|v| - 1]);
      OnlyTokenCharsAre(v[..|v| - 1]);
      assert (stem + "*")[..|stem|] == stem;
      StemIsNoPhrase(stem);
    } else {
      PhraseIff(v);
    }
  }

  lemma PhraseIff(v: string)
    ensures Inert("\"" + NoQuotes(v) + "\"") <==> '\0' !in v
  {
    hide NoQuotes;
    NoQuotesHasNone(v);
    var m := "\"" + NoQuotes(v) + "\"";
    assert m[|m| - 1] == '\"' && forall i :: 0 < i < |m| - 1 ==> m[i] == NoQuotes(v)[i - 1];
    if '\0' in v {
      var k :| 0 <= k < |v| && v[k] == '\0';
      assert m[k + 1] == '\0';
    }
  }

  lemma StemIsNoPhrase(stem: string)
    requires forall i :: 0 <= i < |stem| ==> IsTokenChar(stem[i])
    ensures !ClosedPhrase(stem + "*")
  {
  }

  /** The search AND* is passed on as the operator AND and a star. */
  lemma AndStarIsAnOperator()
    ensures FtsMatch("AND*", false) == "AND*" && !Inert("AND*")
    ensures FtsMatch("A-ND*", false) == "AND*"
  {
    assert "AND*"[..3] == "AND" && "A-ND*"[..4] == "A-ND";
    assert OnlyTokenChars("ND") == "ND";
    assert OnlyTokenChars("AND") == "AND";
    assert OnlyTokenChars("-ND") == "ND";
    FtsMatchIsInert("AND*", false);
  }

  /** So are OR* and NOT*. */
  lemma OrAndNotAreOperators()
    ensures FtsMatch("OR*", false) == "OR*" && !Inert("OR*")
    ensures FtsMatch("NOT*", false) == "NOT*" && !Inert("NOT*")
  {
    hide Inert, OnlyTokenChars, FtsMatch;
    assert "OR*"[..2] == "OR" && "NOT*"[..3] == "NOT";
    KeywordStem("OR");
    KeywordStem("NOT");
    assert "OR" + "*" == "OR*" && "NOT" + "*" == "NOT*";
  }

  lemma KeywordStem(w: string)
    requires IsOperator(w)
    ensures FtsMatch(w + "*", false) == w + "*" && !Inert(w + "*")
  {
    hide Inert, OnlyTokenChars, NoQuotes;
    assert (w + "*")[..|w|] == w;
    TokenCharsStay(w);
    FtsMatchIsInert(w + "*", false);
  }

  lemma {:induction false} TokenCharsStay(s: string)
    requires forall i :: 0 <= i < |s| ==> IsTokenChar(s[i])
    ensures OnlyTokenChars(s) == s
  {
    if s != "" {
      TokenCharsStay(s[1..]);
      assert s == [s[0]] + s[1..];
    }
  }

  /** A phrase with a NUL in it is not closed for the full-text language. */
  lemma NulIsRejected()
    ensures !Inert(FtsMatch("a\0", true))
  {
    assert "a\0"[1] == '\0';
    FtsMatchIsInert("a\0", true);
  }

  // ---- comparison ----

  predicate CompareNumbers(x: real, op: string, y: real) {
    if op == ">" then x > y
    else if op == "<" then x < y
    else if op == ">=" then x >= y
    else x <= y
  }

  /** A number against a float: the infinities lie beyond all numbers, and NaN is bound as NULL. */
  function CompareNum(x: real, op: string, y: Num): Kleene {
    match y
    case Finite(z) => KOf(CompareNumbers(x, op, z))
    case Infinite(negative) => KOf(if negative then op == ">" || op == ">=" else op == "<" || op == "<=")
    case NaN => Unknown
  }

  predicate CompareTexts(env: Env, x: string, op: string, y: string) {
    if op == ">" then env.textLess(y, x)
    else if op == "<" then env.textLess(x, y)
    else if op == ">=" then !env.textLess(x, y)
    else !env.textLess(y, x)
  }

  predicate HasWild(s: string) { exists i :: 0 <= i < |s| && IsWildcard(s[i]) }

  // ---- the three-valued meaning ----

  /** field op v, where v is a range bound; a bound that is no number compares above every number. */
  function Bound(env: Env, row: Row, field: string, op: string, v: string): Kleene {
    if IsNumeric(field) then
      match NumberOf(row, field)
      case None => Unknown
      case Some(x) =>
        if NumericValue(env, field, v).Some? then CompareNum(x, op, NumericValue(env, field, v).value)
        else
          var y := env.affinity(v);
          KOf(if y.Some? then CompareNumbers(x, op, y.value) else op == "<" || op == "<=")
    else
      match TextOf(row, field)
      case None => Unknown
      case Some(x) => KOf(CompareTexts(env, x, op, v))
  }

  function Meaning(env: Env, row: Row, n: Node): Kleene {
    match n
    case MatchAll => True
    case And(l, r) => KAnd(Meaning(env, row, l), Meaning(env, row, r))
    case Or(l, r) => KOr(Meaning(env, row, l), Meaning(env, row, r))
    case Not(e) => KNot(Meaning(env, row, e))
    case _ => LeafMeaning(env, row, n)
  }

  predicate IsLeaf(n: Node) { !n.MatchAll? && !n.And? && !n.Or? && !n.Not? }

  function LeafMeaning(env: Env, row: Row, n: Node): Kleene
    requires IsLeaf(n)
  {
    match n
    case Term(v, phrase) => KOf(row.matches(FtsMatch(v, phrase)))
    case FieldEq(f, v) =>
      if IsFullText(f) then KOf(row.matches(FtsMatch(v, false)))
      else if TextOf(row, f).None? then Unknown
      else if HasWild(v) then KOf(Glob(v, TextOf(row, f).value, env.foldEq))
      else KOf(TextOf(row, f).value == v)
    case FieldExists(f) =>
      KOf(TextOf(row, f).Some? && (ColumnOf(f).Some? ==> TextOf(row, f).value != ""))
    case FieldCompare(f, op, v) => Bound(env, row, f, op, v)
    case FieldRange(f, lo, hi, il, ih) =>
      KAnd(if lo == "*" then True else Bound(env, row, f, if il then ">=" else ">", lo),
           if hi == "*" then True else Bound(env, row, f, if ih then "<=" else "<", hi))
  }

  // ---- the two-valued reading ----

  /** The reading a user expects: a condition on an absent value is simply not met. */
  predicate Sat(env: Env, row: Row, n: Node) {
    match n
    case MatchAll => true
    case And(l, r) => Sat(env, row, l) && Sat(env, row, r)
    case Or(l, r) => Sat(env, row, l) || Sat(env, row, r)
    case Not(e) => !Sat(env, row, e)
    case _ => LeafMeaning(env, row, n) == True
  }

  /** The leaf asks about a value this row does not have. */
  predicate Absent(row: Row, n: Node)
    requires IsLeaf(n)
  {
    match n
    case FieldEq(f, _) => !IsFullText(f) && TextOf(row, f).None?
    case FieldCompare(f, _, _) => if IsNumeric(f) then NumberOf(row, f).None? else TextOf(row, f).None?
    case FieldRange(f, lo, hi, _, _) =>
      !(lo == "*" && hi == "*") && if IsNumeric(f) then NumberOf(row, f).None? else TextOf(row, f).None?
    case _ => false
  }

  /** The text of a bound is NaN to the number parser. */
  predicate IsNaN(env: Env, field: string, v: string) { IsNumeric(field) && NumericValue(env, field, v) == Some(NaN) }

  /** The leaf has no answer: it asks about an absent value, or against a NaN and no other bound rules the row out. */
  predicate Blank(env: Env, row: Row, n: Node)
    requires IsLeaf(n)
  {
    Absent(row, n) ||
    match n
    case FieldCompare(f, _, v) => IsNaN(env, f, v)
    case FieldRange(f, lo, hi, il, ih) =>
      var noLo := lo != "*" && IsNaN(env, f, lo);
      var noHi := hi != "*" && IsNaN(env, f, hi);
      || (noLo && (hi == "*" || noHi || Bound(env, row, f, if ih then "<=" else "<", hi) == True))
      || (noHi && (lo == "*" || Bound(env, row, f, if il then ">=" else ">", lo) == True))
    case _ => false
  }

  /** No leaf under an odd number of NOTs is without an answer. */
  predicate NoBlankNegated(env: Env, row: Row, n: Node, negated: bool) {
    match n
    case MatchAll => true
    case And(l, r) => NoBlankNegated(env, row, l, negated) && NoBlankNegated(env, row, r, negated)
    case Or(l, r) => NoBlankNegated(env, row, l, negated) && NoBlankNegated(env, row, r, negated)
    case Not(e) => NoBlankNegated(env, row, e, !negated)
    case _ => negated ==> !Blank(env, row, n)
  }

  /** A leaf is unknown exactly when its value is absent or it compares with NaN. */
  lemma UnknownIsBlank(env: Env, row: Row, n: Node)
    requires IsLeaf(n)
    ensures LeafMeaning(env, row, n) == Unknown <==> Blank(env, row, n)
  {
    hide CompareNumbers, CompareTexts, IsNumeric, TextOf, NumberOf, Glob, FtsMatch, HasWild;
  }

  /** Three-valued truth is the cautious one: what it decides, the two-valued reading confirms. */
  lemma {:induction false} DecidedAgrees(env: Env, row: Row, n: Node)
    ensures Meaning(env, row, n) == True ==> Sat(env, row, n)
    ensures Meaning(env, row, n) == False ==> !Sat(env, row, n)
  {
    hide LeafMeaning;
    match n
    case MatchAll =>
    case And(l, r) =>
      DecidedAgrees(env, row, l);
      DecidedAgrees(env, row, r);
    case Or(l, r) =>
      DecidedAgrees(env, row, l);
      DecidedAgrees(env, row, r);
    case Not(e) => DecidedAgrees(env, row, e);
    case _ =>
  }

  /**
    * The reading that gives a leaf without an answer the worse of the two: met under an odd number of NOTs,
    * not met otherwise.
    */
  predicate Pess(env: Env, row: Row, n: Node, negated: bool) {
    match n
    case MatchAll => true
    case And(l, r) => Pess(env, row, l, negated) && Pess(env, row, r, negated)
    case Or(l, r) => Pess(env, row, l, negated) || Pess(env, row, r, negated)
    case Not(e) => !Pess(env, row, e, !negated)
    case _ => if Blank(env, row, n) then negated else LeafMeaning(env, row, n) == True
  }

  /** What a whole query selects, and what it rules out, in two-valued terms. */
  lemma {:induction false} SelectedIsPess(env: Env, row: Row, n: Node)
    ensures Meaning(env, row, n) == True <==> Pess(env, row, n, false)
    ensures Meaning(env, row, n) == False <==> !Pess(env, row, n, true)
  {
    hide LeafMeaning, Blank;
    match n
    case MatchAll =>
    case And(l, r) =>
      SelectedIsPess(env, row, l);
      SelectedIsPess(env, row, r);
    case Or(l, r) =>
      SelectedIsPess(env, row, l);
      SelectedIsPess(env, row, r);
    case Not(e) => SelectedIsPess(env, row, e);
    case _ => UnknownIsBlank(env, row, n);
  }

  /**
    * The rows a user expects and does not get are exactly those that satisfy the two-valued reading and not
    * the pessimistic one; no row is selected that the two-valued reading rejects.
    */
  lemma MissedRows(env: Env, row: Row, n: Node)
    ensures Sat(env, row, n) && Meaning(env, row, n) != True <==> Sat(env, row, n) && !Pess(env, row, n, false)
    ensures !(Meaning(env, row, n) == True && !Sat(env, row, n))
  {
    SelectedIsPess(env, row, n);
    DecidedAgrees(env, row, n);
  }

  /**
    * Where no leaf under an odd number of NOTs is without an answer, the two readings select the same rows;
    * under an odd number of NOTs they reject the same rows.
    */
  lemma {:induction false} ReadingsAgree(env: Env, row: Row, n: Node, negated: bool)
    requires NoBlankNegated(env, row, n, negated)
    ensures !negated ==> (Meaning(env, row, n) == True <==> Sat(env, row, n))
    ensures negated ==> (Meaning(env, row, n) == False <==> !Sat(env, row, n))
  {
    hide LeafMeaning, Blank;
    match n
    case MatchAll =>
    case And(l, r) =>
      ReadingsAgree(env, row, l, negated);
      ReadingsAgree(env, row, r, negated);
    case Or(l, r) =>
      ReadingsAgree(env, row, l, negated);
      ReadingsAgree(env, row, r, negated);
    case Not(e) => ReadingsAgree(env, row, e, !negated);
    case _ => UnknownIsBlank(env, row, n);
  }

  /** For the negation of a single leaf: the readings differ just on leaves without an answer. */
  lemma NotLeafDiffers(env: Env, row: Row, n: Node)
    requires IsLeaf(n)
    ensures (Meaning(env, row, Not(n)) == True <==> Sat(env, row, Not(n))) <==> !Blank(env, row, n)
  {
    hide LeafMeaning, Blank;
    UnknownIsBlank(env, row, n);
  }

  /** NOT level:debug does not select a message without a level, though it does not have that level. */
  lemma NotMissesAbsent(env: Env, row: Row)
    requires row.json("level").None?
    ensures Sat(env, row, Not(FieldEq("level", "debug")))
    ensures Meaning(env, row, Not(FieldEq("level", "debug"))) == Unknown
  {
  }

  /** NOT status:>NaN does not select a message with a status either. */
  lemma NotMissesNaN(env: Env, row: Row)
    requires env.parseFloat("NaN") == Some(NaN) && row.json("status").Some?
    ensures Sat(env, row, Not(FieldCompare("status", ">", "NaN")))
    ensures Meaning(env, row, Not(FieldCompare("status", ">", "NaN"))) == Unknown
  {
  }
}
