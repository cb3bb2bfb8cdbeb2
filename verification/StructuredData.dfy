/**
  * Structured data of RFC 5424 messages (internal/decode/syslog.go): one scanner looks for the bracket that
  * closes an element, another one cuts the element into tokens. A printer by sections 6.3.1 to 6.3.3 of
  * RFC 5424 is what they are measured against.
  */
module StructuredData {
  import opened Wrappers
  import opened Sequences
  import opened Text

  // ---- the two scanners, as functions of the text left and the quote state ----

  function Shift(n: nat, i: Option<nat>): Option<nat> { if i.Some? then Some(n + i.value) else None }

  /** Where the closing bracket is, counted from the head of s. */
  function Close(s: string, quoted: bool): (i: Option<nat>)
    ensures i.Some? ==> i.value < |s| && s[i.value] == ']'
  {
    if s == "" then None
    else if s[0] == '\\' then (if |s| < 2 then None else Shift(2, Close(s[2..], quoted)))
    else if s[0] == '"' then Shift(1, Close(s[1..], !quoted))
    else if s[0] == ']' && !quoted then Some(0)
    else Shift(1, Close(s[1..], quoted))
  }

  function Flush(cur: string): seq<string> { if cur == "" then [] else [cur] }

  /** The tokens of s when the token begun so far is cur. */
  function Tokens(s: string, cur: string, quoted: bool): seq<string>
    decreases |s|
  {
    if s == "" then Flush(cur)
    else if s[0] == '\\' && |s| > 1 then Tokens(s[2..], cur + [s[1]], quoted)
    else if s[0] == '"' then Tokens(s[1..], cur + [s[0]], !quoted)
    else if s[0] == ' ' && !quoted then Flush(cur) + Tokens(s[1..], "", quoted)
    else Tokens(s[1..], cur + [s[0]], quoted)
  }

  /** The index of the closing bracket, or -1. */
  method IndexCloseBracket(s: string) returns (end: int)
    ensures end == match Close(s, false) case None => -1 case Some(i) => i
  {
    hide Close;
    var quoted := false;
    var i := 0;
    CloseNothing();
    while i < |s|
      invariant 0 <= i <= |s| + 1
      invariant Close(s, false) == if i <= |s| then Shift(i, Close(s[i..], quoted)) else None
    {
      CloseStep(s, i, quoted);
      if s[i] == '\\' {
        i := i + 1;
      } else if s[i] == '"' {
        quoted := !quoted;
      } else if s[i] == ']' {
        if !quoted {
          return i;
        }
      }
      i := i + 1;
    }
    return -1;
  }

  lemma CloseNothing()
    ensures Close("", false) == Close("", true) == None
  {
  }

  lemma CloseStep(s: string, i: nat, quoted: bool)
    requires i < |s|
    ensures Close(s[i..], quoted) ==
            if s[i] == '\\' then (if i + 1 < |s| then Shift(2, Close(s[i + 2..], quoted)) else None)
            else if s[i] == '"' then Shift(1, Close(s[i + 1..], !quoted))
            else if s[i] == ']' && !quoted then Some(0)
            else Shift(1, Close(s[i + 1..], quoted))
  {
    assert s[i..][1..] == s[i + 1..];
    if i + 1 < |s| {
      assert s[i..][2..] == s[i + 2..];
    }
  }

  /** A quote state, and whether the last character escapes what follows. */
  datatype End = End(quoted: bool, escaping: bool)

  /** The tokenizer's state at the end of a text. */
  function EndState(s: string, quoted: bool): End {
    if s == "" then End(quoted, false)
    else if s[0] == '\\' then (if |s| > 1 then EndState(s[2..], quoted) else End(quoted, true))
    else if s[0] == '"' then EndState(s[1..], !quoted)
    else EndState(s[1..], quoted)
  }

  lemma {:induction false} EndPass(a: string, b: string, quoted: bool)
    requires !EndState(a, quoted).escaping
    ensures EndState(a + b, quoted) == EndState(b, EndState(a, quoted).quoted)
  {
    if a == "" {
      assert a + b == b;
    } else {
      var skip := if a[0] == '\\' then 2 else 1;
      assert (a + b)[skip..] == a[skip..] + b;
      EndPass(a[skip..], b, if a[0] == '"' then !quoted else quoted);
    }
  }

  /** The state after one more turn of the tokenizer's loop. */
  lemma EndTurn(s: string, i: nat)
    requires i < |s| && !EndState(s[..i], false).escaping
    ensures var quoted := EndState(s[..i], false).quoted;
            && (s[i] == '\\' && i + 1 < |s| ==> EndState(s[..i + 2], false) == End(quoted, false))
            && (s[i] == '\\' ==> EndState(s[..i + 1], false) == End(quoted, true))
            && (s[i] == '"' ==> EndState(s[..i + 1], false) == End(!quoted, false))
            && (s[i] != '\\' && s[i] != '"' ==> EndState(s[..i + 1], false) == End(quoted, false))
  {
    var quoted := EndState(s[..i], false).quoted;
    assert s[..i + 1] == s[..i] + [s[i]];
    EndPass(s[..i], [s[i]], false);
    assert [s[i]][1..] == "";
    if s[i] == '\\' && i + 1 < |s| {
      assert s[..i + 2] == s[..i] + s[i..i + 2] && s[i..i + 2][2..] == "";
      EndPass(s[..i], s[i..i + 2], false);
    }
  }

  method TokenizeSD(elem: string) returns (out: seq<string>)
    ensures out == Tokens(elem, "", false)
  {
    hide Flush, EndState;
    var cur, quoted := "", false;
    out := [];
    var i := 0;
    EndOfNothing();
    while i < |elem|
      invariant 0 <= i <= |elem|
      invariant Tokens(elem, "", false) == out + Tokens(elem[i..], cur, quoted)
      invariant quoted == EndState(elem[..i], false).quoted
      invariant i < |elem| ==> !EndState(elem[..i], false).escaping
    {
      var c := elem[i];
      TokenStep(elem, i, cur, quoted);
      EndTurn(elem, i);
      if c == '\\' && i + 1 < |elem| {
        cur := cur + [elem[i + 1]];
        i := i + 1;
      } else if c == '"' {
        quoted := !quoted;
        cur := cur + [c];
      } else if c == ' ' && !quoted {
        Associates(out, Flush(cur), Tokens(elem[i + 1..], "", quoted));
        out := out + Flush(cur);
        cur := "";
      } else {
        cur := cur + [c];
      }
      i := i + 1;
    }
    out := out + Flush(cur);
  }

  lemma EndOfNothing()
    ensures forall s: string :: EndState(s[..0], false) == End(false, false)
  {
  }

  lemma TokenStep(s: string, i: nat, cur: string, quoted: bool)
    requires i < |s|
    ensures Tokens(s[i..], cur, quoted) ==
            if s[i] == '\\' && i + 1 < |s| then Tokens(s[i + 2..], cur + [s[i + 1]], quoted)
            else if s[i] == '"' then Tokens(s[i + 1..], cur + [s[i]], !quoted)
            else if s[i] == ' ' && !quoted then Flush(cur) + Tokens(s[i + 1..], "", quoted)
            else Tokens(s[i + 1..], cur + [s[i]], quoted)
  {
    assert s[i..][1..] == s[i + 1..];
    if i + 1 < |s| {
      assert s[i..][2..] == s[i + 2..];
    }
  }

  // ---- the scanners agree ----

  /** The tokens finished within a text, and the token begun at its end. */
  function Done(s: string, cur: string, quoted: bool): seq<string> {
    if s == "" then []
    else if s[0] == '\\' && |s| > 1 then Done(s[2..], cur + [s[1]], quoted)
    else if s[0] == '"' then Done(s[1..], cur + [s[0]], !quoted)
    else if s[0] == ' ' && !quoted then Flush(cur) + Done(s[1..], "", quoted)
    else Done(s[1..], cur + [s[0]], quoted)
  }

  function Begun(s: string, cur: string, quoted: bool): string {
    if s == "" then cur
    else if s[0] == '\\' && |s| > 1 then Begun(s[2..], cur + [s[1]], quoted)
    else if s[0] == '"' then Begun(s[1..], cur + [s[0]], !quoted)
    else if s[0] == ' ' && !quoted then Begun(s[1..], "", quoted)
    else Begun(s[1..], cur + [s[0]], quoted)
  }

  /** The tokenizer passes over a text and goes on behind it in the state at its end. */
  lemma {:induction false} TokensPass(a: string, b: string, cur: string, quoted: bool)
    requires !EndState(a, quoted).escaping
    ensures Tokens(a + b, cur, quoted) ==
            Done(a, cur, quoted) + Tokens(b, Begun(a, cur, quoted), EndState(a, quoted).quoted)
    decreases |a|
  {
    hide Flush;
    var s := a + b;
    if a == "" {
      assert s == b;
    } else if a[0] == '\\' {
      assert s[2..] == a[2..] + b && s[1] == a[1];
      TokensPass(a[2..], b, cur + [a[1]], quoted);
    } else {
      assert s[1..] == a[1..] + b && s[0] == a[0];
      if a[0] == ' ' && !quoted {
        TokensPass(a[1..], b, "", quoted);
        var more := Tokens(b, Begun(a, cur, quoted), EndState(a, quoted).quoted);
        Associates(Flush(cur), Done(a[1..], "", quoted), more);
      } else {
        TokensPass(a[1..], b, cur + [a[0]], if a[0] == '"' then !quoted else quoted);
      }
    }
  }

  /** A text that ends in an escape: the backslash is its last character. */
  lemma {:induction false} EscapingEnd(s: string, quoted: bool)
    requires EndState(s, quoted).escaping
    ensures s != "" && s[|s| - 1] == '\\' && !EndState(s[..|s| - 1], quoted).escaping
    decreases |s|
  {
    var skip := if s[0] == '\\' then 2 else 1;
    if |s| > skip {
      EscapingEnd(s[skip..], if s[0] == '"' then !quoted else quoted);
      assert s[..|s| - 1][skip..] == s[skip..][..|s| - skip - 1];
    } else {
      assert |s| == 1;
    }
  }

  /** Outside quotes and with no escape pending, and only there, one more space adds nothing to the tokens. */
  lemma OutsideIff(a: string, quoted: bool)
    ensures Tokens(a + " ", "", quoted) == Tokens(a, "", quoted) <==> EndState(a, quoted) == End(false, false)
  {
    hide EndState, Done, Begun;
    if !EndState(a, quoted).escaping {
      var rest, q := Begun(a, "", quoted), EndState(a, quoted).quoted;
      TokensPass(a, " ", "", quoted);
      TokensPass(a, "", "", quoted);
      assert a + "" == a;
      SpaceAdds(rest, q);
      SameFront(Done(a, "", quoted), Tokens(" ", rest, q), Tokens("", rest, q));
    } else {
      EscapingEnd(a, quoted);
      var init := a[..|a| - 1];
      var rest, q := Begun(init, "", quoted), EndState(init, quoted).quoted;
      assert a == init + "\\" && a + " " == init + "\\ ";
      TokensPass(init, "\\", "", quoted);
      TokensPass(init, "\\ ", "", quoted);
      EscapedSpaceAdds(rest, q);
      SameFront(Done(init, "", quoted), Tokens("\\ ", rest, q), Tokens("\\", rest, q));
    }
  }

  lemma SpaceAdds(cur: string, quoted: bool)
    ensures Tokens(" ", cur, quoted) == Tokens("", cur, quoted) <==> !quoted
  {
    assert " "[1..] == "";
    if quoted {
      assert Tokens(" ", cur, quoted) == [cur + " "];
      assert |cur + " "| != |cur|;
    } else {
      assert Tokens(" ", cur, quoted) == Flush(cur) + [];
    }
  }

  lemma EscapedSpaceAdds(cur: string, quoted: bool)
    ensures Tokens("\\ ", cur, quoted) != Tokens("\\", cur, quoted)
  {
    assert "\\ "[2..] == "" && "\\"[1..] == "";
    assert Tokens("\\ ", cur, quoted) == [cur + " "] && Tokens("\\", cur, quoted) == [cur + "\\"];
    assert (cur + " ")[|cur|] != (cur + "\\")[|cur|];
  }

  lemma SameFront(a: seq<string>, b: seq<string>, c: seq<string>)
    ensures a + b == a + c <==> b == c
  {
    assert (a + b)[|a|..] == b && (a + c)[|a|..] == c;
  }

  /** A bracket before which the state is outside quotes with no escape pending. */
  predicate Stops(s: string, quoted: bool, i: nat) {
    i < |s| && s[i] == ']' && EndState(s[..i], quoted) == End(false, false)
  }

  lemma {:induction false} CloseStops(s: string, quoted: bool, i: nat)
    ensures Close(s, quoted) == Some(i) <==> Stops(s, quoted, i) && forall j :: 0 <= j < i ==> !Stops(s, quoted, j)
    decreases |s|
  {
    hide Stops;
    if s == "" {
      NoStop(quoted, i);
    } else {
      StopsAtHead(s, quoted);
      var skip := if s[0] == '\\' then 2 else 1;
      var q := if s[0] == '"' then !quoted else quoted;
      if |s| >= skip && i >= skip {
        CloseStops(s[skip..], q, i - skip);
        StopsShift(s, quoted, i);
        forall j | skip <= j < i ensures Stops(s, quoted, j) <==> Stops(s[skip..], q, j - skip) {
          StopsShift(s, quoted, j);
        }
        forall j | 0 <= j < i - skip ensures !Stops(s[skip..], q, j) <==> !Stops(s, quoted, j + skip) {
          StopsShift(s, quoted, j + skip);
        }
      } else if |s| < skip {
        NoStopPast(s, quoted, i);
      }
    }
  }

  lemma NoStop(quoted: bool, i: nat)
    ensures !Stops("", quoted, i)
  {
  }

  lemma NoStopPast(s: string, quoted: bool, i: nat)
    ensures i >= |s| ==> !Stops(s, quoted, i)
  {
  }

  lemma StopsAtHead(s: string, quoted: bool)
    requires s != ""
    ensures Stops(s, quoted, 0) <==> s[0] == ']' && !quoted
    ensures s[0] == '\\' ==> !Stops(s, quoted, 1)
  {
    assert s[..0] == "";
    assert |s| > 1 ==> s[..1] == [s[0]];
  }

  /** Both scanners pass over an escaped pair, or one other character, and go on. */
  lemma StopsShift(s: string, quoted: bool, j: nat)
    requires s != "" && (if s[0] == '\\' then 2 else 1) <= j && |s| >= if s[0] == '\\' then 2 else 1
    ensures var skip := if s[0] == '\\' then 2 else 1;
            Stops(s, quoted, j) <==> Stops(s[skip..], if s[0] == '"' then !quoted else quoted, j - skip)
  {
    var skip := if s[0] == '\\' then 2 else 1;
    assert j < |s| ==> s[..j][skip..] == s[skip..][..j - skip];
  }

  /** A bracket that the tokenizer meets outside quotes and unescaped: a space in its place would end the token. */
  predicate RealBracket(s: string, quoted: bool, i: nat) {
    i < |s| && s[i] == ']' && Tokens(s[..i] + " ", "", quoted) == Tokens(s[..i], "", quoted)
  }

  /** Whatever the text, the first scanner stops exactly at the first bracket that the tokenizer takes as real. */
  lemma ScannersAgree(s: string, quoted: bool, i: nat)
    ensures Close(s, quoted) == Some(i) <==>
            RealBracket(s, quoted, i) && forall j :: 0 <= j < i ==> !RealBracket(s, quoted, j)
  {
    hide Close, EndState, Tokens;
    CloseStops(s, quoted, i);
    forall j: nat ensures Stops(s, quoted, j) <==> RealBracket(s, quoted, j) {
      if j < |s| {
        OutsideIff(s[..j], quoted);
      }
    }
  }

  // ---- the printer ----

  datatype Param = Param(name: string, value: string)

  datatype Element = Element(id: string, params: seq<Param>)

  function EscapeChar(c: char): string { if c in "\"\\]" then ['\\', c] else [c] }

  function Escape(v: string): string { if v == "" then "" else EscapeChar(v[0]) + Escape(v[1..]) }

  function PrintParam(p: Param): string { " " + p.name + "=\"" + Escape(p.value) + "\"" }

  function PrintParams(ps: seq<Param>): string {
    if ps == [] then "" else PrintParam(ps[0]) + PrintParams(ps[1..])
  }

  /** What stands between the brackets. */
  function Inside(e: Element): string { e.id + PrintParams(e.params) }

  function Print(e: Element): string { "[" + Inside(e) + "]" }

  function PrintAll(es: seq<Element>): string {
    if es == [] then "" else Print(es[0]) + PrintAll(es[1..])
  }

  /** SD-NAME, without its limits to 32 characters and to printable ASCII. */
  predicate NameOk(n: string) { n != "" && forall i :: 0 <= i < |n| ==> n[i] !in "= ]\"" }

  predicate ElementOk(e: Element) { NameOk(e.id) && forall i :: 0 <= i < |e.params| ==> NameOk(e.params[i].name) }

  function TokenOf(p: Param): string { p.name + "=\"" + p.value + "\"" }

  function TokensOf(ps: seq<Param>): seq<string> {
    if ps == [] then [] else [TokenOf(ps[0])] + TokensOf(ps[1..])
  }

  // ---- reading it back ----

  lemma {:induction false} CloseName(n: string, more: string)
    requires '\\' !in n && forall i :: 0 <= i < |n| ==> n[i] !in "]\""
    ensures Close(n + more, false) == Shift(|n|, Close(more, false))
  {
    if n == "" {
      assert n + more == more;
    } else {
      assert (n + more)[1..] == n[1..] + more;
      CloseName(n[1..], more);
    }
  }

  lemma CloseEscaped(c: char, more: string)
    ensures Close(EscapeChar(c) + more, true) == Shift(|EscapeChar(c)|, Close(more, true))
  {
    assert (EscapeChar(c) + more)[|EscapeChar(c)|..] == more;
  }

  lemma {:induction false} CloseValue(v: string, more: string)
    ensures Close(Escape(v) + more, true) == Shift(|Escape(v)|, Close(more, true))
  {
    hide Close, EscapeChar;
    if v == "" {
      assert Escape(v) + more == more;
    } else {
      CloseValue(v[1..], more);
      CloseEscaped(v[0], Escape(v[1..]) + more);
      assert Escape(v) + more == EscapeChar(v[0]) + (Escape(v[1..]) + more);
    }
  }

  lemma CloseParam(p: Param, more: string)
    requires NameOk(p.name) && '\\' !in p.name
    ensures Close(PrintParam(p) + more, false) == Shift(|PrintParam(p)|, Close(more, false))
  {
    hide Close, Escape;
    var v := Escape(p.value);
    var afterValue := "\"" + more;
    var afterName := "=\"" + v + afterValue;
    assert PrintParam(p) + more == " " + p.name + afterName;
    CloseName(" " + p.name, afterName);
    CloseName("=", "\"" + v + afterValue);
    assert "=" + ("\"" + v + afterValue) == afterName;
    CloseQuote(v + afterValue, false);
    assert "\"" + (v + afterValue) == "\"" + v + afterValue;
    CloseValue(p.value, afterValue);
    CloseQuote(more, true);
  }

  lemma CloseQuote(more: string, quoted: bool)
    ensures Close("\"" + more, quoted) == Shift(1, Close(more, !quoted))
  {
    assert ("\"" + more)[1..] == more;
  }

  lemma {:induction false} CloseParams(ps: seq<Param>, more: string)
    requires forall i :: 0 <= i < |ps| ==> NameOk(ps[i].name) && '\\' !in ps[i].name
    ensures Close(PrintParams(ps) + more, false) == Shift(|PrintParams(ps)|, Close(more, false))
  {
    hide Close, PrintParam;
    if ps == [] {
      assert PrintParams(ps) + more == more;
    } else {
      var rest := PrintParams(ps[1..]) + more;
      assert PrintParams(ps) + more == PrintParam(ps[0]) + rest;
      CloseParam(ps[0], rest);
      CloseParams(ps[1..], more);
    }
  }

  /**
    * Names lose their backslashes: each one takes the next character along. t is what becomes of the name
    * and its equals sign.
    */
  lemma {:induction false} TokensName(n: string, more: string, cur: string) returns (t: string)
    requires forall i :: 0 <= i < |n| ==> n[i] !in "= ]\""
    ensures Tokens(n + "=" + more, cur, false) == Tokens(more, cur + t, false)
    ensures '\\' !in n ==> t == n + "="
    ensures '\\' in n ==> |t| < |n| + 1
  {
    var s := n + "=" + more;
    if n == "" {
      assert s[1..] == more;
      t := "=";
    } else if n[0] == '\\' && |n| > 1 {
      assert s[2..] == n[2..] + "=" + more;
      t := TokensName(n[2..], more, cur + [n[1]]);
      assert cur + [n[1]] + t == cur + ([n[1]] + t);
      t := [n[1]] + t;
    } else if n[0] == '\\' {
      assert s[2..] == more && s[1] == '=';
      t := "=";
    } else {
      assert s[1..] == n[1..] + "=" + more;
      t := TokensName(n[1..], more, cur + [n[0]]);
      assert cur + [n[0]] + t == cur + ([n[0]] + t);
      t := [n[0]] + t;
    }
  }

  lemma TokensEscaped(c: char, more: string, cur: string)
    ensures Tokens(EscapeChar(c) + more, cur, true) == Tokens(more, cur + [c], true)
  {
    assert (EscapeChar(c) + more)[|EscapeChar(c)|..] == more;
  }

  lemma {:induction false} TokensValue(v: string, more: string, cur: string)
    ensures Tokens(Escape(v) + more, cur, true) == Tokens(more, cur + v, true)
  {
    hide EscapeChar;
    if v == "" {
      assert Escape(v) + more == more && cur + v == cur;
    } else {
      TokensEscaped(v[0], Escape(v[1..]) + more, cur);
      TokensValue(v[1..], more, cur + [v[0]]);
      assert cur + [v[0]] + v[1..] == cur + v;
      assert Escape(v) + more == EscapeChar(v[0]) + (Escape(v[1..]) + more);
    }
  }

  predicate Plain(n: string) { '\\' !in n }

  predicate PlainParams(ps: seq<Param>) { forall i :: 0 <= i < |ps| ==> Plain(ps[i].name) }

  predicate NamesOk(ps: seq<Param>) { forall i :: 0 <= i < |ps| ==> NameOk(ps[i].name) }

  /** One parameter: its value is unescaped whatever it is; t is what becomes of its name. */
  lemma TokensParam(p: Param, more: string, cur: string) returns (token: string)
    requires NameOk(p.name) && cur != ""
    ensures Tokens(PrintParam(p) + more, cur, false) == [cur] + Tokens(more, token, false)
    ensures token != ""
    ensures token == TokenOf(p) <==> Plain(p.name)
  {
    hide Tokens, Escape;
    var v := Escape(p.value);
    var afterValue := "\"" + more;
    var afterName := "\"" + (v + afterValue);
    assert PrintParam(p) + more == " " + (p.name + "=" + afterName);
    TokensSpace(p.name + "=" + afterName, cur);
    var t := TokensName(p.name, afterName, "");
    assert "" + t == t;
    TokensQuote(v + afterValue, t, false);
    TokensValue(p.value, afterValue, t + "\"");
    TokensQuote(more, t + "\"" + p.value, true);
    token := t + "\"" + p.value + "\"";
    assert |TokenOf(p)| == |p.name| + 3 + |p.value|;
    if Plain(p.name) {
      assert token == TokenOf(p);
    }
  }

  lemma TokensSpace(more: string, cur: string)
    requires cur != ""
    ensures Tokens(" " + more, cur, false) == [cur] + Tokens(more, "", false)
  {
    assert (" " + more)[1..] == more;
  }

  lemma TokensQuote(more: string, cur: string, quoted: bool)
    ensures Tokens("\"" + more, cur, quoted) == Tokens(more, cur + "\"", !quoted)
  {
    assert ("\"" + more)[1..] == more;
  }

  lemma {:induction false} TokensParams(ps: seq<Param>, cur: string)
    requires NamesOk(ps) && cur != ""
    ensures Tokens(PrintParams(ps), cur, false) != [] && Tokens(PrintParams(ps), cur, false)[0] == cur
    ensures Tokens(PrintParams(ps), cur, false) == [cur] + TokensOf(ps) <==> PlainParams(ps)
    decreases |ps|
  {
    if ps != [] {
      hide Tokens, PrintParam, TokenOf;
      var p, rest := ps[0], ps[1..];
      var token := TokensParam(p, PrintParams(rest), cur);
      TokensParams(rest, token);
      var got := Tokens(PrintParams(rest), token, false);
      assert PlainParams(ps) <==> Plain(p.name) && PlainParams(rest) by {
        assert ps == [p] + rest;
      }
      assert TokensOf(ps) == [TokenOf(p)] + TokensOf(rest);
      assert ([cur] + got)[1..] == got && ([cur] + TokensOf(ps))[1..] == TokensOf(ps);
    }
  }

  /** A token begun is the head of the first one. */
  lemma {:induction false} FirstToken(s: string, cur: string, quoted: bool)
    requires cur != ""
    ensures Tokens(s, cur, quoted) != [] && cur <= Tokens(s, cur, quoted)[0]
    decreases |s|
  {
    if s == "" || (s[0] == ' ' && !quoted) {
    } else if s[0] == '\\' && |s| > 1 {
      FirstToken(s[2..], cur + [s[1]], quoted);
    } else {
      FirstToken(s[1..], cur + [s[0]], if s[0] == '"' then !quoted else quoted);
    }
  }

  /** An element name: without backslashes it is copied; with them it shrinks, or takes the next character along. */
  lemma {:induction false} TokensId(n: string, more: string, cur: string) returns (t: string)
    requires n != "" && forall i :: 0 <= i < |n| ==> n[i] !in "= ]\""
    ensures Plain(n) ==> !EndState(n, false).escaping && t == n
    ensures !Plain(n) && !EndState(n, false).escaping ==> |t| < |n|
    ensures !EndState(n, false).escaping ==> Tokens(n + more, cur, false) == Tokens(more, cur + t, false) && t != ""
    ensures EndState(n, false).escaping && more != "" ==>
              Tokens(n + more, cur, false) == Tokens(more[1..], cur + t + [more[0]], false)
  {
    var s := n + more;
    var skip := if n[0] == '\\' then 2 else 1;
    if |n| < skip {
      t := "";
      if more != "" {
        assert s[2..] == more[1..] && s[1] == more[0];
        assert cur + t + [more[0]] == cur + [more[0]];
        assert Tokens(s, cur, false) == Tokens(s[2..], cur + [s[1]], false);
      }
    } else {
      var c := n[skip - 1];
      assert s[skip..] == n[skip..] + more;
      if |n| == skip {
        t := [c];
        assert s[skip..] == more && n[skip..] == "" && EndState(n, false) == EndState("", false);
      } else {
        var u := TokensId(n[skip..], more, cur + [c]);
        t := [c] + u;
        assert cur + [c] + u == cur + t;
        assert EndState(n, false) == EndState(n[skip..], false);
        assert Tokens(s, cur, false) == Tokens(s[skip..], cur + [c], false);
        assert n == n[..skip] + n[skip..];
      }
    }
  }

  // ---- one element ----

  predicate PlainNames(e: Element) { Plain(e.id) && PlainParams(e.params) }

  /** The element is closed at its own bracket and cut into its name and its unescaped parameters. */
  predicate ReadBack(e: Element, more: string) {
    && Close(Print(e) + more, false) == Some(1 + |Inside(e)|)
    && Tokens(Inside(e), "", false) == [e.id] + TokensOf(e.params)
  }

  lemma PlainElement(e: Element, more: string)
    requires ElementOk(e) && PlainNames(e)
    ensures ReadBack(e, more)
  {
    hide Tokens, Close, PrintParams;
    var after := "]" + more;
    assert Print(e) + more == "[" + e.id + (PrintParams(e.params) + after);
    CloseName("[" + e.id, PrintParams(e.params) + after);
    CloseParams(e.params, after);
    CloseBracket(more);
    var t := TokensId(e.id, PrintParams(e.params), "");
    assert "" + t == e.id;
    TokensParams(e.params, e.id);
  }

  lemma CloseBracket(more: string)
    ensures Close("]" + more, false) == Some(0)
  {
  }

  lemma SpoiltId(e: Element, more: string)
    requires ElementOk(e) && !Plain(e.id)
    ensures !ReadBack(e, more)
  {
    hide Tokens, Close, PrintParam;
    var after := PrintParams(e.params);
    var t := TokensId(e.id, after, "");
    if !EndState(e.id, false).escaping {
      assert "" + t == t;
      TokensParams(e.params, t);
    } else if e.params != [] {
      ParamsBeginWithSpace(e.params);
      assert "" + t + [after[0]] == t + " ";
      FirstToken(after[1..], t + " ", false);
      var first := Tokens(after[1..], t + " ", false)[0];
      assert first[|t|] == ' ';
    } else {
      var s := Print(e) + more;
      assert Inside(e) == e.id && s[..1 + |e.id|] == "[" + e.id;
      assert ("[" + e.id)[1..] == e.id;
      CloseStops(s, false, 1 + |e.id|);
    }
  }

  lemma ParamsBeginWithSpace(ps: seq<Param>)
    requires ps != []
    ensures PrintParams(ps) != "" && PrintParams(ps)[0] == ' '
  {
  }

  /** RFC 5424 allows backslashes in names; an element is read back precisely when it has none there. */
  lemma ElementReadBackIff(e: Element, more: string)
    requires ElementOk(e)
    ensures ReadBack(e, more) <==> PlainNames(e)
  {
    if PlainNames(e) {
      PlainElement(e, more);
    } else if !Plain(e.id) {
      SpoiltId(e, more);
    } else {
      hide Tokens, Close, PrintParams;
      var t := TokensId(e.id, PrintParams(e.params), "");
      assert "" + t == e.id;
      TokensParams(e.params, e.id);
    }
  }

  // ---- fields ----

  type Fields = map<string, string>

  function TrimQuotesLeft(s: string): string { if s != "" && s[0] == '"' then TrimQuotesLeft(s[1..]) else s }

  function TrimQuotesRight(s: string): string {
    if s != "" && s[|s| - 1] == '"' then TrimQuotesRight(s[..|s| - 1]) else s
  }

  function TrimQuotes(s: string): string { TrimQuotesRight(TrimQuotesLeft(s)) }

  function Key(id: string, name: string): string { "sd." + id + "." + name }

  /** The fields that the tokens of one element set, the element's name aside, one after the other. */
  function SetFrom(fields: Fields, id: string, kvs: seq<string>): Fields {
    if kvs == [] then fields
    else
      var before, kv := SetFrom(fields, id, kvs[..|kvs| - 1]), kvs[|kvs| - 1];
      var eq := IndexOf(kv, '=');
      if eq == None then before else before[Key(id, kv[..eq.value]) := TrimQuotes(kv[eq.value + 1..])]
  }

  function SetElement(fields: Fields, elem: string): Fields {
    var tokens := Tokens(elem, "", false);
    if tokens == [] then fields else SetFrom(fields, tokens[0], tokens[1..])
  }

  /** The fields set by leading elements, and the text behind them. */
  function ReadElements(fields: Fields, s: string): (Fields, string)
    decreases |s|
  {
    if s == "" || s[0] != '[' then (fields, s)
    else
      match Close(s, false)
      case None => (fields, s)
      case Some(end) => ReadElements(SetElement(fields, s[1..end]), s[end + 1..])
  }

  function ParseStructuredData(fields: Fields, s: string): (Fields, string) {
    if s != "" && s[0] == '-' then (fields, TrimSpace(s[1..]))
    else
      var (f, rest) := ReadElements(fields, s);
      (f, TrimSpace(rest))
  }

  // ---- what one parameter sets ----

  lemma {:induction false} TrimQuotesEnds(s: string)
    ensures TrimQuotesLeft(s) == "" || TrimQuotesLeft(s)[0] != '"'
    ensures TrimQuotesRight(s) <= s
    ensures TrimQuotesRight(s) == "" || TrimQuotesRight(s)[|TrimQuotesRight(s)| - 1] != '"'
    decreases |s|
  {
    if s != "" && s[0] == '"' {
      TrimQuotesEnds(s[1..]);
    }
    if s != "" && s[|s| - 1] == '"' {
      TrimQuotesEnds(s[..|s| - 1]);
    }
  }

  /** A value is stored as it is precisely when it neither begins nor ends with a double quote. */
  lemma ValueReadBackIff(v: string)
    ensures TrimQuotes("\"" + v + "\"") == v <==> v == "" || (v[0] != '"' && v[|v| - 1] != '"')
  {
    var s := "\"" + v + "\"";
    var u := v + "\"";
    assert s[1..] == u && s[0] == '"';
    assert TrimQuotesLeft(s) == TrimQuotesLeft(u);
    if v == "" {
      assert u == "\"" && u[1..] == "" && TrimQuotesLeft(u) == TrimQuotesLeft("") == "";
    } else if v[0] != '"' && v[|v| - 1] != '"' {
      assert u[0] == v[0] && u[..|v|] == v;
      assert TrimQuotesRight(u) == TrimQuotesRight(v) == v;
    } else {
      TrimQuotesEnds(s);
      TrimQuotesEnds(TrimQuotesLeft(s));
    }
  }

  type Entry = (string, string)

  function EntryOf(id: string, p: Param): Entry { (Key(id, p.name), TrimQuotes("\"" + p.value + "\"")) }

  function EntriesOf(id: string, ps: seq<Param>): seq<Entry> {
    seq(|ps|, i requires 0 <= i < |ps| => EntryOf(id, ps[i]))
  }

  function Entries(es: seq<Element>): seq<Entry> {
    if es == [] then [] else EntriesOf(es[0].id, es[0].params) + Entries(es[1..])
  }

  /** Fields set one after the other. */
  function Update(fields: Fields, entries: seq<Entry>): Fields {
    if entries == [] then fields
    else Update(fields, entries[..|entries| - 1])[entries[|entries| - 1].0 := entries[|entries| - 1].1]
  }

  lemma {:induction false} UpdateConcat(fields: Fields, a: seq<Entry>, b: seq<Entry>)
    ensures Update(fields, a + b) == Update(Update(fields, a), b)
    decreases |b|
  {
    if b == [] {
      assert a + b == a;
    } else {
      var init := b[..|b| - 1];
      assert (a + b)[..|a + b| - 1] == a + init;
      UpdateConcat(fields, a, init);
    }
  }

  /** The last entry for a key is the one that stays, and a key without one keeps its field. */
  lemma {:induction false} LastEntryStays(fields: Fields, entries: seq<Entry>, k: nat)
    requires k < |entries|
    requires forall j :: k < j < |entries| ==> entries[j].0 != entries[k].0
    ensures entries[k].0 in Update(fields, entries) && Update(fields, entries)[entries[k].0] == entries[k].1
    decreases |entries|
  {
    if k < |entries| - 1 {
      LastEntryStays(fields, entries[..|entries| - 1], k);
    }
  }

  lemma {:induction false} OtherFieldsStay(fields: Fields, entries: seq<Entry>, key: string)
    requires forall j :: 0 <= j < |entries| ==> entries[j].0 != key
    ensures key in Update(fields, entries) <==> key in fields
    ensures key in fields ==> Update(fields, entries)[key] == fields[key]
    decreases |entries|
  {
    if entries != [] {
      OtherFieldsStay(fields, entries[..|entries| - 1], key);
    }
  }

  lemma TokenSets(fields: Fields, id: string, p: Param)
    requires NameOk(p.name)
    ensures SetFrom(fields, id, [TokenOf(p)]) == Update(fields, [EntryOf(id, p)])
  {
    hide Key, TrimQuotes;
    var kv, v := TokenOf(p), "\"" + p.value + "\"";
    assert kv == p.name + ['='] + v;
    IndexAfter(p.name, '=', v);
    assert kv[..|p.name|] == p.name && kv[|p.name| + 1..] == v;
  }

  lemma {:induction false} SetFromConcat(fields: Fields, id: string, a: seq<string>, b: seq<string>)
    ensures SetFrom(fields, id, a + b) == SetFrom(SetFrom(fields, id, a), id, b)
    decreases |b|
  {
    hide Key, TrimQuotes, IndexOf;
    if b == [] {
      assert a + b == a;
    } else {
      var init := b[..|b| - 1];
      assert (a + b)[..|a + b| - 1] == a + init;
      SetFromConcat(fields, id, a, init);
    }
  }

  lemma {:induction false} TokensSet(fields: Fields, id: string, ps: seq<Param>)
    requires NamesOk(ps)
    ensures SetFrom(fields, id, TokensOf(ps)) == Update(fields, EntriesOf(id, ps))
    decreases |ps|
  {
    if ps == [] {
      NothingSet(fields, id);
    } else {
      hide SetFrom, Update, EntryOf, TokenOf;
      var p, rest := ps[0], ps[1..];
      SetFromConcat(fields, id, [TokenOf(p)], TokensOf(rest));
      TokenSets(fields, id, p);
      TokensSet(SetFrom(fields, id, [TokenOf(p)]), id, rest);
      assert EntriesOf(id, ps) == [EntryOf(id, p)] + EntriesOf(id, rest);
      UpdateConcat(fields, [EntryOf(id, p)], EntriesOf(id, rest));
    }
  }

  lemma NothingSet(fields: Fields, id: string)
    ensures SetFrom(fields, id, []) == fields == Update(fields, [])
  {
  }

  // ---- a whole message ----

  lemma ReadOne(fields: Fields, e: Element, more: string)
    requires ElementOk(e) && PlainNames(e)
    ensures ReadElements(fields, Print(e) + more) == ReadElements(Update(fields, EntriesOf(e.id, e.params)), more)
  {
    hide Close, Tokens, SetFrom, Update, EntriesOf, Inside;
    PlainElement(e, more);
    var s := Print(e) + more;
    assert s[0] == '[' && s[1..1 + |Inside(e)|] == Inside(e) && s[|Inside(e)| + 2..] == more;
    assert ([e.id] + TokensOf(e.params))[1..] == TokensOf(e.params);
    TokensSet(fields, e.id, e.params);
  }

  lemma {:induction false} ReadAll(fields: Fields, es: seq<Element>, rest: string)
    requires forall i :: 0 <= i < |es| ==> ElementOk(es[i]) && PlainNames(es[i])
    requires rest == "" || rest[0] != '['
    ensures ReadElements(fields, PrintAll(es) + rest) == (Update(fields, Entries(es)), rest)
    decreases |es|
  {
    if es == [] {
      assert PrintAll(es) + rest == rest;
    } else {
      hide Print, EntriesOf, ReadElements, Update;
      var e, more := es[0], PrintAll(es[1..]) + rest;
      assert PrintAll(es) + rest == Print(e) + more;
      ReadOne(fields, e, more);
      ReadAll(Update(fields, EntriesOf(e.id, e.params)), es[1..], rest);
      UpdateConcat(fields, EntriesOf(e.id, e.params), Entries(es[1..]));
    }
  }

  /** Printed structured data sets its parameters' fields, in order, and leaves the message behind it. */
  lemma StructuredDataReadBack(fields: Fields, es: seq<Element>, rest: string)
    requires es != [] && forall i :: 0 <= i < |es| ==> ElementOk(es[i]) && PlainNames(es[i])
    requires rest == "" || rest[0] != '['
    ensures ParseStructuredData(fields, PrintAll(es) + rest) == (Update(fields, Entries(es)), TrimSpace(rest))
    ensures ParseStructuredData(fields, "-" + rest) == (fields, TrimSpace(rest))
  {
    hide ReadElements, Update, Entries, TrimSpace;
    ReadAll(fields, es, rest);
    assert PrintAll(es) != "" && PrintAll(es)[0] == '[';
    assert ("-" + rest)[1..] == rest;
  }

  // ---- which parameters share a key ----

  /** The dots of a key can be read in two ways: the first name ends where x begins, and x ends the second id. */
  predicate Absorbs(id: string, name: string, other: string, otherName: string, x: string) {
    other == id + "." + x && name == x + "." + otherName
  }

  /**
    * Two parameters share a key exactly when they are the same, or when one id is the other and a dot and the
    * beginning of the other's name.
    */
  lemma KeysCollideIff(i: string, n: string, j: string, k: string)
    ensures Key(i, n) == Key(j, k) <==>
            || (i == j && n == k)
            || (exists x :: Absorbs(i, n, j, k, x))
            || (exists x :: Absorbs(j, k, i, n, x))
  {
    var a, b := i + "." + n, j + "." + k;
    SameBehind(a, b);
    assert Key(i, n) == "sd." + a && Key(j, k) == "sd." + b;
    if a == b {
      if |i| < |j| {
        LongerId(i, n, j, k);
      } else if |j| < |i| {
        LongerId(j, k, i, n);
      } else {
        assert i == a[..|i|] && j == b[..|j|] && n == a[|i| + 1..] && k == b[|j| + 1..];
      }
    }
    forall x | Absorbs(i, n, j, k, x) ensures a == b {
      assert i + "." + (x + "." + k) == i + "." + x + "." + k;
    }
    forall x | Absorbs(j, k, i, n, x) ensures a == b {
      assert j + "." + (x + "." + n) == j + "." + x + "." + n;
    }
  }

  lemma SameBehind(a: string, b: string)
    ensures "sd." + a == "sd." + b <==> a == b
  {
    assert ("sd." + a)[3..] == a && ("sd." + b)[3..] == b;
  }

  lemma LongerId(i: string, n: string, j: string, k: string)
    requires i + "." + n == j + "." + k && |i| < |j|
    ensures exists x :: Absorbs(i, n, j, k, x)
  {
    var a := i + "." + n;
    var x := j[|i| + 1..];
    assert j == a[..|j|] && a[|i|] == '.';
    assert j == i + "." + x;
    assert n == a[|i| + 1..] == x + "." + k;
    assert Absorbs(i, n, j, k, x);
  }

  lemma AbsorbsDot(i: string, n: string, j: string, k: string, x: string)
    ensures Absorbs(i, n, j, k, x) ==> '.' in j
  {
    if Absorbs(i, n, j, k, x) {
      assert j[|i|] == '.';
    }
  }

  /** Without a dot in the ids, keys tell parameters apart. */
  lemma DotFreeKeys(i: string, n: string, j: string, k: string)
    requires '.' !in i && '.' !in j
    ensures Key(i, n) == Key(j, k) <==> i == j && n == k
  {
    hide Key;
    KeysCollideIff(i, n, j, k);
    forall x ensures !Absorbs(i, n, j, k, x) && !Absorbs(j, k, i, n, x) {
      AbsorbsDot(i, n, j, k, x);
      AbsorbsDot(j, k, i, n, x);
    }
  }

  /** a.b with a parameter c and a with a parameter b.c share a key. */
  lemma DottedIdsCollide()
    ensures Key("a.b", "c") == Key("a", "b.c")
  {
    assert Absorbs("a", "b.c", "a.b", "c", "b");
    KeysCollideIff("a", "b.c", "a.b", "c");
  }

  // ---- what becomes of every parameter ----

  /** All parameters with their elements' ids, in order. */
  function Pairs(es: seq<Element>): seq<(string, Param)> {
    if es == [] then [] else PairsOf(es[0].id, es[0].params) + Pairs(es[1..])
  }

  function PairsOf(id: string, ps: seq<Param>): seq<(string, Param)> {
    seq(|ps|, i requires 0 <= i < |ps| => (id, ps[i]))
  }

  function PairKey(p: (string, Param)): string { Key(p.0, p.1.name) }

  lemma {:induction false} EntriesArePairs(es: seq<Element>)
    ensures |Entries(es)| == |Pairs(es)|
    ensures forall i :: 0 <= i < |Pairs(es)| ==> Entries(es)[i] == EntryOf(Pairs(es)[i].0, Pairs(es)[i].1)
  {
    hide EntryOf;
    if es != [] {
      EntriesArePairs(es[1..]);
    }
  }

  /** The last parameter with the key of parameter k. */
  ghost predicate IsLast(pairs: seq<(string, Param)>, k: nat, l: nat) {
    && k <= l < |pairs| && PairKey(pairs[l]) == PairKey(pairs[k])
    && forall j :: l < j < |pairs| ==> PairKey(pairs[j]) != PairKey(pairs[k])
  }

  lemma {:induction false} LastExists(pairs: seq<(string, Param)>, k: nat) returns (l: nat)
    requires k < |pairs|
    ensures IsLast(pairs, k, l)
    decreases |pairs|
  {
    hide PairKey;
    var n := |pairs| - 1;
    if PairKey(pairs[n]) == PairKey(pairs[k]) {
      l := n;
    } else {
      l := LastExists(pairs[..n], k);
      assert forall j :: l < j < n ==> pairs[j] == pairs[..n][j];
    }
  }

  predicate QuotesInside(v: string) { v == "" || (v[0] != '"' && v[|v| - 1] != '"') }

  /** A parameter's field holds what the last parameter with its key left there, quotes at its ends trimmed. */
  lemma FieldOfParameter(fields: Fields, es: seq<Element>, k: nat, l: nat)
    requires k < |Pairs(es)| && IsLast(Pairs(es), k, l)
    ensures var read := Update(fields, Entries(es));
            && PairKey(Pairs(es)[k]) in read
            && read[PairKey(Pairs(es)[k])] == TrimQuotes("\"" + Pairs(es)[l].1.value + "\"")
  {
    hide TrimQuotes, Entries, Update, Pairs, Key;
    EntriesArePairs(es);
    var pairs, entries := Pairs(es), Entries(es);
    forall j | l < j < |entries| ensures entries[j].0 != entries[l].0 {
      assert entries[j] == EntryOf(pairs[j].0, pairs[j].1);
    }
    LastEntryStays(fields, entries, l);
  }

  /**
    * A parameter's value is read back exactly when the last parameter with its key, number l, leaves that
    * value: when it is itself the last one, exactly when no double quote is at its ends.
    */
  lemma ParameterStored(fields: Fields, es: seq<Element>, k: nat) returns (l: nat)
    requires k < |Pairs(es)|
    ensures IsLast(Pairs(es), k, l)
    ensures var read := Update(fields, Entries(es));
            var p := Pairs(es)[k];
            && PairKey(p) in read
            && (read[PairKey(p)] == p.1.value <==>
                  TrimQuotes("\"" + Pairs(es)[l].1.value + "\"") == p.1.value)
            && (l == k ==> (read[PairKey(p)] == p.1.value <==> QuotesInside(p.1.value)))
  {
    hide TrimQuotes, Entries, Update, Pairs, PairKey;
    l := LastExists(Pairs(es), k);
    FieldOfParameter(fields, es, k, l);
    ValueReadBackIff(Pairs(es)[k].1.value);
  }

  predicate DotFreeIds(es: seq<Element>) { forall i :: 0 <= i < |es| ==> '.' !in es[i].id }

  lemma {:induction false} PairIds(es: seq<Element>)
    requires DotFreeIds(es)
    ensures forall i :: 0 <= i < |Pairs(es)| ==> '.' !in Pairs(es)[i].0
  {
    if es != [] {
      assert DotFreeIds(es[1..]);
      PairIds(es[1..]);
    }
  }

  /** What a sender can check: ids without dots, no parameter twice; then every value without outer quotes is stored. */
  lemma DistinctParametersStored(fields: Fields, es: seq<Element>, k: nat)
    requires DotFreeIds(es) && k < |Pairs(es)|
    requires forall i, j :: 0 <= i < j < |Pairs(es)| ==>
               Pairs(es)[i].0 != Pairs(es)[j].0 || Pairs(es)[i].1.name != Pairs(es)[j].1.name
    ensures var read := Update(fields, Entries(es));
            var p := Pairs(es)[k];
            PairKey(p) in read && (read[PairKey(p)] == p.1.value <==> QuotesInside(p.1.value))
  {
    hide Key, Pairs, Entries, Update;
    PairIds(es);
    var pairs := Pairs(es);
    forall j | k < j < |pairs| ensures PairKey(pairs[j]) != PairKey(pairs[k]) {
      DotFreeKeys(pairs[j].0, pairs[j].1.name, pairs[k].0, pairs[k].1.name);
    }
    FieldOfParameter(fields, es, k, k);
    ValueReadBackIff(pairs[k].1.value);
  }

  /** A field that no parameter is named for keeps its value. */
  lemma OtherFieldsKept(fields: Fields, es: seq<Element>, key: string)
    requires forall k :: 0 <= k < |Pairs(es)| ==> PairKey(Pairs(es)[k]) != key
    ensures key in Update(fields, Entries(es)) <==> key in fields
    ensures key in fields ==> Update(fields, Entries(es))[key] == fields[key]
  {
    hide Key, TrimQuotes, Entries, Update, Pairs;
    EntriesArePairs(es);
    OtherFieldsStay(fields, Entries(es), key);
  }

  // ---- inputs on which reading back fails ----

  /** An id that ends in a backslash: the closing bracket is taken as escaped. */
  lemma BackslashIdIsLost()
    ensures ElementOk(Element("a\\", [])) && !ReadBack(Element("a\\", []), "")
  {
    hide ReadBack;
    assert "a\\"[1] == '\\';
    ElementReadBackIff(Element("a\\", []), "");
  }

  /** A quoted word loses its quotes. */
  lemma OuterQuotesAreLost()
    ensures TrimQuotes("\"" + "\"x\"" + "\"") == "x"
  {
    var s := "\"\"x\"\"";
    assert "\"" + "\"x\"" + "\"" == s;
    assert s[1..] == "\"x\"\"" && s[1..][1..] == "x\"\"";
    assert TrimQuotesLeft(s) == "x\"\"";
    assert "x\"\""[..2] == "x\"" && "x\""[..1] == "x";
    assert TrimQuotesRight("x\"") == "x";
  }

  // ---- the header and the body ----

  function SplitN(s: string, sep: char, n: nat): (f: seq<string>)
    requires n > 0
    ensures 0 < |f| <= n
    decreases n
  {
    var i := IndexOf(s, sep);
    if n == 1 || i == None then [s] else [s[..i.value]] + SplitN(s[i.value + 1..], sep, n - 1)
  }

  method Split(s: string, sep: char, n: nat) returns (out: seq<string>)
    requires n > 0
    ensures out == SplitN(s, sep, n)
  {
    hide IndexOf;
    var rest := s;
    out := [];
    for i := 0 to n - 1
      invariant SplitN(s, sep, n) == out + SplitN(rest, sep, n - i)
    {
      var idx := IndexOf(rest, sep);
      if idx == None {
        return out + [rest];
      }
      Associates(out, [rest[..idx.value]], SplitN(rest[idx.value + 1..], sep, n - i - 1));
      out, rest := out + [rest[..idx.value]], rest[idx.value + 1..];
    }
    out := out + [rest];
  }

  /** A decoded message; its time is a number and the text form of times is a parameter. */
  datatype Msg = Msg(source: string, timestamp: int, fields: Fields, body: string)

  datatype Header = Header(version: string, time: string, host: string, app: string, procid: string, msgid: string)

  function SetUnlessNil(fields: Fields, key: string, value: string): Fields {
    if value == "-" then fields else fields[key := value]
  }

  function HeaderFields(fields: Fields, host: string, app: string, procid: string, msgid: string): Fields {
    var named := SetUnlessNil(SetUnlessNil(fields, "host", host), "program", app);
    SetUnlessNil(SetUnlessNil(named, "procid", procid), "msgid", msgid)
  }

  function Time(unset: int, ts: string, parseTime: string -> Option<int>): int {
    if ts == "-" || parseTime(ts) == None then unset else parseTime(ts).value
  }

  function Parse5424(m: Msg, s: string, parseTime: string -> Option<int>): Msg {
    var f := SplitN(s, ' ', 7);
    if |f| < 7 then m.(body := s)
    else
      var (fields, msg) := ParseStructuredData(HeaderFields(m.fields, f[2], f[3], f[4], f[5]), f[6]);
      Msg(if f[2] == "-" then m.source else f[2], Time(m.timestamp, f[1], parseTime), fields, TrimSpace(msg))
  }

  function PrintHeader(h: Header): string {
    h.version + " " + h.time + " " + h.host + " " + h.app + " " + h.procid + " " + h.msgid + " "
  }

  predicate HeaderOk(h: Header) {
    ' ' !in h.version && ' ' !in h.time && ' ' !in h.host && ' ' !in h.app && ' ' !in h.procid && ' ' !in h.msgid
  }

  lemma SplitOne(a: string, more: string, n: nat)
    requires ' ' !in a && n > 1
    ensures SplitN(a + " " + more, ' ', n) == [a] + SplitN(more, ' ', n - 1)
  {
    hide IndexOf;
    IndexAfter(a, ' ', more);
    var s := a + " " + more;
    assert s[..|a|] == a && s[|a| + 1..] == more;
  }

  lemma SplitHeader(h: Header, more: string)
    requires HeaderOk(h)
    ensures SplitN(PrintHeader(h) + more, ' ', 7) == [h.version, h.time, h.host, h.app, h.procid, h.msgid, more]
  {
    hide SplitN;
    var s5 := h.msgid + " " + more;
    var s4 := h.procid + " " + s5;
    var s3 := h.app + " " + s4;
    var s2 := h.host + " " + s3;
    var s1 := h.time + " " + s2;
    assert PrintHeader(h) + more == h.version + " " + s1;
    SplitOne(h.version, s1, 7);
    SplitOne(h.time, s2, 6);
    SplitOne(h.host, s3, 5);
    SplitOne(h.app, s4, 4);
    SplitOne(h.procid, s5, 3);
    SplitOne(h.msgid, more, 2);
    SplitLast(more);
  }

  lemma SplitLast(s: string)
    ensures SplitN(s, ' ', 1) == [s]
  {
  }

  /** A message printed by RFC 5424 is read back: its header, every parameter of its structured data, its text. */
  lemma MessageReadBack(m: Msg, h: Header, es: seq<Element>, rest: string, parseTime: string -> Option<int>)
    requires HeaderOk(h)
    requires es != [] && forall i :: 0 <= i < |es| ==> ElementOk(es[i]) && PlainNames(es[i])
    requires rest == "" || rest[0] != '['
    ensures Parse5424(m, PrintHeader(h) + (PrintAll(es) + rest), parseTime) ==
            Msg(if h.host == "-" then m.source else h.host,
                Time(m.timestamp, h.time, parseTime),
                Update(HeaderFields(m.fields, h.host, h.app, h.procid, h.msgid), Entries(es)),
                TrimSpace(rest))
  {
    hide SplitN, ParseStructuredData, Update, Entries, HeaderFields, PrintHeader, PrintAll, TrimSpace;
    SplitHeader(h, PrintAll(es) + rest);
    StructuredDataReadBack(HeaderFields(m.fields, h.host, h.app, h.procid, h.msgid), es, rest);
    TrimTwice(rest);
  }

  /** A message whose fields the decoder sets in place. */
  class Message {
    var source: string
    var timestamp: int
    var fields: Fields
    var body: string

    constructor (m: Msg)
      ensures Val() == m
    {
      source, timestamp, fields, body := m.source, m.timestamp, m.fields, m.body;
    }

    function Val(): Msg
      reads this
    {
      Msg(source, timestamp, fields, body)
    }

    method SetField(key: string, value: string)
      modifies this`fields
      ensures fields == old(fields)[key := value]
    {
      fields := fields[key := value];
    }

    method ParseSDElement(elem: string)
      modifies this`fields
      ensures fields == SetElement(old(fields), elem)
    {
      hide IndexOf, TrimQuotes, Key;
      var tokens := TokenizeSD(elem);
      if |tokens| == 0 {
        return;
      }
      var id, kvs := tokens[0], tokens[1..];
      for i := 0 to |kvs|
        invariant fields == SetFrom(old(fields), id, kvs[..i])
      {
        assert kvs[..i + 1][..i] == kvs[..i];
        var kv := kvs[i];
        var eq := IndexOf(kv, '=');
        if eq.Some? {
          SetField(Key(id, kv[..eq.value]), TrimQuotes(kv[eq.value + 1..]));
        }
      }
      assert kvs[..|kvs|] == kvs;
    }

    method ParseSD(s: string) returns (msg: string)
      modifies this`fields
      ensures (fields, msg) == ParseStructuredData(old(fields), s)
    {
      hide TrimSpace, SetElement, Close;
      if s != "" && s[0] == '-' {
        return TrimSpace(s[1..]);
      }
      var rest := s;
      while rest != "" && rest[0] == '['
        invariant ReadElements(old(fields), s) == ReadElements(fields, rest)
        decreases |rest|
      {
        var end := IndexCloseBracket(rest);
        if end < 0 {
          break;
        }
        ParseSDElement(rest[1..end]);
        rest := rest[end + 1..];
      }
      return TrimSpace(rest);
    }

    method Parse(s: string, parseTime: string -> Option<int>)
      modifies this
      ensures Val() == Parse5424(old(Val()), s, parseTime)
    {
      hide SplitN, ParseStructuredData, TrimSpace;
      var f := Split(s, ' ', 7);
      if |f| < 7 {
        body := s;
        return;
      }
      if f[1] != "-" {
        var t := parseTime(f[1]);
        if t.Some? {
          timestamp := t.value;
        }
      }
      if f[2] != "-" {
        source := f[2];
        SetField("host", f[2]);
      }
      if f[3] != "-" {
        SetField("program", f[3]);
      }
      if f[4] != "-" {
        SetField("procid", f[4]);
      }
      if f[5] != "-" {
        SetField("msgid", f[5]);
      }
      assert fields == HeaderFields(old(fields), f[2], f[3], f[4], f[5]);
      var msg := ParseSD(f[6]);
      body := TrimSpace(msg);
    }
  }
}
