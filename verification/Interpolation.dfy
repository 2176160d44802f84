/**
 Compose-style `${VAR}` interpolation, as `scripts/check-local-mode.py` does it.

 A template has a syntax tree (`Template`), a printer (`Print`) and a denotation
 (`Denote`). `Parse` reads every text as exactly one well-formed tree, and the
 character scanner (`Interpolate`, an index loop) returns the denotation of that tree.
 */
module Interpolation {
  import opened Text
  import opened Wrappers

  type Env = map<string, string>

  // ----- names -----

  predicate IsNameStart(c: char) {
    'A' <= c <= 'Z' || 'a' <= c <= 'z' || c == '_'
  }

  predicate IsNameChar(c: char) {
    IsNameStart(c) || '0' <= c <= '9'
  }

  predicate IsName(s: string) {
    |s| > 0 && IsNameStart(s[0]) && forall k :: 0 <= k < |s| ==> IsNameChar(s[k])
  }

  /** The number of name characters at the front of `s`. */
  function NameRun(s: string): (n: nat)
    ensures n <= |s|
    ensures forall k :: 0 <= k < n ==> IsNameChar(s[k])
    ensures n < |s| ==> !IsNameChar(s[n])
  {
    if s == "" || !IsNameChar(s[0]) then 0 else 1 + NameRun(s[1..])
  }

  /** Length of the longest variable name at the front of `s`; 0 when there is none. */
  function NameLen(s: string): (n: nat)
    ensures n <= |s|
    ensures n > 0 <==> s != "" && IsNameStart(s[0])
    ensures n > 0 ==> IsName(s[..n])
    ensures 0 < n < |s| ==> !IsNameChar(s[n])
  {
    if s == "" || !IsNameStart(s[0]) then 0 else NameRun(s)
  }

  lemma {:induction false} NameLenUnique(name: string, rest: string)
    requires IsName(name)
    requires rest == "" || !IsNameChar(rest[0])
    ensures NameLen(name + rest) == |name|
    ensures (name + rest)[..|name|] == name && (name + rest)[|name|..] == rest
  {
    var s := name + rest;
    var n := NameLen(s);
    assert forall k :: 0 <= k < |name| ==> s[k] == name[k];
    assert n < |s| ==> n >= |name|;
    assert |name| < |s| ==> s[|name|] == rest[0];
    assert forall k :: 0 <= k < n ==> s[..n][k] == s[k];
  }

  // ----- brace depth -----

  function Weight(c: char): int {
    if c == '{' then 1 else if c == '}' then -1 else 0
  }

  /** Opening braces minus closing braces. */
  function Depth(s: string): int {
    if s == "" then 0 else Depth(s[..|s| - 1]) + Weight(s[|s| - 1])
  }

  lemma {:induction false} DepthConcat(a: string, b: string)
    ensures Depth(a + b) == Depth(a) + Depth(b)
    decreases |b|
  {
    if b == "" {
      assert a + b == a;
    } else {
      assert (a + b)[..|a + b| - 1] == a + b[..|b| - 1];
      DepthConcat(a, b[..|b| - 1]);
    }
  }

  lemma {:induction false} DepthOfNames(s: string)
    requires forall k :: 0 <= k < |s| ==> Weight(s[k]) == 0
    ensures Depth(s) == 0
    decreases |s|
  {
    if s != "" { DepthOfNames(s[..|s| - 1]); }
  }

  /** The `}` at `i` brings the depth counted from `start` back to zero. */
  predicate Closes(text: string, start: nat, i: nat) {
    start <= i < |text| && text[i] == '}' && Depth(text[start..i + 1]) == 0
  }

  /** The first index that closes what `start` opens, or -1. */
  function Close(text: string, start: nat, i: nat): (r: int)
    requires start <= i <= |text|
    ensures -1 <= r < |text|
    ensures r != -1 ==> i <= r && text[r] == '}'
    decreases |text| - i
  {
    if i == |text| then -1 else if Closes(text, start, i) then i else Close(text, start, i + 1)
  }

  lemma {:induction false} CloseIsFirst(text: string, start: nat, i: nat)
    requires start <= i <= |text|
    ensures var r := Close(text, start, i);
            && (r != -1 ==> Closes(text, start, r))
            && forall k: nat :: i <= k < |text| && (r == -1 || k < r) ==> !Closes(text, start, k)
    decreases |text| - i
  {
    if i < |text| && !Closes(text, start, i) { CloseIsFirst(text, start, i + 1); }
  }

  lemma {:induction false} CloseIs(text: string, start: nat, r: nat)
    requires start <= r && Closes(text, start, r)
    requires forall k: nat :: start <= k < r ==> !Closes(text, start, k)
    ensures Close(text, start, start) == r
  {
    CloseIsFirst(text, start, start);
  }

  lemma {:induction false} ClosesShift(text: string, at: nat, start: nat, k: nat)
    requires at + start <= |text| && at <= k
    ensures Closes(text, at + start, k) <==> Closes(text[at..], start, k - at)
  {
    if at + start <= k < |text| {
      assert text[at..][start..k - at + 1] == text[at + start..k + 1];
    }
  }

  /** Where the brace closes does not depend on what precedes it. */
  lemma {:induction false} CloseShift(text: string, at: nat, start: nat)
    requires at + start <= |text|
    ensures Close(text, at + start, at + start)
         == (var c := Close(text[at..], start, start); if c == -1 then -1 else at + c)
  {
    var c, from := Close(text[at..], start, start), at + start;
    CloseIsFirst(text[at..], start, start);
    CloseIsFirst(text, from, from);
    forall k: nat | from <= k < |text| && (c == -1 || k < at + c)
      ensures !Closes(text, from, k)
    {
      ClosesShift(text, at, start, k);
    }
    if c != -1 {
      ClosesShift(text, at, start, at + c);
      CloseIs(text, from, at + c);
    }
  }

  /** Every closing brace in `s` matches an opening brace in `s`, and none is left open. */
  ghost predicate Nested(s: string) {
    Depth(s) == 0 && forall k :: 0 <= k <= |s| ==> Depth(s[..k]) >= 0
  }

  /** The depth inside the braces is one more than the depth of the body so far. */
  lemma DepthInside(body: string, rest: string, k: nat)
    requires k <= |body|
    ensures Depth(("${" + body + "}" + rest)[1..k + 2]) == 1 + Depth(body[..k])
  {
    var text := "${" + body + "}" + rest;
    assert text[1..k + 2] == "{" + body[..k];
    DepthConcat("{", body[..k]);
    assert Depth("{") == 1;
  }

  lemma ClosesAfterBody(body: string, rest: string)
    requires Nested(body)
    ensures Closes("${" + body + "}" + rest, 1, 2 + |body|)
  {
    var text, r := "${" + body + "}" + rest, 2 + |body|;
    DepthInside(body, rest, |body|);
    assert body[..|body|] == body;
    assert text[1..r + 1] == text[1..r] + "}";
    DepthConcat(text[1..r], "}");
    assert Depth("}") == -1;
  }

  lemma OpenInsideBody(body: string, rest: string, k: nat)
    requires Nested(body) && 1 <= k < 2 + |body|
    ensures !Closes("${" + body + "}" + rest, 1, k)
  {
    var text := "${" + body + "}" + rest;
    if k == 1 {
      assert text[1] == '{';
    } else {
      DepthInside(body, rest, k - 1);
    }
  }

  lemma {:induction false} CloseNested(body: string, rest: string)
    requires Nested(body)
    ensures Close("${" + body + "}" + rest, 1, 1) == 2 + |body|
  {
    hide Closes, Nested, Depth, Close;
    ClosesAfterBody(body, rest);
    forall k: nat | 1 <= k < 2 + |body| ensures !Closes("${" + body + "}" + rest, 1, k) {
      OpenInsideBody(body, rest, k);
    }
    CloseIs("${" + body + "}" + rest, 1, 2 + |body|);
  }

  lemma {:induction false} DepthBeforeClose(text: string, k: nat)
    requires |text| >= 2 && text[1] == '{'
    requires 2 <= k <= |text|
    requires Close(text, 1, 1) == -1 || k <= Close(text, 1, 1)
    ensures Depth(text[1..k]) >= 1
    decreases k
  {
    if k == 2 {
      assert text[1..2] == "{";
    } else {
      DepthBeforeClose(text, k - 1);
      assert text[1..k] == text[1..k - 1] + [text[k - 1]];
      DepthConcat(text[1..k - 1], [text[k - 1]]);
      assert Depth([text[k - 1]]) == Weight(text[k - 1]);
      CloseIsFirst(text, 1, 1);
      assert !Closes(text, 1, k - 1);
    }
  }

  lemma {:induction false} ClosedIsNested(text: string)
    requires |text| >= 2 && text[1] == '{' && Close(text, 1, 1) != -1
    ensures Close(text, 1, 1) >= 2
    ensures Nested(text[2..Close(text, 1, 1)])
  {
    var end := Close(text, 1, 1);
    var body := text[2..end];
    forall k | 0 <= k <= |body|
      ensures Depth(body[..k]) == Depth(text[1..k + 2]) - 1 >= 0
    {
      assert text[1..k + 2] == "{" + body[..k];
      DepthConcat("{", body[..k]);
      DepthBeforeClose(text, k + 2);
    }
    CloseIsFirst(text, 1, 1);
    assert text[1..end + 1] == text[1..end] + "}";
    DepthConcat(text[1..end], "}");
    assert Depth("}") == -1;
    assert body[..|body|] == body;
  }

  /** A brace-free prefix does not change whether a text is nested. */
  lemma {:induction false} NestedAfterPlain(prefix: string, s: string)
    requires forall k :: 0 <= k < |prefix| ==> Weight(prefix[k]) == 0
    ensures Nested(prefix + s) <==> Nested(s)
  {
    var t := prefix + s;
    DepthOfNames(prefix);
    DepthConcat(prefix, s);
    forall k | 0 <= k <= |s|
      ensures Depth(t[..|prefix| + k]) == Depth(s[..k])
    {
      assert t[..|prefix| + k] == prefix + s[..k];
      DepthConcat(prefix, s[..k]);
    }
    forall k | 0 <= k <= |t|
      ensures k <= |prefix| ==> Depth(t[..k]) == 0
      ensures k > |prefix| ==> Depth(t[..k]) == Depth(s[..k - |prefix|])
    {
      if k <= |prefix| {
        assert t[..k] == prefix[..k];
        DepthOfNames(prefix[..k]);
      } else {
        assert Depth(t[..|prefix| + (k - |prefix|)]) == Depth(s[..k - |prefix|]);
      }
    }
    if Nested(t) {
      forall k | 0 <= k <= |s| ensures Depth(s[..k]) >= 0 {
        assert Depth(t[..|prefix| + k]) >= 0;
      }
    }
  }

  // ----- templates -----

  datatype Operator = Default | Alternate | Required

  function Symbol(op: Operator): (c: char)
    ensures c == '-' || c == '+' || c == '?'
  {
    match op case Default => '-' case Alternate => '+' case Required => '?'
  }

  /** One constructor per form the scanner tells apart; `rest` is what follows it. */
  datatype Template =
    | Done
    | Lit(c: char, rest: Template)                       // any character but `$`
    | Escaped(rest: Template)                            // `$$`
    | Lone(rest: Template)                               // a `$` that starts nothing
    | Var(name: string, rest: Template)                  // `$NAME`
    | Braced(name: string, rest: Template)               // `${NAME}`
    | Cond(name: string, colon: bool, op: Operator, operand: Template, rest: Template)
    | Odd(name: string, junk: string, rest: Template)    // `${NAMEjunk}`, junk no operator form
    | Nameless(body: string, rest: Template)             // `${body}`, body starting with no name
    | Unclosed(tail: string)                             // `${tail` whose brace never closes

  function OpText(colon: bool, op: Operator): string {
    (if colon then ":" else "") + [Symbol(op)]
  }

  function Print(t: Template): string {
    match t
    case Done => ""
    case Lit(c, rest) => [c] + Print(rest)
    case Escaped(rest) => "$$" + Print(rest)
    case Lone(rest) => "$" + Print(rest)
    case Var(name, rest) => "$" + name + Print(rest)
    case Braced(name, rest) => "${" + name + "}" + Print(rest)
    case Cond(name, colon, op, operand, rest) =>
      "${" + (name + (OpText(colon, op) + Print(operand))) + "}" + Print(rest)
    case Odd(name, junk, rest) => "${" + (name + junk) + "}" + Print(rest)
    case Nameless(body, rest) => "${" + body + "}" + Print(rest)
    case Unclosed(tail) => "${" + tail
  }

  function Value(env: Env, name: string): string {
    if name in env then env[name] else ""
  }

  /** Which of the variable and the operand an operator picks; `:` treats empty as unset. */
  function Select(env: Env, name: string, colon: bool, op: Operator, operand: string): string {
    var present := if colon then Value(env, name) != "" else name in env;
    match op
    case Default => if present then Value(env, name) else operand
    case Alternate => if present then operand else ""
    case Required => Value(env, name)
  }

  /** What a template means: the Compose substitution rules, `?` reporting instead of raising. */
  function Denote(t: Template, env: Env): string {
    match t
    case Done => ""
    case Lit(c, rest) => [c] + Denote(rest, env)
    case Escaped(rest) => "$" + Denote(rest, env)
    case Lone(rest) => "$" + Denote(rest, env)
    case Var(name, rest) => Value(env, name) + Denote(rest, env)
    case Braced(name, rest) => Value(env, name) + Denote(rest, env)
    case Cond(name, colon, op, operand, rest) =>
      Select(env, name, colon, op, Denote(operand, env)) + Denote(rest, env)
    case Odd(name, junk, rest) => Value(env, name) + Denote(rest, env)
    case Nameless(body, rest) => Denote(rest, env)
    case Unclosed(tail) => "${" + tail
  }

  // ----- the inside of `${...}` -----

  /** What the text between the braces is read as. */
  datatype Body =
    | NoName
    | Plain(name: string)
    | Oper(name: string, colon: bool, op: Operator, operand: string)
    | Other(name: string, junk: string)

  /** `tail`, cut after its operator, or None when it has no operator form. */
  function Operation(tail: string): (r: Option<(bool, Operator, string)>)
    ensures r.Some? ==> tail == OpText(r.value.0, r.value.1) + r.value.2
    ensures r.Some? ==> !IsNameChar(tail[0])
  {
    var colon := tail != "" && tail[0] == ':';
    var at := if colon then 1 else 0;
    if at >= |tail| then None
    else
      var op := OperatorOf(tail[at]);
      if op.None? then None
      else
        assert tail == OpText(colon, op.value) + tail[at + 1..];
        Some((colon, op.value, tail[at + 1..]))
  }

  function OperatorOf(c: char): (r: Option<Operator>)
    ensures r.Some? ==> Symbol(r.value) == c
  {
    if c == '-' then Some(Default) else if c == '+' then Some(Alternate)
    else if c == '?' then Some(Required) else None
  }

  lemma {:induction false} OperationReads(colon: bool, op: Operator, operand: string)
    ensures Operation(OpText(colon, op) + operand) == Some((colon, op, operand))
  {
    var tail := OpText(colon, op) + operand;
    assert tail[|OpText(colon, op)|..] == operand;
  }

  /** `junk` follows a name and does not read as an operator with an operand. */
  predicate NoOperator(junk: string) {
    junk != "" && !IsNameChar(junk[0]) && Operation(junk).None?
  }

  function Split(body: string): (b: Body)
    ensures b.NoName? ==> NameLen(body) == 0
    ensures b.Plain? ==> IsName(b.name) && body == b.name
    ensures b.Oper? ==> IsName(b.name) && body == b.name + (OpText(b.colon, b.op) + b.operand)
    ensures b.Other? ==> IsName(b.name) && NoOperator(b.junk) && body == b.name + b.junk
  {
    var n := NameLen(body);
    if n == 0 then NoName
    else
      var name, tail := body[..n], body[n..];
      assert body == name + tail;
      if tail == "" then Plain(name)
      else match Operation(tail)
        case Some((colon, op, operand)) => Oper(name, colon, op, operand)
        case None => Other(name, tail)
  }

  lemma {:induction false} SplitPlain(name: string)
    requires IsName(name)
    ensures Split(name) == Plain(name)
  {
    NameLenUnique(name, "");
    assert name + "" == name;
  }

  lemma {:induction false} SplitOper(name: string, colon: bool, op: Operator, operand: string)
    requires IsName(name)
    ensures Split(name + (OpText(colon, op) + operand)) == Oper(name, colon, op, operand)
  {
    var tail := OpText(colon, op) + operand;
    NameLenUnique(name, tail);
    OperationReads(colon, op, operand);
  }

  lemma {:induction false} SplitOther(name: string, junk: string)
    requires IsName(name) && NoOperator(junk)
    ensures Split(name + junk) == Other(name, junk)
  {
    NameLenUnique(name, junk);
  }

  // ----- reading a text as a template -----

  /** The tree of `${body}`, given the tree of its operand and of what follows. */
  function Wrap(b: Body, body: string, operand: Template, rest: Template): Template {
    match b
    case NoName => Nameless(body, rest)
    case Plain(name) => Braced(name, rest)
    case Oper(name, colon, op, _) => Cond(name, colon, op, operand, rest)
    case Other(name, junk) => Odd(name, junk, rest)
  }

  function Parse(s: string): Template
    decreases |s|
  {
    if s == "" then Done
    else if s[0] != '$' then Lit(s[0], Parse(s[1..]))
    else if |s| > 1 && s[1] == '$' then Escaped(Parse(s[2..]))
    else if |s| > 1 && s[1] == '{' then
      var end := Close(s, 1, 1);
      if end == -1 then Unclosed(s[2..])
      else
        assert end != 1;
        var body, rest := s[2..end], Parse(s[end + 1..]);
        var operand := if Split(body).Oper? then Parse(Split(body).operand) else Done;
        Wrap(Split(body), body, operand, rest)
    else
      var n := NameLen(s[1..]);
      if n > 0 then Var(s[1..][..n], Parse(s[1..][n..])) else Lone(Parse(s[1..]))
  }

  /** The side conditions under which a tree is the one its text is read as. */
  ghost predicate WellFormed(t: Template) {
    match t
    case Done => true
    case Lit(c, rest) => c != '$' && WellFormed(rest)
    case Escaped(rest) => WellFormed(rest)
    case Lone(rest) => StartsNothing(Print(rest)) && WellFormed(rest)
    case Var(name, rest) => IsName(name) && EndsName(Print(rest)) && WellFormed(rest)
    case Braced(name, rest) => IsName(name) && WellFormed(rest)
    case Cond(name, _, _, operand, rest) =>
      IsName(name) && Nested(Print(operand)) && WellFormed(operand) && WellFormed(rest)
    case Odd(name, junk, rest) =>
      IsName(name) && NoOperator(junk) && Nested(junk) && WellFormed(rest)
    case Nameless(body, rest) => NameLen(body) == 0 && Nested(body) && WellFormed(rest)
    case Unclosed(tail) => Close("${" + tail, 1, 1) == -1
  }

  /** A `$` before this text begins no escape, no brace and no name. */
  predicate StartsNothing(s: string) {
    s == "" || (s[0] != '$' && s[0] != '{' && !IsNameStart(s[0]))
  }

  /** A name before this text ends where this text begins. */
  predicate EndsName(s: string) {
    s == "" || !IsNameChar(s[0])
  }

  lemma {:induction false} NamesArePlain(s: string)
    requires IsName(s)
    ensures forall k :: 0 <= k < |s| ==> Weight(s[k]) == 0
  {
  }

  lemma {:induction false} NestedAfterName(name: string, s: string)
    requires IsName(name)
    ensures Nested(name + s) <==> Nested(s)
  {
    NestedAfterPlain(name, s);
  }

  lemma {:induction false} NestedAfterOp(colon: bool, op: Operator, s: string)
    ensures Nested(OpText(colon, op) + s) <==> Nested(s)
  {
    NestedAfterPlain(OpText(colon, op), s);
  }

  /** Every text is the print of a well-formed tree: nothing the scanner meets is left out. */
  lemma {:induction false} PrintParse(s: string)
    ensures WellFormed(Parse(s)) && Print(Parse(s)) == s
    decreases |s|
  {
    if s == "" {
    } else if s[0] != '$' {
      PrintParse(s[1..]);
    } else if |s| > 1 && s[1] == '$' {
      PrintParse(s[2..]);
      assert s == "$$" + s[2..];
    } else if |s| > 1 && s[1] == '{' {
      var end := Close(s, 1, 1);
      if end == -1 {
        assert s == "${" + s[2..];
      } else {
        var body := s[2..end];
        PrintParse(s[end + 1..]);
        if Split(body).Oper? { PrintParse(Split(body).operand); }
        ClosedReads(s);
        WrapPrints(body, OperandTree(body), Parse(s[end + 1..]));
      }
    } else {
      var t := s[1..];
      PrintParse(t[NameLen(t)..]);
      PrintParseDollar(s);
    }
  }

  /** A text whose opening brace closes, cut at that brace. */
  lemma {:induction false} ClosedReads(s: string)
    requires |s| >= 2 && s[0] == '$' && s[1] == '{' && Close(s, 1, 1) != -1
    ensures var end := Close(s, 1, 1);
            && 2 <= end && Nested(s[2..end]) && s == "${" + s[2..end] + "}" + s[end + 1..]
            && Parse(s) == Wrap(Split(s[2..end]), s[2..end], OperandTree(s[2..end]), Parse(s[end + 1..]))
  {
    ClosedIsNested(s);
    var end := Close(s, 1, 1);
    assert s == "${" + s[2..end] + "}" + s[end + 1..];
    ParseBody(s[2..end], s[end + 1..]);
  }

  lemma {:induction false} PrintParseDollar(s: string)
    requires s != "" && s[0] == '$' && (|s| == 1 || s[1] !in {'$', '{'})
    requires var r := s[1..][NameLen(s[1..])..]; WellFormed(Parse(r)) && Print(Parse(r)) == r
    ensures WellFormed(Parse(s)) && Print(Parse(s)) == s
  {
    var t, n := s[1..], NameLen(s[1..]);
    assert s == "$" + t;
    if n > 0 { assert s == "$" + t[..n] + t[n..]; } else { assert t[n..] == t; }
  }

  /** Wrapping a body keeps its text, and is well-formed when its parts are. */
  lemma {:induction false} WrapPrints(body: string, operand: Template, rest: Template)
    requires Nested(body) && WellFormed(rest)
    requires Split(body).Oper? ==> WellFormed(operand) && Print(operand) == Split(body).operand
    ensures WellFormed(Wrap(Split(body), body, operand, rest))
    ensures Print(Wrap(Split(body), body, operand, rest)) == "${" + body + "}" + Print(rest)
  {
    hide Split, Nested, Depth, IsName, NoOperator, NameLen;
    var b := Split(body);
    if b.Oper? {
      NestedAfterName(b.name, OpText(b.colon, b.op) + b.operand);
      NestedAfterOp(b.colon, b.op, b.operand);
    } else if b.Other? {
      NestedAfterName(b.name, b.junk);
    }
  }

  predicate IsBraced(t: Template) {
    t.Braced? || t.Cond? || t.Odd? || t.Nameless?
  }

  /** The text between the braces of a braced form. */
  function BodyText(t: Template): string
    requires IsBraced(t)
  {
    match t
    case Braced(name, _) => name
    case Cond(name, colon, op, operand, _) => name + (OpText(colon, op) + Print(operand))
    case Odd(name, junk, _) => name + junk
    case Nameless(body, _) => body
  }

  lemma {:induction false} BodyTextWraps(t: Template)
    requires IsBraced(t) && WellFormed(t)
    ensures Nested(BodyText(t))
    ensures Split(BodyText(t)).Oper? <==> t.Cond?
    ensures t.Cond? ==> Split(BodyText(t)).operand == Print(t.operand)
    ensures Wrap(Split(BodyText(t)), BodyText(t), if t.Cond? then t.operand else Done, t.rest) == t
  {
    match t
    case Braced(name, rest) =>
      NestedAfterName(name, "");
      assert name + "" == name;
      SplitPlain(name);
    case Cond(name, colon, op, operand, rest) =>
      NestedAfterOp(colon, op, Print(operand));
      NestedAfterName(name, OpText(colon, op) + Print(operand));
      SplitOper(name, colon, op, Print(operand));
    case Odd(name, junk, rest) =>
      NestedAfterName(name, junk);
      SplitOther(name, junk);
    case Nameless(body, rest) =>
  }

  /** Reading is unambiguous: the text of a well-formed tree is read as that tree. */
  lemma {:induction false} ParsePrint(t: Template)
    requires WellFormed(t)
    ensures Parse(Print(t)) == t
  {
    if IsBraced(t) {
      if t.Cond? { ParsePrint(t.operand); }
      ParsePrint(t.rest);
      BodyTextWraps(t);
      ParseBody(BodyText(t), Print(t.rest));
    } else {
      if !t.Done? && !t.Unclosed? { ParsePrint(t.rest); }
      ParsePrintSimple(t);
    }
  }

  lemma {:induction false} ParsePrintSimple(t: Template)
    requires !IsBraced(t) && WellFormed(t)
    requires !t.Done? && !t.Unclosed? ==> Parse(Print(t.rest)) == t.rest
    ensures Parse(Print(t)) == t
  {
    hide Nested, Close, IsName, Wrap, Split, NameLen;
    match t
    case Done =>
    case Lit(c, rest) =>
      assert Print(t)[1..] == Print(rest);
    case Escaped(rest) =>
      assert Print(t)[2..] == Print(rest);
    case Lone(rest) =>
      assert Print(t)[1..] == Print(rest);
    case Var(name, rest) =>
      ParsePrintVar(name, rest);
    case Unclosed(tail) =>
      assert Print(t)[2..] == tail;
  }

  lemma {:induction false} ParsePrintVar(name: string, rest: Template)
    requires IsName(name) && EndsName(Print(rest)) && Parse(Print(rest)) == rest
    ensures Parse("$" + name + Print(rest)) == Var(name, rest)
  {
    hide Nested, Close, Wrap, Split, NameLen;
    var s := "$" + name + Print(rest);
    assert s[1..] == name + Print(rest);
    NameLenUnique(name, Print(rest));
    assert s[1] == name[0];
  }

  /** The tree of a text that opens with a nested braced form. */
  lemma {:induction false} ParseBody(body: string, rest: string)
    requires Nested(body)
    ensures Parse("${" + body + "}" + rest) == Wrap(Split(body), body, OperandTree(body), Parse(rest))
  {
    hide Wrap, Split, Nested, Depth, Close, NameLen;
    var s := "${" + body + "}" + rest;
    CloseNested(body, rest);
    assert s[2..2 + |body|] == body;
    assert s[2 + |body| + 1..] == rest;
  }

  function OperandTree(body: string): Template {
    if Split(body).Oper? then Parse(Split(body).operand) else Done
  }

  // ----- the scanner -----

  /** `_find_closing_brace`: -1 when unbalanced, otherwise the first index that closes `start`. */
  method FindClosingBrace(text: string, start: nat) returns (r: int)
    requires start <= |text|
    ensures r == -1 <==> forall k: nat :: !Closes(text, start, k)
    ensures r != -1 ==> 0 <= r && Closes(text, start, r) && forall k: nat :: k < r ==> !Closes(text, start, k)
  {
    var depth, i := 0, start;
    while i < |text|
      invariant start <= i <= |text|
      invariant depth == Depth(text[start..i])
      invariant forall k: nat :: start <= k < i ==> !Closes(text, start, k)
    {
      assert text[start..i + 1] == text[start..i] + [text[i]];
      DepthConcat(text[start..i], [text[i]]);
      assert Depth([text[i]]) == Weight(text[i]);
      if text[i] == '{' {
        depth := depth + 1;
      } else if text[i] == '}' {
        depth := depth - 1;
        if depth == 0 {
          assert Closes(text, start, i);
          return i;
        }
      }
      i := i + 1;
    }
    return -1;
  }

  /** The meaning of a text, one scanner step at a time. */
  function Meaning(s: string, env: Env): string {
    Denote(Parse(s), env)
  }

  lemma {:induction false} MeaningEmpty(env: Env)
    ensures Meaning("", env) == ""
  {
  }

  lemma {:induction false} MeaningLit(s: string, env: Env)
    requires s != "" && s[0] != '$'
    ensures Meaning(s, env) == [s[0]] + Meaning(s[1..], env)
  {
  }

  lemma {:induction false} MeaningEscaped(s: string, env: Env)
    requires |s| > 1 && s[0] == '$' && s[1] == '$'
    ensures Meaning(s, env) == "$" + Meaning(s[2..], env)
  {
  }

  lemma {:induction false} MeaningName(s: string, env: Env)
    requires s != "" && s[0] == '$' && (|s| == 1 || s[1] !in {'$', '{'})
    ensures NameLen(s[1..]) == 0 ==> Meaning(s, env) == "$" + Meaning(s[1..], env)
    ensures var n := NameLen(s[1..]);
            n > 0 ==> Meaning(s, env) == Value(env, s[1..][..n]) + Meaning(s[1..][n..], env)
  {
  }

  lemma {:induction false} MeaningBraced(s: string, env: Env)
    requires |s| > 1 && s[0] == '$' && s[1] == '{'
    ensures Close(s, 1, 1) == -1 ==> Meaning(s, env) == s
    ensures var end := Close(s, 1, 1);
            end != -1 ==> end >= 2 && Meaning(s, env) == BodyValue(s[2..end], env) + Meaning(s[end + 1..], env)
  {
    var end := Close(s, 1, 1);
    if end == -1 {
      assert s == "${" + s[2..];
    } else {
      ClosedReads(s);
      WrapMeans(Split(s[2..end]), s[2..end], OperandTree(s[2..end]), Parse(s[end + 1..]), env);
    }
  }

  lemma {:induction false} WrapMeans(b: Body, body: string, operand: Template, rest: Template, env: Env)
    ensures Denote(Wrap(b, body, operand, rest), env) == Pick(b, Denote(operand, env), env) + Denote(rest, env)
  {
    assert "" + Denote(rest, env) == Denote(rest, env);
  }

  /** The braced step, at an index into the whole text. */
  lemma {:induction false} MeaningBracedAt(value: string, i: nat, env: Env)
    requires i + 1 < |value| && value[i] == '$' && value[i + 1] == '{'
    ensures Close(value, i + 1, i + 1) == -1 ==> Meaning(value[i..], env) == value[i..]
    ensures var end := Close(value, i + 1, i + 1);
            end != -1 ==> (i + 2 <= end
              && Meaning(value[i..], env) == BodyValue(value[i + 2..end], env) + Meaning(value[end + 1..], env))
  {
    hide *;
    var here, end := value[i..], Close(value, i + 1, i + 1);
    CloseShift(value, i, 1);
    MeaningBraced(here, env);
    if end != -1 {
      assert here[2..end - i] == value[i + 2..end];
      assert here[end - i + 1..] == value[end + 1..];
    }
  }

  /** What a body resolves to, given the value of its operand. */
  function Pick(b: Body, operand: string, env: Env): string {
    match b
    case NoName => ""
    case Plain(name) => Value(env, name)
    case Oper(name, colon, op, _) => Select(env, name, colon, op, operand)
    case Other(name, junk) => Value(env, name)
  }

  /** The value of one `${body}`. */
  function BodyValue(body: string, env: Env): string {
    Pick(Split(body), Denote(OperandTree(body), env), env)
  }

  // ----- what each form means, in the caller's terms -----

  /** `-` and `:-`: the operand stands in for a variable that is absent, and with `:` for an empty one. */
  lemma {:induction false} DefaultMeans(n: string, colon: bool, o: Template, r: Template, env: Env)
    ensures n in env && env[n] != "" ==> Denote(Cond(n, colon, Default, o, r), env) == env[n] + Denote(r, env)
    ensures n !in env ==> Denote(Cond(n, colon, Default, o, r), env) == Denote(o, env) + Denote(r, env)
    ensures n in env && env[n] == "" ==>
              Denote(Cond(n, true, Default, o, r), env) == Denote(o, env) + Denote(r, env)
              && Denote(Cond(n, false, Default, o, r), env) == Denote(r, env)
  {
    assert "" + Denote(r, env) == Denote(r, env);
  }

  /** `+` and `:+`: the operand appears only with a variable that is present, and with `:` not empty. */
  lemma {:induction false} AlternateMeans(n: string, colon: bool, o: Template, r: Template, env: Env)
    ensures n in env && env[n] != "" ==> Denote(Cond(n, colon, Alternate, o, r), env) == Denote(o, env) + Denote(r, env)
    ensures n !in env ==> Denote(Cond(n, colon, Alternate, o, r), env) == Denote(r, env)
    ensures n in env && env[n] == "" ==>
              Denote(Cond(n, true, Alternate, o, r), env) == Denote(r, env)
              && Denote(Cond(n, false, Alternate, o, r), env) == Denote(o, env) + Denote(r, env)
  {
    assert "" + Denote(r, env) == Denote(r, env);
  }

  /** A name alone, bare, braced, followed by junk or by `?`: its value, and nothing for an absent one. */
  lemma {:induction false} NameMeans(n: string, colon: bool, o: Template, junk: string, r: Template, env: Env)
    ensures n in env ==> Denote(Braced(n, r), env) == env[n] + Denote(r, env)
    ensures n !in env ==> Denote(Braced(n, r), env) == Denote(r, env)
    ensures Denote(Var(n, r), env) == Denote(Braced(n, r), env)
    ensures Denote(Odd(n, junk, r), env) == Denote(Braced(n, r), env)
    ensures Denote(Cond(n, colon, Required, o, r), env) == Denote(Braced(n, r), env)
  {
    assert "" + Denote(r, env) == Denote(r, env);
  }

  /** The text of a conditional form, read as that form over the trees of its parts. */
  lemma {:induction false} CondReads(n: string, colon: bool, op: Operator, o: string, r: string)
    requires IsName(n) && Nested(o)
    ensures Parse("${" + n + OpText(colon, op) + o + "}" + r) == Cond(n, colon, op, Parse(o), Parse(r))
  {
    hide *;
    NestedAfterOp(colon, op, o);
    NestedAfterName(n, OpText(colon, op) + o);
    SplitOper(n, colon, op, o);
    ParseBody(n + (OpText(colon, op) + o), r);
    OperWraps(n + (OpText(colon, op) + o), n, colon, op, o, Parse(r));
    Regrouped(n, OpText(colon, op), o);
  }

  lemma OperWraps(body: string, n: string, colon: bool, op: Operator, o: string, rest: Template)
    requires Split(body) == Oper(n, colon, op, o)
    ensures Wrap(Split(body), body, OperandTree(body), rest) == Cond(n, colon, op, Parse(o), rest)
  {
    hide Split, Parse;
  }

  lemma Regrouped(n: string, op: string, o: string)
    ensures "${" + n + op + o == "${" + (n + (op + o))
  {
  }

  /** The two default operators on texts, whatever the operand nests and whatever follows. */
  lemma {:induction false} DefaultTexts(n: string, o: string, r: string, env: Env)
    requires IsName(n) && Nested(o)
    ensures Meaning("${" + n + ":-" + o + "}" + r, env)
         == (if n in env && env[n] != "" then env[n] else Meaning(o, env)) + Meaning(r, env)
    ensures Meaning("${" + n + "-" + o + "}" + r, env)
         == (if n in env then env[n] else Meaning(o, env)) + Meaning(r, env)
  {
    hide Parse, Denote, Nested, IsName;
    assert OpText(true, Default) == ":-" && OpText(false, Default) == "-";
    CondReads(n, true, Default, o, r);
    CondReads(n, false, Default, o, r);
    DefaultMeans(n, true, Parse(o), Parse(r), env);
    DefaultMeans(n, false, Parse(o), Parse(r), env);
    assert "" + Meaning(r, env) == Meaning(r, env);
  }

  /** The two alternate operators on texts. */
  lemma {:induction false} AlternateTexts(n: string, o: string, r: string, env: Env)
    requires IsName(n) && Nested(o)
    ensures Meaning("${" + n + ":+" + o + "}" + r, env)
         == (if n in env && env[n] != "" then Meaning(o, env) else "") + Meaning(r, env)
    ensures Meaning("${" + n + "+" + o + "}" + r, env)
         == (if n in env then Meaning(o, env) else "") + Meaning(r, env)
  {
    hide Parse, Denote, Nested, IsName;
    assert OpText(true, Alternate) == ":+" && OpText(false, Alternate) == "+";
    CondReads(n, true, Alternate, o, r);
    CondReads(n, false, Alternate, o, r);
    AlternateMeans(n, true, Parse(o), Parse(r), env);
    AlternateMeans(n, false, Parse(o), Parse(r), env);
    assert "" + Meaning(r, env) == Meaning(r, env);
  }

  /** The required operators and the plain braces on texts: the value, or nothing. */
  lemma {:induction false} NameTexts(n: string, o: string, r: string, env: Env)
    requires IsName(n) && Nested(o)
    ensures Meaning("${" + n + "}" + r, env) == (if n in env then env[n] else "") + Meaning(r, env)
    ensures Meaning("${" + n + ":?" + o + "}" + r, env) == Meaning("${" + n + "}" + r, env)
    ensures Meaning("${" + n + "?" + o + "}" + r, env) == Meaning("${" + n + "}" + r, env)
    ensures EndsName(r) ==> Meaning("$" + n + r, env) == Meaning("${" + n + "}" + r, env)
  {
    hide Parse, Denote, Nested, IsName, EndsName;
    assert OpText(true, Required) == ":?" && OpText(false, Required) == "?";
    CondReads(n, true, Required, o, r);
    CondReads(n, false, Required, o, r);
    NameMeans(n, true, Parse(o), "", Parse(r), env);
    NameMeans(n, false, Parse(o), "", Parse(r), env);
    BracedReads(n, r);
    if EndsName(r) { NameReads(n, r); }
    assert "" + Meaning(r, env) == Meaning(r, env);
  }

  /** What follows a name in braces reads as an operator when it is one, with or without a colon. */
  predicate HasOperator(junk: string) {
    || (junk != "" && junk[0] in {'-', '+', '?'})
    || (|junk| > 1 && junk[0] == ':' && junk[1] in {'-', '+', '?'})
  }

  /** Braces that hold a name and then no operator give the value; braces that start with no name give nothing. */
  lemma {:induction false} JunkTexts(n: string, junk: string, r: string, env: Env)
    requires Nested(junk)
    ensures IsName(n) && junk != "" && !IsNameChar(junk[0]) && !HasOperator(junk) ==>
              Meaning("${" + n + junk + "}" + r, env) == (if n in env then env[n] else "") + Meaning(r, env)
    ensures junk == "" || !IsNameStart(junk[0]) ==> Meaning("${" + junk + "}" + r, env) == Meaning(r, env)
  {
    hide Parse, Denote, Nested, IsName, IsNameChar, IsNameStart, HasOperator;
    if IsName(n) && junk != "" && !IsNameChar(junk[0]) && !HasOperator(junk) {
      OddReads(n, junk, r);
      NameMeans(n, false, Done, junk, Parse(r), env);
      assert "" + Meaning(r, env) == Meaning(r, env);
    }
    if junk == "" || !IsNameStart(junk[0]) {
      NamelessReads(junk, r);
      NamelessMeans(junk, Parse(r), env);
    }
  }

  lemma NamelessMeans(body: string, r: Template, env: Env)
    ensures Denote(Nameless(body, r), env) == Denote(r, env)
  {
  }

  lemma {:induction false} OddReads(n: string, junk: string, r: string)
    requires IsName(n) && junk != "" && !IsNameChar(junk[0]) && !HasOperator(junk) && Nested(junk)
    ensures Parse("${" + n + junk + "}" + r) == Odd(n, junk, Parse(r))
  {
    hide Parse, Nested, IsName;
    assert NoOperator(junk);
    NestedAfterName(n, junk);
    SplitOther(n, junk);
    ParseBody(n + junk, r);
    assert "${" + n + junk + "}" + r == "${" + (n + junk) + "}" + r;
  }

  lemma {:induction false} NamelessReads(body: string, r: string)
    requires Nested(body) && (body == "" || !IsNameStart(body[0]))
    ensures Parse("${" + body + "}" + r) == Nameless(body, Parse(r))
  {
    hide Parse, Nested;
    ParseBody(body, r);
  }

  lemma {:induction false} BracedReads(n: string, r: string)
    requires IsName(n)
    ensures Parse("${" + n + "}" + r) == Braced(n, Parse(r))
  {
    hide Parse, IsName;
    NestedAfterName(n, "");
    assert n + "" == n;
    SplitPlain(n);
    ParseBody(n, r);
  }

  lemma {:induction false} NameReads(n: string, r: string)
    requires IsName(n) && EndsName(r)
    ensures Parse("$" + n + r) == Var(n, Parse(r))
  {
    hide Print, WellFormed;
    PrintParse(r);
    ParsePrintVar(n, Parse(r));
  }

  /** `interpolate`: the index loop returns the meaning of the tree its input is read as. */
  method Interpolate(value: string, env: Env) returns (out: string)
    ensures out == Denote(Parse(value), env)
    ensures forall t :: WellFormed(t) && Print(t) == value ==> out == Denote(t, env)
    decreases |value|, 1
  {
    out := "";
    var i := 0;
    assert value[0..] == value;
    while i < |value|
      invariant i <= |value|
      invariant Meaning(value, env) == out + Meaning(value[i..], env)
    {
      var step, next := Step(value, i, env);
      assert out + (step + Meaning(value[next..], env)) == (out + step) + Meaning(value[next..], env);
      out := out + step;
      i := next;
    }
    assert value[i..] == "";
    forall t | WellFormed(t) && Print(t) == value ensures out == Denote(t, env) {
      ParsePrint(t);
    }
  }

  /** One iteration of the loop: the piece it emits and the index it moves to. */
  method Step(value: string, i: nat, env: Env) returns (piece: string, next: nat)
    requires i < |value|
    ensures i < next <= |value|
    ensures Meaning(value[i..], env) == piece + Meaning(value[next..], env)
    decreases |value|, 0
  {
    hide Meaning, BodyValue, Closes;
    ghost var here := value[i..];
    if value[i] != '$' {
      MeaningLit(here, env);
      assert here[1..] == value[i + 1..];
      return [value[i]], i + 1;
    }
    if i + 1 < |value| && value[i + 1] == '$' {
      MeaningEscaped(here, env);
      assert here[2..] == value[i + 2..];
      return "$", i + 2;
    }
    if i + 1 < |value| && value[i + 1] == '{' {
      var end := FindClosingBrace(value, i + 1);
      CloseIsFirst(value, i + 1, i + 1);
      assert end == Close(value, i + 1, i + 1);
      MeaningBracedAt(value, i, env);
      if end == -1 {
        assert value[|value|..] == "" && value[i..] + "" == value[i..];
        MeaningEmpty(env);
        return value[i..], |value|;
      }
      piece := ResolveBraced(value[i + 2..end], env);
      return piece, end + 1;
    }
    var n := NameLen(value[i + 1..]);
    assert here[1..] == value[i + 1..];
    MeaningName(here, env);
    if n > 0 {
      assert value[i + 1..][n..] == value[i + 1 + n..];
      assert value[i + 1..][..n] == value[i + 1..i + 1 + n];
      return Value(env, value[i + 1..i + 1 + n]), i + 1 + n;
    }
    return [value[i]], i + 1;
  }

  /** `_resolve_braced`: the value of one `${body}`. */
  method ResolveBraced(body: string, env: Env) returns (out: string)
    ensures out == BodyValue(body, env)
    decreases |body|, 2
  {
    hide Denote, Parse, Print, WellFormed, Nested, NameLen, IsName, NoOperator, OpText;
    var n := NameLen(body);
    if n == 0 {
      return "";
    }
    var name, tail := body[..n], body[n..];
    var raw := Value(env, name);
    if tail == "" {
      return raw;
    }
    var colon := tail[0] == ':';
    var at := if colon then 1 else 0;
    if at >= |tail| {
      return raw;
    }
    var operand := tail[at + 1..];
    var present := if colon then raw != "" else name in env;
    if tail[at] == '-' {
      if present {
        return raw;
      }
      out := Interpolate(operand, env);
    } else if tail[at] == '+' {
      if !present {
        return "";
      }
      out := Interpolate(operand, env);
    } else {
      return raw;
    }
  }

  // ----- the registry check -----

  function Lstrip(s: string): string {
    if s != "" && IsSpace(s[0]) then Lstrip(s[1..]) else s
  }

  function Rstrip(s: string): string {
    if s != "" && IsSpace(s[|s| - 1]) then Rstrip(s[..|s| - 1]) else s
  }

  datatype Host = NoRegistry | Registry(host: string)

  /** The part of `s` before its first `/`. */
  function Head(s: string): (h: string)
    requires '/' in s
    ensures '/' !in h && h + "/" <= s
  {
    if s[0] == '/' then "" else [s[0]] + Head(s[1..])
  }

  lemma {:induction false} HeadIs(h: string, tail: string)
    requires '/' !in h
    ensures Head(h + "/" + tail) == h
  {
    var s := h + "/" + tail;
    assert s[|h|] == '/';
    if h != "" {
      assert s[0] == h[0] && h[0] in h;
      assert s[1..] == h[1..] + "/" + tail;
      HeadIs(h[1..], tail);
    }
  }

  /** `registry_host`: the first path component, when it looks like a registry. */
  function RegistryHost(ref: string): Host {
    var s := Rstrip(Lstrip(ref));
    if '/' !in s then NoRegistry
    else
      var head := Head(s);
      if head == "localhost" || '.' in head || ':' in head then Registry(head) else NoRegistry
  }

  /** Nothing but white space. */
  predicate Blank(s: string) {
    forall k :: 0 <= k < |s| ==> IsSpace(s[k])
  }

  /** Begins and ends with no white space. */
  predicate Trim(s: string) {
    s == "" || (!IsSpace(s[0]) && !IsSpace(s[|s| - 1]))
  }

  lemma {:induction false} LstripIs(s: string) returns (a: string)
    ensures s == a + Lstrip(s) && Blank(a)
    ensures Lstrip(s) == "" || !IsSpace(Lstrip(s)[0])
  {
    hide IsSpace;
    if s != "" && IsSpace(s[0]) {
      a := LstripIs(s[1..]);
      a := [s[0]] + a;
      assert s == a + Lstrip(s);
    } else {
      a := "";
    }
  }

  lemma {:induction false} RstripIs(s: string) returns (b: string)
    ensures s == Rstrip(s) + b && Blank(b)
    ensures Rstrip(s) == "" || !IsSpace(Rstrip(s)[|Rstrip(s)| - 1])
    decreases |s|
  {
    hide IsSpace;
    if s != "" && IsSpace(s[|s| - 1]) {
      b := RstripIs(s[..|s| - 1]);
      assert s == s[..|s| - 1] + [s[|s| - 1]];
      b := b + [s[|s| - 1]];
      assert s == Rstrip(s) + b;
    } else {
      b := "";
    }
  }

  /** `strip` cuts white space off both ends and leaves none there. */
  lemma {:induction false} StripIs(s: string) returns (a: string, b: string)
    ensures s == a + Rstrip(Lstrip(s)) + b && Blank(a) && Blank(b)
    ensures Trim(Rstrip(Lstrip(s)))
  {
    hide IsSpace, Lstrip, Rstrip;
    a := LstripIs(s);
    var t := Lstrip(s);
    b := RstripIs(t);
    var u := Rstrip(t);
    assert u != "" ==> u[0] == t[0];
    assert s == a + u + b;
  }

  /**
   A reference names the registry `h` exactly when, white space around it cut off, it is `h` and a
   slash and more, `h` itself having no slash and looking like a host.
   */
  lemma {:induction false} RegistryIs(a: string, ref: string, b: string, h: string)
    requires Blank(a) && Blank(b) && Trim(ref)
    ensures RegistryHost(a + ref + b) == Registry(h)
       <==> h + "/" <= ref && '/' !in h && (h == "localhost" || '.' in h || ':' in h)
  {
    hide IsSpace, Blank, Trim, Lstrip, Rstrip;
    StripOnce(a, ref, b);
    if h + "/" <= ref && '/' !in h {
      assert ref == h + "/" + ref[|h| + 1..];
      assert ref[|h|] == '/';
      HeadIs(h, ref[|h| + 1..]);
    }
  }

  /** Blanks around a trimmed text are all that is cut. */
  lemma {:induction false} StripOnce(a: string, t: string, b: string)
    requires Blank(a) && Blank(b) && Trim(t)
    ensures Rstrip(Lstrip(a + t + b)) == t
    decreases |a| + |b|
  {
    hide IsSpace;
    var s := a + t + b;
    if a != "" {
      assert s[0] == a[0] && s[1..] == a[1..] + t + b;
      StripOnce(a[1..], t, b);
    } else if t == "" {
      assert s == b;
      LstripBlank(b);
    } else {
      assert s == t + b && s[0] == t[0];
      RstripOnce(t, b);
    }
  }

  lemma {:induction false} LstripBlank(b: string)
    requires Blank(b)
    ensures Lstrip(b) == ""
  {
    hide IsSpace;
    if b != "" { LstripBlank(b[1..]); }
  }

  lemma {:induction false} RstripOnce(t: string, b: string)
    requires t != "" && !IsSpace(t[|t| - 1]) && Blank(b)
    ensures Rstrip(t + b) == t
    decreases |b|
  {
    hide IsSpace;
    var s := t + b;
    if b != "" {
      assert s[|s| - 1] == b[|b| - 1] && s[..|s| - 1] == t + b[..|b| - 1];
      RstripOnce(t, b[..|b| - 1]);
    } else {
      assert s == t;
    }
  }

  lemma {:induction false} LstripKeeps(s: string, c: char)
    requires c !in s
    ensures c !in Lstrip(s)
  {
    if s != "" && IsSpace(s[0]) { LstripKeeps(s[1..], c); }
  }

  lemma {:induction false} RstripKeeps(s: string, c: char)
    requires c !in s
    ensures c !in Rstrip(s)
    decreases |s|
  {
    if s != "" && IsSpace(s[|s| - 1]) { RstripKeeps(s[..|s| - 1], c); }
  }

  /** `${R:+${R}/}image`: the registry prefix that appears only when `R` is exported. */
  function Gated(r: string, image: Template): Template {
    Cond(r, true, Alternate, Braced(r, Lit('/', Done)), image)
  }

  lemma {:induction false} GatedNested(r: string)
    requires IsName(r)
    ensures Nested("${" + r + "}/")
  {
    var s := "${" + r + "}/";
    NamesArePlain(r);
    assert "${"[..1] == "$" && "}/"[..1] == "}";
    assert Depth("${") == 1 && Depth("}") == -1 && Depth("}/") == -1;
    forall k | 0 <= k <= |s|
      ensures Depth(s[..k]) >= 0 && (k == |s| ==> Depth(s[..k]) == 0)
    {
      if k <= 1 {
        DepthOfNames(s[..k]);
      } else {
        var m := if k - 2 <= |r| then k - 2 else |r|;
        DepthConcat("${", r[..m]);
        DepthOfNames(r[..m]);
        var e := if k <= 2 + |r| then "" else if k == 3 + |r| then "}" else "}/";
        assert s[..k] == ("${" + r[..m]) + e;
        DepthConcat("${" + r[..m], e);
      }
    }
    assert s[..|s|] == s;
  }

  /** A gated image is well-formed, so its text is scanned as intended. */
  lemma {:induction false} GatedWellFormed(r: string, image: Template)
    requires IsName(r) && WellFormed(image)
    ensures WellFormed(Gated(r, image))
  {
    GatedNested(r);
    var inner := Braced(r, Lit('/', Done));
    assert Print(inner) == "${" + r + "}" + "/";
    assert "${" + r + "}" + "/" == "${" + r + "}/";
  }

  lemma {:induction false} NoSlashNoHost(ref: string)
    requires '/' !in ref
    ensures RegistryHost(ref) == NoRegistry
  {
    LstripKeeps(ref, '/');
    RstripKeeps(Lstrip(ref), '/');
  }

  /**
   The fix the registry check looks for. With `R` unset or empty the gated image names
   no registry as long as the image itself has no path; with `R` exported to a registry
   host, that very host is what is named.
   */
  method ResolveGated(r: string, image: Template, env: Env) returns (out: string)
    requires IsName(r) && WellFormed(image)
    ensures Value(env, r) == "" && '/' !in Denote(image, env) ==> RegistryHost(out) == NoRegistry
    ensures var host := Value(env, r);
            var ref := host + "/" + Denote(image, env);
            host != "" && '/' !in host && ('.' in host || ':' in host) && Rstrip(Lstrip(ref)) == ref
            ==> RegistryHost(out) == Registry(host)
  {
    GatedWellFormed(r, image);
    out := Interpolate(Print(Gated(r, image)), env);
    GatedMeans(r, image, env);
    ghost var host, tail := Value(env, r), Denote(image, env);
    if host == "" {
      if '/' !in tail { NoSlashNoHost(out); }
    } else if '/' !in host {
      assert out[|host|] == '/';
      HeadIs(host, tail);
    }
  }

  lemma {:induction false} GatedMeans(r: string, image: Template, env: Env)
    ensures Denote(Gated(r, image), env)
         == (if Value(env, r) == "" then "" else Value(env, r) + "/") + Denote(image, env)
  {
    var inner := Lit('/', Done);
    assert Denote(Done, env) == "";
    assert Denote(inner, env) == "/";
    assert Denote(Braced(r, inner), env) == Value(env, r) + "/";
  }

  // ----- the check over all services -----

  datatype Service = Service(name: string, build: bool, image: Option<string>)

  /** The environment of a fresh clone. */
  function PullEnv(env: Env): Env {
    env - {"ECR_REGISTRY", "IMAGE_TAG"}
  }

  /** Built here, and yet its image resolves to somebody's registry. */
  predicate Offends(s: Service, env: Env) {
    s.build && s.image.Some? && RegistryHost(Denote(Parse(s.image.value), PullEnv(env))).Registry?
  }

  function Offenders(services: seq<Service>, env: Env): seq<string> {
    if services == [] then []
    else
      var last := services[|services| - 1];
      Offenders(services[..|services| - 1], env) + if Offends(last, env) then [last.name] else []
  }

  function Checked(services: seq<Service>): nat {
    if services == [] then 0
    else
      var last := services[|services| - 1];
      Checked(services[..|services| - 1]) + if last.build && last.image.Some? then 1 else 0
  }

  lemma {:induction false} OffendersNext(services: seq<Service>, k: nat, env: Env)
    requires k < |services|
    ensures Offenders(services[..k + 1], env)
         == Offenders(services[..k], env) + if Offends(services[k], env) then [services[k].name] else []
    ensures Checked(services[..k + 1])
         == Checked(services[..k]) + if services[k].build && services[k].image.Some? then 1 else 0
  {
    hide Offends;
    assert services[..k + 1][..k] == services[..k];
  }

  /** `check_no_ecr_pull`, over the services in name order. */
  method CheckNoEcrPull(services: seq<Service>, env: Env) returns (problems: seq<string>, checked: nat)
    ensures problems == Offenders(services, env) && checked == Checked(services)
  {
    hide Offenders, Checked, Denote, Parse, RegistryHost;
    var pullEnv := PullEnv(env);
    problems, checked := [], 0;
    var k := 0;
    NoServices(env);
    assert services[..0] == [];
    while k < |services|
      invariant 0 <= k <= |services|
      invariant problems == Offenders(services[..k], env) && checked == Checked(services[..k])
    {
      OffendersNext(services, k, env);
      var s := services[k];
      if s.build && s.image.Some? {
        checked := checked + 1;
        var resolved := Interpolate(s.image.value, pullEnv);
        if RegistryHost(resolved).Registry? {
          problems := problems + [s.name];
        }
      }
      k := k + 1;
    }
    assert services[..k] == services;
  }

  lemma NoServices(env: Env)
    ensures Offenders([], env) == [] && Checked([]) == 0
  {
  }

  lemma {:induction false} OffendersAre(services: seq<Service>, env: Env)
    ensures Offenders(services, env) == [] <==> forall k :: 0 <= k < |services| ==> !Offends(services[k], env)
  {
    hide Offends, Offenders;
    var ks := OffendersListed(services, env);
    if ks != [] { assert ks[0] in ks; }
  }

  ghost predicate Increasing(ks: seq<nat>) {
    forall i, j :: 0 <= i < j < |ks| ==> ks[i] < ks[j]
  }

  /** `ks` are the places of the offending services, in order, and `names` are theirs. */
  ghost predicate Lists(ks: seq<nat>, names: seq<string>, services: seq<Service>, env: Env) {
    && Increasing(ks) && |names| == |ks|
    && (forall k: nat :: k in ks <==> k < |services| && Offends(services[k], env))
    && forall i :: 0 <= i < |ks| ==> ks[i] < |services| && names[i] == services[ks[i]].name
  }

  /** The problems are the offending services, all of them, once each and in order. */
  lemma {:induction false} OffendersListed(services: seq<Service>, env: Env) returns (ks: seq<nat>)
    ensures Lists(ks, Offenders(services, env), services, env)
  {
    hide Offends, Lists;
    if services == [] {
      ks := [];
      NoneListed(env);
    } else {
      var n := |services| - 1;
      ks := OffendersListed(services[..n], env);
      ListsNext(ks, Offenders(services[..n], env), services, env);
      if Offends(services[n], env) { ks := ks + [n]; }
    }
  }

  lemma NoneListed(env: Env)
    ensures Lists([], [], [], env)
  {
  }

  lemma {:induction false} ListsNext(ks: seq<nat>, names: seq<string>, services: seq<Service>, env: Env)
    requires services != [] && Lists(ks, names, services[..|services| - 1], env)
    ensures var n: nat := |services| - 1;
            if Offends(services[n], env) then Lists(ks + [n], names + [services[n].name], services, env)
            else Lists(ks, names + [], services, env)
  {
    hide Offends;
    var n: nat := |services| - 1;
    var front := services[..n];
    assert names + [] == names;
    forall k: nat | k < n ensures k in ks <==> Offends(services[k], env) {
      assert front[k] == services[k];
    }
    forall i | 0 <= i < |ks| ensures ks[i] < n && names[i] == services[ks[i]].name {
      assert front[ks[i]] == services[ks[i]];
    }
    forall k: nat | k in ks ensures k < n {
    }
  }

  /** A built service with a tag is the one kind that is checked. */
  lemma {:induction false} CheckedIs(services: seq<Service>)
    ensures Checked(services) == |set k | 0 <= k < |services| && services[k].build && services[k].image.Some?|
  {
    var all := set k | 0 <= k < |services| && services[k].build && services[k].image.Some?;
    if services == [] {
      assert all == {};
    } else {
      var n := |services| - 1;
      var front := services[..n];
      CheckedIs(front);
      var was := set k | 0 <= k < |front| && front[k].build && front[k].image.Some?;
      assert all == if services[n].build && services[n].image.Some? then was + {n} else was;
    }
  }

  /** A fresh clone has every variable but the two the deployment exports. */
  lemma {:induction false} FreshClone(env: Env, n: string)
    ensures n in PullEnv(env) <==> n in env && n != "ECR_REGISTRY" && n != "IMAGE_TAG"
    ensures n in PullEnv(env) ==> PullEnv(env)[n] == env[n]
  {
  }

  /** A registry that is a default offends: the shape the check is there to find. */
  lemma {:induction false} DefaultOffends(name: string, host: string, tail: string, env: Env)
    requires '$' !in host && '$' !in tail && '{' !in host && '}' !in host && '/' !in host
    requires '.' in host && Trim(host + "/" + tail)
    ensures Offends(Service(name, true, Some("${ECR_REGISTRY:-" + host + "}/" + tail)), env)
  {
    hide Parse, Denote, Nested, IsName, RegistryHost, Trim;
    var clone := PullEnv(env);
    var image := "${ECR_REGISTRY:-" + host + "}/" + tail;
    RegistryVariable();
    PlainNested(host);
    DefaultTexts("ECR_REGISTRY", host, "/" + tail, clone);
    assert image == "${" + "ECR_REGISTRY" + ":-" + host + "}" + ("/" + tail);
    PlainMeans(host, clone);
    PlainMeans("/" + tail, clone);
    var ref := host + "/" + tail;
    assert Meaning(image, clone) == ref;
    RegistryIs("", ref, "", host);
    assert "" + ref + "" == ref;
  }

  lemma {:induction false} PlainNested(s: string)
    requires '{' !in s && '}' !in s
    ensures Nested(s)
  {
    assert s + "" == s;
    NestedAfterPlain(s, "");
  }

  /** A text with no `$` stands for itself. */
  lemma {:induction false} PlainMeans(s: string, env: Env)
    requires '$' !in s
    ensures Meaning(s, env) == s
  {
    hide Meaning;
    if s == "" {
      MeaningEmpty(env);
    } else {
      assert s[0] in s && s == [s[0]] + s[1..];
      MeaningLit(s, env);
      PlainMeans(s[1..], env);
    }
  }

  /** Tagged from a gate on the registry variable, with no path of its own. */
  ghost predicate GatedImage(s: Service, env: Env) {
    exists image :: WellFormed(image) && s.image == Some(Print(Gated("ECR_REGISTRY", image)))
      && '/' !in Denote(image, PullEnv(env))
  }

  lemma GatedDoesNotOffend(s: Service, env: Env)
    requires GatedImage(s, env)
    ensures !Offends(s, env)
  {
    hide WellFormed, Denote, Parse, Print, RegistryHost, Gated;
    var image :| WellFormed(image) && s.image == Some(Print(Gated("ECR_REGISTRY", image)))
      && '/' !in Denote(image, PullEnv(env));
    RegistryVariable();
    GatedWellFormed("ECR_REGISTRY", image);
    ParsePrint(Gated("ECR_REGISTRY", image));
    GatedMeans("ECR_REGISTRY", image, PullEnv(env));
    assert Value(PullEnv(env), "ECR_REGISTRY") == "";
    assert "" + Denote(image, PullEnv(env)) == Denote(image, PullEnv(env));
    NoSlashNoHost(Denote(image, PullEnv(env)));
  }

  lemma RegistryVariable()
    ensures IsName("ECR_REGISTRY")
  {
  }

  /**
   The check passes, whatever else is exported, when every service that is built here either has
   no image tag or tags itself through the registry gate.
   */
  lemma GatedServicesPass(services: seq<Service>, env: Env)
    requires forall k :: 0 <= k < |services| && services[k].build && services[k].image.Some? ==> GatedImage(services[k], env)
    ensures Offenders(services, env) == []
  {
    hide Offenders, GatedImage;
    OffendersAre(services, env);
    forall k | 0 <= k < |services| ensures !Offends(services[k], env) {
      if services[k].build && services[k].image.Some? { GatedDoesNotOffend(services[k], env); }
    }
  }
}
