/** The scanner of shell arithmetic. */
module ArithLexer {
  import opened CTypes
  import opened ArithGrammar

  const BAD := 4

  predicate IsNameStart(c: char) {
    ('A' <= c <= 'Z') || ('a' <= c <= 'z') || c == '_'
  }

  predicate IsInName(c: char) {
    IsNameStart(c) || IsDigit(c)
  }

  predicate IsBlank(c: char) {
    c == ' ' || c == '\t' || c == '\n'
  }

  // The operators of C that shell arithmetic has, by length; 0 where there is none.

  function One(c: char): int {
    if c == '=' then ASS else if c == '>' then GT else if c == '<' then LT else if c == '|' then BOR
    else if c == '&' then BAND else if c == '!' then NOT else if c == '(' then LPAREN else if c == ')' then RPAREN
    else if c == '*' then MUL else if c == '/' then DIV else if c == '%' then REM else if c == '+' then ADD
    else if c == '-' then SUB else if c == '~' then BNOT else if c == '^' then BXOR else if c == '?' then QMARK
    else if c == ':' then COLON else 0
  }

  const REMASS := 24
  const BANDASS := 25
  const LSHIFTASS := 26
  const RSHIFTASS := 27
  const MULASS := 28
  const ADDASS := 29
  const BORASS := 30
  const SUBASS := 31
  const BXORASS := 32
  const DIVASS := 33

  function Two(c: char, d: char): int {
    if d == '=' then
      if c == '=' then EQ else if c == '>' then GE else if c == '<' then LE else if c == '!' then NE
      else if c == '%' then REMASS else if c == '&' then BANDASS else if c == '*' then MULASS
      else if c == '+' then ADDASS
      else if c == '|' then BORASS else if c == '-' then SUBASS else if c == '^' then BXORASS
      else if c == '/' then DIVASS else 0
    else if c != d then 0
    else if c == '>' then RSHIFT else if c == '<' then LSHIFT else if c == '|' then OR else if c == '&' then AND else 0
  }

  function Three(c: char, d: char, e: char): int {
    if e != '=' || c != d then 0 else if c == '>' then RSHIFTASS else if c == '<' then LSHIFTASS else 0
  }

  const NUL: char := '\0'

  function CharAt(s: string, i: nat): char {
    if i < |s| then s[i] else NUL
  }

  /** The longest operator at i. */
  predicate LongestOperator(s: string, i: nat, code: int, end: nat) {
    var c, d, e := CharAt(s, i), CharAt(s, i + 1), CharAt(s, i + 2);
    if Three(c, d, e) != 0 then code == Three(c, d, e) && end == i + 3
    else if Two(c, d) != 0 then code == Two(c, d) && end == i + 2
    else code == One(c) && code != 0 && end == i + 1
  }

  /** The longest name at i. */
  predicate LongestName(s: string, i: nat, end: nat) {
    && i < end <= |s| && IsNameStart(s[i])
    && (forall k :: i < k < end ==> IsInName(s[k]))
    && !IsInName(CharAt(s, end))
  }

  // ---------------------------------------------------------------- the tokens of a text

  /** What strtoimax makes of the text from an index on: the number, and the index after it. */
  type Numbers = nat -> (int, nat)

  /** It takes a digit at least, and stops at the end of the text. */
  predicate Consumes(s: string, number: Numbers) {
    forall i :: 0 <= i < |s| && IsDigit(s[i]) ==> i < number(i).1 <= |s|
  }

  function Blanks(s: string, i: nat): (j: nat)
    requires i <= |s|
    ensures i <= j <= |s| && (forall k :: i <= k < j ==> IsBlank(s[k])) && (j < |s| ==> !IsBlank(s[j]))
    decreases |s| - i
  {
    if i < |s| && IsBlank(s[i]) then Blanks(s, i + 1) else i
  }

  function NameEnd(s: string, i: nat): (j: nat)
    requires i <= |s|
    ensures i <= j <= |s| && (forall k :: i <= k < j ==> IsInName(s[k])) && (j < |s| ==> !IsInName(s[j]))
    decreases |s| - i
  {
    if i < |s| && IsInName(s[i]) then NameEnd(s, i + 1) else i
  }

  /** The token that starts at i, and the index after it. */
  function TokenFrom(s: string, number: Numbers, i: nat): (Token, nat)
    requires i < |s|
  {
    var c, d, e := CharAt(s, i), CharAt(s, i + 1), CharAt(s, i + 2);
    if IsDigit(c) then (Token(NUM, number(i).0, ""), number(i).1)
    else if IsNameStart(c) then (Token(VAR, 0, s[i..NameEnd(s, i)]), NameEnd(s, i))
    else if One(c) == 0 then (Token(BAD, 0, ""), i)
    else if Three(c, d, e) != 0 then (Token(Three(c, d, e), 0, ""), i + 3)
    else if Two(c, d) != 0 then (Token(Two(c, d), 0, ""), i + 2)
    else (Token(One(c), 0, ""), i + 1)
  }

  /** The tokens of a text from i on, by maximal munch, up to its end or to a character that starts none. */
  function Scan(s: string, number: Numbers, i: nat): (ts: seq<Token>)
    requires i <= |s| && NUL !in s && Consumes(s, number)
    decreases |s| - i
  {
    var j := Blanks(s, i);
    if j == |s| then []
    else
      var t := TokenFrom(s, number, j);
      TokenMoves(s, number, j);
      if t.0.code == BAD then [t.0] else [t.0] + Scan(s, number, t.1)
  }

  lemma TokenMoves(s: string, number: Numbers, i: nat)
    requires i < |s| && NUL !in s && Consumes(s, number)
    ensures
      var t := TokenFrom(s, number, i);
      t.1 <= |s| && (t.0.code != BAD ==> t.1 > i) && t.0.code != 0
  {
    if i + 2 >= |s| {
      assert CharAt(s, i + 2) == NUL;
    }
  }

  class Lexer {
    const text: string
    const number: Numbers
    var buf: nat
    var num: int
    var name: string

    constructor (text: string, number: Numbers)
      ensures this.text == text && this.number == number && buf == 0
    {
      this.text, this.number, buf, num, name := text, number, 0, 0, "";
    }

    /** A following = makes a compound assignment of an operator, and an equality of =: eleven further on in the list of
        tokens. */
    method CheckEq(value: int, at: nat) returns (token: int, end: nat)
      requires at <= |text|
      ensures if CharAt(text, at) == '=' then token == value + 11 && end == at + 1 else token == value && end == at
    {
      if at < |text| && text[at] == '=' {
        return value + 11, at + 1;
      }
      return value, at;
    }

    method Operator(i: nat) returns (token: int, end: nat)
      requires i < |text|
      ensures if One(text[i]) == 0 then token == BAD && end == i else LongestOperator(text, i, token, end)
    {
      var c := text[i];
      if c == '=' {
        token, end := CheckEq(ASS, i + 1);
      } else if c == '>' || c == '<' {
        if CharAt(text, i + 1) == '=' {
          token, end := if c == '>' then GE else LE, i + 2;
        } else if CharAt(text, i + 1) == c {
          token, end := CheckEq(if c == '>' then RSHIFT else LSHIFT, i + 2);
        } else {
          token, end := if c == '>' then GT else LT, i + 1;
        }
      } else if c == '|' || c == '&' {
        if CharAt(text, i + 1) != c {
          token, end := CheckEq(if c == '|' then BOR else BAND, i + 1);
        } else {
          token, end := if c == '|' then OR else AND, i + 2;
        }
      } else if c == '!' {
        if CharAt(text, i + 1) != '=' {
          token, end := NOT, i + 1;
        } else {
          token, end := NE, i + 2;
        }
      } else if c == '*' || c == '/' || c == '%' {
        token, end := CheckEq(if c == '*' then MUL else if c == '/' then DIV else REM, i + 1);
      } else if c == '+' || c == '-' || c == '^' {
        token, end := CheckEq(if c == '+' then ADD else if c == '-' then SUB else BXOR, i + 1);
      } else if c == '(' || c == ')' || c == '~' {
        token, end := if c == '(' then LPAREN else if c == ')' then RPAREN else BNOT, i + 1;
      } else if c == '?' || c == ':' {
        token, end := if c == '?' then QMARK else COLON, i + 1;
      } else {
        token, end := BAD, i;
      }
    }

    /** The next token: blanks are skipped, and the longest number, name or operator is taken. A character that starts
        none of them is not consumed. */
    method Yylex() returns (token: int)
      requires buf <= |text| && NUL !in text
      modifies this
      ensures buf >= old(buf)
      ensures exists i :: old(buf) <= i <= |text| && TokenAt(old(buf), i, token)
    {
      var i := buf;
      while i < |text| && (text[i] == ' ' || text[i] == '\t' || text[i] == '\n')
        invariant buf == old(buf) <= i <= |text| && forall k :: buf <= k < i ==> IsBlank(text[k])
      {
        i := i + 1;
      }
      if i == |text| {
        buf := i;
        token := 0;
      } else if '0' <= text[i] <= '9' {
        var n := number(i);
        num := n.0;
        buf := if n.1 > i then n.1 else i;
        token := NUM;
      } else if text[i] == '_' || 'A' <= text[i] <= 'Z' || 'a' <= text[i] <= 'z' {
        var end := i + 1;
        while end < |text|
              && (text[end] == '_' || 'A' <= text[end] <= 'Z' || 'a' <= text[end] <= 'z' || '0' <= text[end] <= '9')
          invariant i < end <= |text| && forall k :: i < k < end ==> IsInName(text[k])
        {
          end := end + 1;
        }
        name := text[i..end];
        buf := end;
        token := VAR;
      } else {
        token, buf := Operator(i);
      }
      assert TokenAt(old(buf), i, token);
    }

    predicate TokenAt(start: nat, i: nat, token: int)
      requires start <= i <= |text|
      reads this
    {
      && (forall k :: start <= k < i ==> IsBlank(text[k]))
      && if i == |text| then token == 0 && buf == i
         else
           && !IsBlank(text[i])
           && if IsDigit(text[i]) then
                token == NUM && num == number(i).0 && buf == if number(i).1 > i then number(i).1 else i
              else if IsNameStart(text[i]) then token == VAR && LongestName(text, i, buf) && name == text[i..buf]
              else if One(text[i]) != 0 then LongestOperator(text, i, token, buf)
              else token == BAD && buf == i
    }

    /** A token found by the scanner is the one that the text has there. */
    lemma TokenIs(start: nat, i: nat, token: int)
      requires start <= i <= |text| && NUL !in text && Consumes(text, number) && TokenAt(start, i, token)
      ensures i == Blanks(text, start)
      ensures i == |text| ==> token == 0
      ensures i < |text| ==>
                var t := TokenFrom(text, number, i);
                t == (Token(token, if token == NUM then num else 0, if token == VAR then name else ""), buf)
    {
      BlanksEnd(text, start, i);
      if i < |text| && !IsDigit(text[i]) && IsNameStart(text[i]) {
        NameEnds(text, i, buf);
      }
    }

    /** The next token with its value. */
    method Next() returns (t: Token)
      requires buf <= |text| && NUL !in text && Consumes(text, number)
      modifies this
      ensures
        var j := Blanks(text, old(buf));
        if j == |text| then t.code == 0 else (t, buf) == TokenFrom(text, number, j)
    {
      hide TokenAt, TokenFrom, Blanks;
      ghost var start := buf;
      var token := Yylex();
      ghost var i: nat :| start <= i <= |text| && TokenAt(start, i, token);
      TokenIs(start, i, token);
      t := Token(token, if token == NUM then num else 0, if token == VAR then name else "");
    }

    /** All tokens of the text, up to its end or to a character that starts none. */
    method ScanAll() returns (ts: seq<Token>)
      requires buf == 0 && NUL !in text && Consumes(text, number)
      modifies this
      ensures ts == Scan(text, number, 0) && forall k :: 0 <= k < |ts| ==> ts[k].code != 0
    {
      hide TokenFrom, Blanks, Scan, Consumes;
      ts := [];
      ghost var rest := Scan(text, number, buf);
      var more := true;
      while more
        invariant buf <= |text| && forall k :: 0 <= k < |ts| ==> ts[k].code != 0
        invariant ts + rest == Scan(text, number, 0) && rest == if more then Scan(text, number, buf) else []
        decreases if more then |text| - buf + 1 else 0
      {
        ScanFrom(text, number, buf);
        var t := Next();
        if t.code == 0 {
          return;
        }
        more := t.code != BAD;
        assert rest[0] == t && rest[1..] == if more then Scan(text, number, buf) else [];
        Taken(ts, rest);
        ts, rest := ts + [t], rest[1..];
      }
    }
  }

  lemma Taken(ts: seq<Token>, rest: seq<Token>)
    requires rest != []
    ensures ts + rest == ts + [rest[0]] + rest[1..]
  {
  }

  lemma {:induction false} BlanksEnd(s: string, start: nat, i: nat)
    requires start <= i <= |s| && (forall k :: start <= k < i ==> IsBlank(s[k])) && (i < |s| ==> !IsBlank(s[i]))
    ensures Blanks(s, start) == i
    decreases i - start
  {
    if start < i {
      BlanksEnd(s, start + 1, i);
    }
  }

  lemma NameEnds(s: string, i: nat, end: nat)
    requires i < |s| && NUL !in s && LongestName(s, i, end)
    ensures NameEnd(s, i) == end
  {
    var j := NameEnd(s, i);
    assert j > i;
    assert CharAt(s, end) == NUL ==> end == |s|;
  }

  lemma ScanFrom(s: string, number: Numbers, i: nat)
    requires i <= |s| && NUL !in s && Consumes(s, number)
    ensures
      var j := Blanks(s, i);
      && (j == |s| ==> Scan(s, number, i) == [])
      && (j < |s| ==>
            var t := TokenFrom(s, number, j);
            && j <= t.1 <= |s| && (t.0.code != BAD ==> j < t.1) && t.0.code != 0
            && Scan(s, number, i) == if t.0.code == BAD then [t.0] else [t.0] + Scan(s, number, t.1))
  {
    hide TokenFrom, Blanks;
    var j := Blanks(s, i);
    if j < |s| {
      TokenMoves(s, number, j);
      TokenStays(s, number, j);
    }
  }

  lemma TokenStays(s: string, number: Numbers, i: nat)
    requires i < |s| && NUL !in s && Consumes(s, number)
    ensures i <= TokenFrom(s, number, i).1
  {
  }
}
