// tcbot/utils/i18n.py: the template scanner, its two render targets, and `t`.
module TemplateEngine {
  import opened Wrappers

  datatype Token =
    | Literal(text: string)
    | Field(name: string)
    | CodeSpan(inner: string)
    | BoldSpan(inner: string)

  datatype TemplateError =
    | UnbalancedBacktick
    | UnbalancedAsterisk
    | UnbalancedBrace
    | EmptySpan
    | BraceInSpan
    | NestedSpan
    | BadField
    | MissingValue(name: string)
    | NoneValue

  /* ----- Python string helpers ----- */

  /** `s.find(c, from)`: the first index of `c` at or after `from`, or -1. */
  function Find(s: string, c: char, from: nat): (r: int)
    ensures r == -1 || from <= r < |s|
    ensures r >= 0 ==> s[r] == c
    ensures forall k :: from <= k < (if r >= 0 then r else |s|) ==> s[k] != c
    decreases |s| - from
  {
    if from >= |s| then -1
    else if s[from] == c then from
    else Find(s, c, from + 1)
  }

  /** The character at `i` is followed by itself: `s.startswith("{{", i)` at a brace. */
  predicate DoubledAt(s: string, i: nat)
    requires i < |s|
  {
    i + 1 < |s| && s[i + 1] == s[i]
  }

  predicate IsNameStart(c: char) {
    'A' <= c <= 'Z' || 'a' <= c <= 'z' || c == '_'
  }

  /** `_FIELD_RE`: a bare ASCII identifier. */
  predicate IsFieldName(name: string) {
    && name != ""
    && IsNameStart(name[0])
    && forall k :: 1 <= k < |name| ==> IsNameStart(name[k]) || '0' <= name[k] <= '9'
  }

  /* ----- The scanner ----- */

  /** `check_span` and the nesting check: the token of a span, or why it is refused. */
  function SpanToken(mark: char, inner: string): Result<Token, TemplateError> {
    if inner == "" then Failure(EmptySpan)
    else if '{' in inner || '}' in inner then Failure(BraceInSpan)
    else if mark == '`' then Success(CodeSpan(inner))
    else if '`' in inner || '*' in inner then Failure(NestedSpan)
    else Success(BoldSpan(inner))
  }

  function FieldToken(name: string, known: set<string>): Result<Token, TemplateError> {
    if !IsFieldName(name) then Failure(BadField)
    else if name !in known then Failure(MissingValue(name))
    else Success(Field(name))
  }

  /** Put literal text in front of a token list, merging it with a leading literal. */
  function Attach(text: string, tokens: seq<Token>): seq<Token> {
    if text == "" then tokens
    else if tokens != [] && tokens[0].Literal? then [Literal(text + tokens[0].text)] + tokens[1..]
    else [Literal(text)] + tokens
  }

  function Unbalanced(open: char): TemplateError {
    if open == '`' then UnbalancedBacktick else if open == '*' then UnbalancedAsterisk else UnbalancedBrace
  }

  /** What one step of the scanner reads: a whole field or span, or one character of
      literal text; and the position after it. */
  datatype Lexeme = Whole(token: Token, next: nat) | Char(c: char, next: nat)

  function AsWhole(token: Result<Token, TemplateError>, next: nat): Result<Lexeme, TemplateError> {
    var t :- token;
    Success(Whole(t, next))
  }

  /** One step of the scanner at position `i`. */
  function Lex(s: string, i: nat, known: set<string>): (r: Result<Lexeme, TemplateError>)
    requires i < |s|
    ensures r.Success? ==> i < r.value.next <= |s|
  {
    if s[i] == '`' || s[i] == '*' then
      var j := Find(s, s[i], i + 1);
      if j < 0 then Failure(Unbalanced(s[i])) else AsWhole(SpanToken(s[i], s[i + 1..j]), j + 1)
    else if s[i] == '{' && !DoubledAt(s, i) then
      var j := Find(s, '}', i + 1);
      if j < 0 then Failure(UnbalancedBrace) else AsWhole(FieldToken(s[i + 1..j], known), j + 1)
    else if s[i] == '}' && !DoubledAt(s, i) then Failure(UnbalancedBrace)
    else Success(Char(s[i], if s[i] == '{' || s[i] == '}' then i + 2 else i + 1))
  }

  function Combine(lexeme: Lexeme, tokens: seq<Token>): seq<Token> {
    match lexeme
    case Whole(token, _) => [token] + tokens
    case Char(c, _) => Attach([c], tokens)
  }

  /** The tokens from position `i` of a template in which the fields `known` have values,
      or the first error that a left-to-right scan meets. */
  function Scan(s: string, i: nat, known: set<string>): Result<seq<Token>, TemplateError>
    requires i <= |s|
    decreases |s| - i
  {
    if i == |s| then Success([])
    else
      var lexeme :- Lex(s, i, known);
      var rest :- Scan(s, lexeme.next, known);
      Success(Combine(lexeme, rest))
  }

  /* ----- The grammar, by its printer ----- */

  function DoubleBraces(text: string): string {
    if text == "" then ""
    else (if text[0] in {'{', '}'} then [text[0], text[0]] else [text[0]]) + DoubleBraces(text[1..])
  }

  function PrintToken(token: Token): string {
    match token
    case Literal(text) => DoubleBraces(text)
    case Field(name) => "{" + name + "}"
    case CodeSpan(inner) => "`" + inner + "`"
    case BoldSpan(inner) => "*" + inner + "*"
  }

  function Print(tokens: seq<Token>): string {
    if tokens == [] then "" else PrintToken(tokens[0]) + Print(tokens[1..])
  }

  predicate GoodToken(token: Token) {
    match token
    case Literal(text) => text != "" && '`' !in text && '*' !in text
    case Field(name) => IsFieldName(name)
    case CodeSpan(inner) => inner != "" && '`' !in inner && '{' !in inner && '}' !in inner
    case BoldSpan(inner) =>
      inner != "" && '`' !in inner && '*' !in inner && '{' !in inner && '}' !in inner
  }

  /** Good tokens, every literal as long as it can be, every field known. */
  predicate Normalized(tokens: seq<Token>, known: set<string>) {
    tokens == [] ||
    (&& GoodToken(tokens[0])
     && (tokens[0].Field? ==> tokens[0].name in known)
     && (tokens[0].Literal? && |tokens| > 1 ==> !tokens[1].Literal?)
     && Normalized(tokens[1..], known))
  }

  lemma {:induction false} FindFirst(s: string, c: char, from: nat, r: nat)
    requires from <= r < |s| && s[r] == c
    requires forall k :: from <= k < r ==> s[k] != c
    ensures Find(s, c, from) == r
    decreases r - from
  {
    if from < r {
      FindFirst(s, c, from + 1, r);
    }
  }

  lemma PrintCons(token: Token, tokens: seq<Token>)
    ensures Print([token] + tokens) == PrintToken(token) + Print(tokens)
  {
    assert ([token] + tokens)[1..] == tokens;
  }

  lemma AttachAttach(a: string, b: string, tokens: seq<Token>)
    ensures Attach(a, Attach(b, tokens)) == Attach(a + b, tokens)
  {
    if a == "" {
      assert a + b == b;
    } else if b == "" {
      assert a + b == a;
    } else if tokens != [] && tokens[0].Literal? {
      assert a + (b + tokens[0].text) == (a + b) + tokens[0].text;
      assert Attach(b, tokens)[1..] == tokens[1..];
    } else {
      assert Attach(b, tokens)[1..] == tokens;
    }
  }

  lemma Suffix(s: string, i: nat, front: string, rest: string)
    requires i <= |s| && s[i..] == front + rest
    ensures |s| - |rest| == i + |front| && s[i..i + |front|] == front && s[i + |front|..] == rest
  {
    assert s[i..i + |front|] == s[i..][..|front|];
    assert s[i + |front|..] == s[i..][|front|..];
  }

  /** Reading a doubled or plain literal character. */
  lemma LexChar(s: string, i: nat, c: char, rest: string, known: set<string>)
    requires i < |s| && c != '`' && c != '*'
    requires s[i..] == DoubleBraces([c]) + rest
    ensures |rest| < |s| && Lex(s, i, known) == Success(Char(c, |s| - |rest|))
  {
    assert [c][1..] == "";
    assert s[i] == s[i..][0];
    if c in {'{', '}'} {
      assert s[i + 1] == s[i..][1];
    }
  }

  lemma FindClose(s: string, i: nat, inner: string, close: char)
    requires i + 1 + |inner| < |s| && s[i + 1..i + 1 + |inner|] == inner && s[i + 1 + |inner|] == close
    requires close !in inner
    ensures Find(s, close, i + 1) == i + 1 + |inner|
  {
    forall k | i + 1 <= k < i + 1 + |inner|
      ensures s[k] != close
    {
      assert s[k] == inner[k - i - 1];
    }
    FindFirst(s, close, i + 1, i + 1 + |inner|);
  }

  lemma Parts(s: string, i: nat, open: char, inner: string, close: char)
    requires i + 2 + |inner| <= |s| && s[i..i + 2 + |inner|] == [open] + inner + [close]
    ensures s[i] == open && s[i + 1..i + 1 + |inner|] == inner && s[i + 1 + |inner|] == close
  {
    var text := s[i..i + 2 + |inner|];
    assert s[i] == text[0] && s[i + 1 + |inner|] == text[1 + |inner|];
    forall k | 0 <= k < |inner|
      ensures s[i + 1..i + 1 + |inner|][k] == inner[k]
    {
      assert text[k + 1] == inner[k] && text[k + 1] == s[i + 1 + k];
    }
  }

  lemma LexSpan(s: string, i: nat, token: Token, known: set<string>)
    requires (token.CodeSpan? || token.BoldSpan?) && GoodToken(token)
    requires i + 2 + |token.inner| <= |s| && s[i..i + 2 + |token.inner|] == PrintToken(token)
    ensures Lex(s, i, known) == Success(Whole(token, i + 2 + |token.inner|))
  {
    var mark := if token.CodeSpan? then '`' else '*';
    Parts(s, i, mark, token.inner, mark);
    FindClose(s, i, token.inner, mark);
  }

  lemma LexField(s: string, i: nat, name: string, known: set<string>)
    requires IsFieldName(name) && name in known
    requires i + 2 + |name| <= |s| && s[i..i + 2 + |name|] == "{" + name + "}"
    ensures Lex(s, i, known) == Success(Whole(Field(name), i + 2 + |name|))
  {
    Parts(s, i, '{', name, '}');
    FindClose(s, i, name, '}');
    assert s[i + 1] == s[i + 1..i + 1 + |name|][0];
    assert name[0] != '{';
  }

  /** Reading a printed field or span yields that token. */
  lemma LexWhole(s: string, i: nat, token: Token, rest: string, known: set<string>)
    requires !token.Literal? && GoodToken(token) && (token.Field? ==> token.name in known)
    requires i < |s| && s[i..] == PrintToken(token) + rest
    ensures |rest| < |s| && Lex(s, i, known) == Success(Whole(token, |s| - |rest|))
  {
    Suffix(s, i, PrintToken(token), rest);
    if token.Field? {
      LexField(s, i, token.name, known);
    } else {
      LexSpan(s, i, token, known);
    }
  }

  /** What one step reads, read backwards. */
  lemma LexPrints(s: string, i: nat, known: set<string>)
    requires i < |s| && Lex(s, i, known).Success?
    ensures match Lex(s, i, known).value
            case Whole(token, next) =>
              && !token.Literal? && GoodToken(token) && (token.Field? ==> token.name in known)
              && s[i..next] == PrintToken(token)
            case Char(c, next) => c != '`' && c != '*' && s[i..next] == DoubleBraces([c])
  {
    if s[i] == '`' || s[i] == '*' || (s[i] == '{' && !DoubledAt(s, i)) {
      var j := Find(s, if s[i] == '{' then '}' else s[i], i + 1);
      assert s[i..j + 1] == [s[i]] + s[i + 1..j] + [s[j]];
    } else {
      assert [s[i]][1..] == "";
      assert DoubleBraces([s[i]]) == if s[i] in {'{', '}'} then [s[i], s[i]] else [s[i]];
    }
  }

  lemma NormalizedCons(token: Token, tokens: seq<Token>, known: set<string>)
    requires Normalized(tokens, known) && GoodToken(token)
    requires token.Field? ==> token.name in known
    requires token.Literal? && tokens != [] ==> !tokens[0].Literal?
    ensures Normalized([token] + tokens, known)
  {
    assert ([token] + tokens)[1..] == tokens;
  }

  lemma AttachCons(text: string, tokens: seq<Token>)
    requires text != "" && (tokens != [] ==> !tokens[0].Literal?)
    ensures Attach(text, tokens) == [Literal(text)] + tokens
  {
  }

  lemma ScanChar(s: string, i: nat, c: char, next: nat, known: set<string>)
    requires i < |s| && Lex(s, i, known) == Success(Char(c, next))
    ensures Scan(s, i, known) == AttachTo([c], Scan(s, next, known))
  {
  }

  function AttachTo(text: string, rest: Result<seq<Token>, TemplateError>): Result<seq<Token>, TemplateError> {
    match rest
    case Failure(e) => Failure(e)
    case Success(ts) => Success(Attach(text, ts))
  }

  /** Scanning doubled-brace literal text yields that text. */
  lemma {:induction false} ScanLiteral(s: string, i: nat, text: string, rest: string, known: set<string>)
    requires i <= |s| && s[i..] == DoubleBraces(text) + rest
    requires '`' !in text && '*' !in text
    ensures |rest| <= |s| - i
    ensures Scan(s, i, known) == AttachTo(text, Scan(s, |s| - |rest|, known))
    decreases |text|
  {
    hide Scan, Lex;
    if text != "" {
      var c, tail := text[0], DoubleBraces(text[1..]) + rest;
      assert [c] + text[1..] == text;
      assert s[i..] == DoubleBraces([c]) + tail by {
        DoubleBracesConcat([c], text[1..]);
      }
      LexChar(s, i, c, tail, known);
      ScanChar(s, i, c, |s| - |tail|, known);
      Suffix(s, i, DoubleBraces([c]), tail);
      ScanLiteral(s, |s| - |tail|, text[1..], rest, known);
      if Scan(s, |s| - |rest|, known).Success? {
        AttachAttach([c], text[1..], Scan(s, |s| - |rest|, known).value);
      }
    }
  }

  lemma ScanWhole(s: string, i: nat, token: Token, next: nat, tail: seq<Token>, known: set<string>)
    requires i < |s| && Lex(s, i, known) == Success(Whole(token, next))
    requires Scan(s, next, known) == Success(tail)
    ensures Scan(s, i, known) == Success([token] + tail)
  {
  }

  lemma ScanPrintStep(s: string, i: nat, token: Token, tail: seq<Token>, rest: string, known: set<string>)
    requires GoodToken(token) && (token.Field? ==> token.name in known)
    requires token.Literal? && tail != [] ==> !tail[0].Literal?
    requires i < |s| && s[i..] == PrintToken(token) + rest
    requires |rest| <= |s| && Scan(s, |s| - |rest|, known) == Success(tail)
    ensures Scan(s, i, known) == Success([token] + tail)
  {
    hide Scan, Lex;
    if token.Literal? {
      ScanLiteral(s, i, token.text, rest, known);
      AttachCons(token.text, tail);
    } else {
      LexWhole(s, i, token, rest, known);
      ScanWhole(s, i, token, |s| - |rest|, tail, known);
    }
  }

  lemma Uncons(tokens: seq<Token>, known: set<string>) returns (token: Token, tail: seq<Token>)
    requires Normalized(tokens, known) && tokens != []
    ensures tokens == [token] + tail && Normalized(tail, known)
    ensures GoodToken(token) && (token.Field? ==> token.name in known)
    ensures token.Literal? && tail != [] ==> !tail[0].Literal?
    ensures PrintToken(token) != "" && Print(tokens) == PrintToken(token) + Print(tail)
  {
    token, tail := tokens[0], tokens[1..];
    PrintNonEmpty(token);
  }

  /** The scanner undoes the printer. */
  lemma {:induction false} ScanPrintFrom(s: string, i: nat, tokens: seq<Token>, known: set<string>)
    requires Normalized(tokens, known) && i <= |s| && s[i..] == Print(tokens)
    ensures Scan(s, i, known) == Success(tokens)
    decreases |tokens|
  {
    if tokens == [] {
      assert i == |s|;
    } else {
      hide *;
      var token, tail := Uncons(tokens, known);
      var rest := Print(tail);
      Suffix(s, i, PrintToken(token), rest);
      ScanPrintFrom(s, |s| - |rest|, tail, known);
      ScanPrintStep(s, i, token, tail, rest, known);
    }
  }

  lemma PrintNonEmpty(token: Token)
    requires GoodToken(token)
    ensures PrintToken(token) != ""
  {
  }

  lemma {:induction false} ScanPrint(tokens: seq<Token>, known: set<string>)
    requires Normalized(tokens, known)
    ensures Scan(Print(tokens), 0, known) == Success(tokens)
  {
    assert Print(tokens)[0..] == Print(tokens);
    ScanPrintFrom(Print(tokens), 0, tokens, known);
  }

  lemma AttachNormalized(text: string, tokens: seq<Token>, known: set<string>)
    requires Normalized(tokens, known) && text != "" && '`' !in text && '*' !in text
    ensures Normalized(Attach(text, tokens), known)
  {
    if tokens != [] && tokens[0].Literal? {
      assert GoodToken(tokens[0]);
      assert tokens[1..] != [] ==> tokens[1..][0] == tokens[1];
      NormalizedCons(Literal(text + tokens[0].text), tokens[1..], known);
    } else {
      NormalizedCons(Literal(text), tokens, known);
    }
  }

  lemma AttachPrints(text: string, tokens: seq<Token>)
    ensures Print(Attach(text, tokens)) == DoubleBraces(text) + Print(tokens)
  {
    if text == "" {
    } else if tokens != [] && tokens[0].Literal? {
      DoubleBracesConcat(text, tokens[0].text);
      PrintCons(Literal(text + tokens[0].text), tokens[1..]);
      assert tokens == [tokens[0]] + tokens[1..];
    } else {
      PrintCons(Literal(text), tokens);
    }
  }

  lemma {:induction false} DoubleBracesConcat(a: string, b: string)
    ensures DoubleBraces(a + b) == DoubleBraces(a) + DoubleBraces(b)
  {
    if a == "" {
      assert a + b == b;
    } else {
      assert (a + b)[1..] == a[1..] + b;
      DoubleBracesConcat(a[1..], b);
    }
  }

  /** What the scanner accepts is the print of the normalized tokens it returns. */
  lemma {:induction false} PrintScanFrom(s: string, i: nat, known: set<string>)
    requires i <= |s| && Scan(s, i, known).Success?
    ensures Normalized(Scan(s, i, known).value, known)
    ensures Print(Scan(s, i, known).value) == s[i..]
    decreases |s| - i
  {
    if i < |s| {
      var lexeme := Lex(s, i, known).value;
      var rest := Scan(s, lexeme.next, known).value;
      LexPrints(s, i, known);
      PrintScanFrom(s, lexeme.next, known);
      assert s[i..] == s[i..lexeme.next] + s[lexeme.next..];
      match lexeme
      case Whole(token, next) =>
        NormalizedCons(token, rest, known);
        PrintCons(token, rest);
      case Char(c, next) =>
        AttachNormalized([c], rest, known);
        AttachPrints([c], rest);
    }
  }

  lemma PrintScan(s: string, known: set<string>)
    requires Scan(s, 0, known).Success?
    ensures Normalized(Scan(s, 0, known).value, known)
    ensures Print(Scan(s, 0, known).value) == s
  {
    PrintScanFrom(s, 0, known);
    assert s[0..] == s;
  }

  /** The scanner rejects exactly the strings outside the grammar. */
  lemma ScannerAcceptsExactlyTheGrammar(s: string, known: set<string>)
    ensures Scan(s, 0, known).Success? <==> exists tokens :: Normalized(tokens, known) && Print(tokens) == s
  {
    if Scan(s, 0, known).Success? {
      PrintScan(s, known);
    }
    if tokens :| Normalized(tokens, known) && Print(tokens) == s {
      ScanPrint(tokens, known);
    }
  }

  /* ----- Which error the scanner reports ----- */

  /** `rest` begins with `inner` between two marks, the closing one being the first of its kind. */
  predicate Encloses(rest: string, open: char, inner: string, close: char) {
    [open] + inner + [close] <= rest && close !in inner
  }

  predicate HasBrace(text: string) {
    '{' in text || '}' in text
  }

  /** What is wrong at the start of `rest`; `inner` is the text of the span or field at fault. */
  predicate Faulty(rest: string, inner: string, known: set<string>, e: TemplateError) {
    match e
    case UnbalancedBacktick => rest != "" && rest[0] == '`' && '`' !in rest[1..]
    case UnbalancedAsterisk => rest != "" && rest[0] == '*' && '*' !in rest[1..]
    case UnbalancedBrace =>
      && rest != "" && (|rest| > 1 ==> rest[1] != rest[0])
      && (rest[0] == '}' || (rest[0] == '{' && '}' !in rest[1..]))
    case EmptySpan => inner == "" && (Encloses(rest, '`', inner, '`') || Encloses(rest, '*', inner, '*'))
    case BraceInSpan => HasBrace(inner) && (Encloses(rest, '`', inner, '`') || Encloses(rest, '*', inner, '*'))
    case NestedSpan => '`' in inner && !HasBrace(inner) && Encloses(rest, '*', inner, '*')
    case BadField => !("{" <= inner) && !IsFieldName(inner) && Encloses(rest, '{', inner, '}')
    case MissingValue(name) => inner == name && IsFieldName(name) && name !in known && Encloses(rest, '{', name, '}')
    case NoneValue => false
  }

  lemma {:induction false} FindNone(s: string, c: char, from: nat)
    requires from <= |s| && c !in s[from..]
    ensures Find(s, c, from) == -1
    decreases |s| - from
  {
    if from < |s| {
      assert s[from] == s[from..][0];
      FindNone(s, c, from + 1);
    }
  }

  lemma EnclosedAt(s: string, i: nat, open: char, inner: string, close: char)
    requires i < |s| && Encloses(s[i..], open, inner, close)
    ensures i + 1 + |inner| < |s| && s[i] == open && Find(s, close, i + 1) == i + 1 + |inner|
    ensures s[i + 1..i + 1 + |inner|] == inner && (inner != "" ==> s[i + 1] == inner[0])
  {
    var text := [open] + inner + [close];
    assert s[i..i + 2 + |inner|] == s[i..][..|text|] == text;
    Parts(s, i, open, inner, close);
    FindClose(s, i, inner, close);
    assert inner != "" ==> s[i + 1..i + 1 + |inner|][0] == inner[0];
  }

  lemma {:induction false} NotFound(s: string, c: char, from: nat)
    requires from <= |s| && Find(s, c, from) == -1
    ensures c !in s[from..]
  {
    forall k | 0 <= k < |s[from..]|
      ensures s[from..][k] != c
    {
      assert s[from..][k] == s[from + k];
    }
  }

  predicate IsUnbalanced(e: TemplateError) {
    e.UnbalancedBacktick? || e.UnbalancedAsterisk? || e.UnbalancedBrace?
  }

  lemma UnbalancedIsReported(s: string, i: nat, known: set<string>, e: TemplateError)
    requires i < |s| && IsUnbalanced(e) && Faulty(s[i..], "", known, e)
    ensures Lex(s, i, known) == Failure(e)
  {
    var rest := s[i..];
    assert rest[0] == s[i] && rest[1..] == s[i + 1..] && (i + 1 < |s| ==> s[i + 1] == rest[1]);
    if rest[0] != '}' {
      FindNone(s, if rest[0] == '{' then '}' else rest[0], i + 1);
    }
  }

  lemma EnclosedIsReported(s: string, i: nat, inner: string, known: set<string>, e: TemplateError)
    requires i < |s| && !IsUnbalanced(e) && Faulty(s[i..], inner, known, e)
    ensures Lex(s, i, known) == Failure(e)
  {
    var open := s[i..][0];
    assert open == s[i];
    var close := if open == '{' then '}' else open;
    assert Encloses(s[i..], open, inner, close) by {
      assert forall a, b :: Encloses(s[i..], a, inner, b) ==> ([a] + inner + [b])[0] == a == open;
    }
    hide Encloses;
    EnclosedAt(s, i, open, inner, close);
  }

  /** A fault is what the next step reports. */
  lemma FaultIsReported(s: string, i: nat, inner: string, known: set<string>, e: TemplateError)
    requires i <= |s| && Faulty(s[i..], inner, known, e)
    ensures i < |s| && Lex(s, i, known) == Failure(e)
  {
    FaultyIsThere(s[i..], inner, known, e);
    hide Encloses, IsFieldName, HasBrace, Lex;
    if IsUnbalanced(e) {
      UnbalancedIsReported(s, i, known, e);
    } else {
      EnclosedIsReported(s, i, inner, known, e);
    }
  }

  lemma FaultyIsThere(rest: string, inner: string, known: set<string>, e: TemplateError)
    ensures Faulty(rest, inner, known, e) ==> rest != ""
  {
  }

  /** What the next step reports is a fault. */
  lemma ReportIsFault(s: string, i: nat, known: set<string>) returns (inner: string)
    requires i < |s| && Lex(s, i, known).Failure?
    ensures Faulty(s[i..], inner, known, Lex(s, i, known).error)
  {
    inner := "";
    var rest := s[i..];
    assert rest[0] == s[i] && rest[1..] == s[i + 1..] && (|rest| > 1 ==> rest[1] == s[i + 1]);
    if s[i] == '`' || s[i] == '*' || (s[i] == '{' && !DoubledAt(s, i)) {
      var close := if s[i] == '{' then '}' else s[i];
      var j := Find(s, close, i + 1);
      if j >= 0 {
        inner := s[i + 1..j];
        assert rest[..j + 1 - i] == [s[i]] + inner + [close];
        assert Encloses(rest, s[i], inner, close);
      } else {
        NotFound(s, close, i + 1);
      }
    }
  }

  lemma ScanOn(s: string, i: nat, known: set<string>)
    requires i < |s| && Lex(s, i, known).Success?
    ensures Scan(s, i, known).Failure? <==> Scan(s, Lex(s, i, known).value.next, known).Failure?
    ensures Scan(s, i, known).Failure? ==> Scan(s, i, known) == Scan(s, Lex(s, i, known).value.next, known)
  {
  }

  lemma {:induction false} ScanFindsFault(
      s: string, i: nat, tokens: seq<Token>, rest: string, inner: string, known: set<string>, e: TemplateError)
    requires Normalized(tokens, known) && i <= |s| && s[i..] == Print(tokens) + rest && Faulty(rest, inner, known, e)
    ensures Scan(s, i, known) == Failure(e)
    decreases |tokens|
  {
    hide *;
    if tokens == [] {
      assert Print(tokens) == "" by { NothingPrinted(); }
      assert s[i..] == rest;
      FaultIsReported(s, i, inner, known, e);
      ScanStops(s, i, known);
    } else {
      var token, tail := Uncons(tokens, known);
      var behind := Print(tail) + rest;
      assert s[i..] == PrintToken(token) + behind;
      Suffix(s, i, PrintToken(token), behind);
      ScanFindsFault(s, |s| - |behind|, tail, rest, inner, known, e);
      FaultBehind(s, i, token, behind, known, e);
    }
  }

  lemma NothingPrinted()
    ensures Print([]) == ""
  {
  }

  lemma ScanStops(s: string, i: nat, known: set<string>)
    requires i < |s| && Lex(s, i, known).Failure?
    ensures Scan(s, i, known) == Failure(Lex(s, i, known).error)
  {
  }

  lemma FaultBehind(s: string, i: nat, token: Token, behind: string, known: set<string>, e: TemplateError)
    requires GoodToken(token) && (token.Field? ==> token.name in known)
    requires i <= |s| && s[i..] == PrintToken(token) + behind && PrintToken(token) != ""
    requires |behind| <= |s| && Scan(s, |s| - |behind|, known) == Failure(e)
    ensures Scan(s, i, known) == Failure(e)
  {
    hide Scan, Lex;
    if token.Literal? {
      ScanLiteral(s, i, token.text, behind, known);
    } else {
      LexWhole(s, i, token, behind, known);
      ScanOn(s, i, known);
    }
  }

  /** One more step in front of well-formed tokens. */
  lemma StepInFront(s: string, i: nat, known: set<string>, tokens: seq<Token>) returns (all: seq<Token>)
    requires i < |s| && Lex(s, i, known).Success? && Normalized(tokens, known)
    ensures Normalized(all, known) && Print(all) == s[i..Lex(s, i, known).value.next] + Print(tokens)
  {
    LexPrints(s, i, known);
    hide Lex, GoodToken, DoubleBraces, PrintToken, Print, Normalized;
    match Lex(s, i, known).value
    case Whole(token, next) =>
      NormalizedCons(token, tokens, known);
      PrintCons(token, tokens);
      all := [token] + tokens;
    case Char(c, next) =>
      AttachNormalized([c], tokens, known);
      AttachPrints([c], tokens);
      all := Attach([c], tokens);
  }

  lemma ScanEnds(s: string, known: set<string>)
    ensures Scan(s, |s|, known) == Success([])
  {
  }

  lemma {:induction false} FaultOfScan(s: string, i: nat, known: set<string>)
      returns (tokens: seq<Token>, rest: string, inner: string)
    requires i <= |s| && Scan(s, i, known).Failure?
    ensures Normalized(tokens, known) && s[i..] == Print(tokens) + rest
    ensures Faulty(rest, inner, known, Scan(s, i, known).error)
    decreases |s| - i
  {
    hide Lex, Scan, Faulty, Print;
    ScanEnds(s, known);
    if Lex(s, i, known).Failure? {
      tokens, rest := [], s[i..];
      NothingPrinted();
      inner := ReportIsFault(s, i, known);
      ScanStops(s, i, known);
    } else {
      var next := Lex(s, i, known).value.next;
      ScanOn(s, i, known);
      tokens, rest, inner := FaultOfScan(s, next, known);
      var behind := tokens;
      tokens := StepInFront(s, i, known, tokens);
      assert s[i..] == s[i..next] + s[next..] == Print(tokens) + rest;
    }
  }

  /** The scanner reports an error if and only if the template is a well-formed one followed by the
      fault that the error names: the first fault from the left, whatever comes after it. */
  lemma ScanFailsExactlyWhen(s: string, known: set<string>, e: TemplateError)
    ensures Scan(s, 0, known) == Failure(e) <==>
              exists tokens, rest, inner ::
                Normalized(tokens, known) && s == Print(tokens) + rest && Faulty(rest, inner, known, e)
  {
    assert s[0..] == s;
    if Scan(s, 0, known) == Failure(e) {
      var tokens, rest, inner := FaultOfScan(s, 0, known);
    }
    if tokens, rest, inner :|
      Normalized(tokens, known) && s == Print(tokens) + rest && Faulty(rest, inner, known, e) {
      ScanFindsFault(s, 0, tokens, rest, inner, known, e);
    }
  }

  const UPPER := "ABCDEFGHIJKLMNOPQRSTUVWXYZ"
  const LOWER := "abcdefghijklmnopqrstuvwxyz"
  const DIGITS := "0123456789"

  lemma InUpper(c: char)
    ensures c in UPPER <==> 'A' <= c <= 'Z'
  {
    assert 'A' <= c <= 'Z' ==> UPPER[c as int - 'A' as int] == c;
  }

  lemma InLower(c: char)
    ensures c in LOWER <==> 'a' <= c <= 'z'
  {
    assert 'a' <= c <= 'z' ==> LOWER[c as int - 'a' as int] == c;
  }

  lemma InDigits(c: char)
    ensures c in DIGITS <==> '0' <= c <= '9'
  {
    assert '0' <= c <= '9' ==> DIGITS[c as int - '0' as int] == c;
  }

  /** The names of fields, with the characters written out. */
  lemma FieldNames(name: string)
    ensures IsFieldName(name) <==>
              && name != "" && name[0] !in DIGITS
              && forall k :: 0 <= k < |name| ==>
                   name[k] in UPPER || name[k] in LOWER || name[k] in DIGITS || name[k] == '_'
  {
    forall c: char
      ensures c in UPPER <==> 'A' <= c <= 'Z'
      ensures c in LOWER <==> 'a' <= c <= 'z'
      ensures c in DIGITS <==> '0' <= c <= '9'
    {
      InUpper(c);
      InLower(c);
      InDigits(c);
    }
    hide UPPER, LOWER, DIGITS;
  }
}
