// tcbot/utils/i18n.py: `_prepare_value`, `_render_template` and `t`, and the proof that
// the MarkdownV2 target shows what the plain target says.
module Rendering {
  import opened Wrappers
  import opened Formatter
  import opened TemplateEngine

  /* ----- Placeholder values ----- */

  /** Markup built by the formatter, which callers wrap as Safe. */
  datatype Fragment = BoldText(text: string) | CodeText(text: string) {
    function Markup(): string {
      match this
      case BoldText(text) => Bold(text)
      case CodeText(text) => Code(text)
    }
  }

  /** A placeholder value. `Text` also stands for any other object, by its `str`. */
  datatype Value =
    | Text(text: string)
    | Number(n: int)
    | Flag(b: bool)
    | Safe(fragment: Fragment)
    | NoValue

  const DIGITS := "0123456789"

  function NatText(n: nat): string {
    if n < 10 then [DIGITS[n]] else NatText(n / 10) + [DIGITS[n % 10]]
  }

  function IntText(n: int): string {
    if n < 0 then "-" + NatText(-n) else NatText(n)
  }

  function FlagText(b: bool): string {
    if b then "True" else "False"
  }

  /** `_prepare_value`; None raises. */
  function PrepareValue(value: Value, escape: bool): Option<string> {
    match value
    case Safe(fragment) => Some(fragment.Markup())
    case Text(text) => Some(if escape then Esc(text) else text)
    case NoValue => None
    case Number(n) => Some(IntText(n))
    case Flag(b) => Some(FlagText(b))
  }

  /** Every keyword value is prepared, used or not, so one None fails the call. */
  function Prepare(values: map<string, Value>, escape: bool): Result<map<string, string>, TemplateError> {
    if exists name :: name in values && values[name].NoValue? then Failure(NoneValue)
    else Success(map name | name in values :: PrepareValue(values[name], escape).value)
  }

  /* ----- Rendering ----- */

  /** `inner.replace("\\", "\\\\")`. */
  function DoubleBackslashes(inner: string): string {
    if inner == "" then ""
    else (if inner[0] == '\\' then "\\\\" else [inner[0]]) + DoubleBackslashes(inner[1..])
  }

  function RenderToken(token: Token, prepared: map<string, string>, escape: bool): string {
    match token
    case Literal(text) => if escape then Esc(text) else text
    case Field(name) => if name in prepared then prepared[name] else ""
    case CodeSpan(inner) => if escape then "`" + DoubleBackslashes(inner) + "`" else inner
    case BoldSpan(inner) => if escape then "*" + Esc(inner) + "*" else inner
  }

  function RenderTokens(tokens: seq<Token>, prepared: map<string, string>, escape: bool): string {
    if tokens == [] then ""
    else RenderToken(tokens[0], prepared, escape) + RenderTokens(tokens[1..], prepared, escape)
  }

  /** What `_render_template` computes: scan, then print for the target. */
  function Rendered(template: string, prepared: map<string, string>, escape: bool): Result<string, TemplateError> {
    var tokens :- Scan(template, 0, prepared.Keys);
    Success(RenderTokens(tokens, prepared, escape))
  }

  function Join(parts: seq<string>): string {
    if parts == [] then "" else Join(parts[..|parts| - 1]) + parts[|parts| - 1]
  }

  lemma {:induction false} RenderAppend(done: seq<Token>, more: seq<Token>, prepared: map<string, string>, escape: bool)
    ensures RenderTokens(done + more, prepared, escape)
         == RenderTokens(done, prepared, escape) + RenderTokens(more, prepared, escape)
  {
    if done == [] {
      assert done + more == more;
    } else {
      assert (done + more)[1..] == done[1..] + more;
      RenderAppend(done[1..], more, prepared, escape);
    }
  }

  lemma RenderSnoc(done: seq<Token>, token: Token, prepared: map<string, string>, escape: bool)
    ensures RenderTokens(done + [token], prepared, escape)
         == RenderTokens(done, prepared, escape) + RenderToken(token, prepared, escape)
  {
    RenderAppend(done, [token], prepared, escape);
    assert RenderTokens([token], prepared, escape) == RenderToken(token, prepared, escape) + "";
  }

  lemma JoinSnoc(parts: seq<string>, part: string)
    ensures Join(parts + [part]) == Join(parts) + part
  {
    assert (parts + [part])[..|parts|] == parts;
  }

  /** The result of the whole scan, given the tokens done, the pending literal text and
      the result of scanning what is left. */
  function Resume(done: seq<Token>, literal: string, rest: Result<seq<Token>, TemplateError>):
    Result<seq<Token>, TemplateError>
  {
    match rest
    case Failure(e) => Failure(e)
    case Success(ts) => Success(done + Attach(literal, ts))
  }

  /** Tokens done once the pending literal is flushed. */
  function Flushed(done: seq<Token>, literal: string): seq<Token> {
    if literal == "" then done else done + [Literal(literal)]
  }

  /** The loop invariant survives one more field or span ... */
  lemma WholeStep(done: seq<Token>, literal: string, token: Token, rest: seq<Token>)
    requires !token.Literal?
    ensures done + Attach(literal, [token] + rest) == (Flushed(done, literal) + [token]) + Attach("", rest)
  {
    if literal == "" {
      assert done + ([token] + rest) == (done + [token]) + rest;
    } else {
      var front := [Literal(literal)];
      assert Attach(literal, [token] + rest) == front + ([token] + rest);
      assert done + (front + ([token] + rest)) == ((done + front) + [token]) + rest;
    }
  }

  /** ... and one more literal character. */
  lemma CharStep(done: seq<Token>, literal: string, c: char, rest: seq<Token>)
    ensures done + Attach(literal, Attach([c], rest)) == done + Attach(literal + [c], rest)
  {
    AttachAttach(literal, [c], rest);
  }

  /** Both at once, on the result of the whole scan. */
  lemma ResumeStep(s: string, i: nat, known: set<string>, done: seq<Token>, literal: string)
    requires i < |s|
    ensures Resume(done, literal, Scan(s, i, known)) ==
            match Lex(s, i, known)
            case Failure(e) => Failure(e)
            case Success(Whole(token, next)) => Resume(Flushed(done, literal) + [token], "", Scan(s, next, known))
            case Success(Char(c, next)) => Resume(done, literal + [c], Scan(s, next, known))
  {
    match Lex(s, i, known)
    case Failure(e) =>
    case Success(lexeme) =>
      var rest := Scan(s, lexeme.next, known);
      match lexeme
      case Whole(token, next) =>
        LexPrints(s, i, known);
        if rest.Success? {
          WholeStep(done, literal, token, rest.value);
        }
      case Char(c, next) =>
        if rest.Success? {
          CharStep(done, literal, c, rest.value);
        }
  }

  lemma ResumeStart(rest: Result<seq<Token>, TemplateError>)
    ensures Resume([], "", rest) == rest
  {
    if rest.Success? {
      assert [] + rest.value == rest.value;
    }
  }

  lemma ResumeEnd(s: string, known: set<string>, done: seq<Token>, literal: string)
    ensures Resume(done, literal, Scan(s, |s|, known)) == Success(Flushed(done, literal))
  {
    assert done + Attach(literal, []) == Flushed(done, literal);
  }

  /** `flush_literal`. */
  method FlushLiteral(parts: seq<string>, literal: string, escape: bool, ghost done: seq<Token>,
                      ghost prepared: map<string, string>)
    returns (parts': seq<string>)
    requires Join(parts) == RenderTokens(done, prepared, escape)
    ensures Join(parts') == RenderTokens(Flushed(done, literal), prepared, escape)
  {
    parts' := parts;
    if literal != "" {
      parts' := parts + [if escape then Esc(literal) else literal];
      JoinSnoc(parts, if escape then Esc(literal) else literal);
      RenderSnoc(done, Literal(literal), prepared, escape);
    }
  }

  /** Flush the pending literal, then append one rendered token. */
  method PushToken(parts: seq<string>, literal: string, token: Token, escape: bool, ghost done: seq<Token>,
                   prepared: map<string, string>)
    returns (parts': seq<string>)
    requires Join(parts) == RenderTokens(done, prepared, escape)
    ensures Join(parts') == RenderTokens(Flushed(done, literal) + [token], prepared, escape)
  {
    parts' := FlushLiteral(parts, literal, escape, done, prepared);
    JoinSnoc(parts', RenderToken(token, prepared, escape));
    RenderSnoc(Flushed(done, literal), token, prepared, escape);
    parts' := parts' + [RenderToken(token, prepared, escape)];
  }

  /** `_render_template`: one left-to-right pass over the template. */
  method RenderTemplate(template: string, prepared: map<string, string>, escape: bool)
    returns (r: Result<string, TemplateError>)
    ensures r == Rendered(template, prepared, escape)
  {
    hide Resume, Flushed, Scan, Attach, RenderToken;
    var parts: seq<string> := [];
    var literal := "";
    ghost var done: seq<Token> := [];
    ghost var result := Scan(template, 0, prepared.Keys);
    var i := 0;
    ResumeStart(result);
    while i < |template|
      invariant 0 <= i <= |template|
      invariant Join(parts) == RenderTokens(done, prepared, escape)
      invariant result == Resume(done, literal, Scan(template, i, prepared.Keys))
    {
      var ch := template[i];
      ResumeStep(template, i, prepared.Keys, done, literal);
      if ch == '`' || ch == '*' {
        var j := Find(template, ch, i + 1);
        if j < 0 {
          return Failure(Unbalanced(ch));
        }
        var token :- SpanToken(ch, template[i + 1..j]);
        parts := PushToken(parts, literal, token, escape, done, prepared);
        done, literal, i := Flushed(done, literal) + [token], "", j + 1;
      } else if ch == '{' && !DoubledAt(template, i) {
        var j := Find(template, '}', i + 1);
        if j < 0 {
          return Failure(UnbalancedBrace);
        }
        var token :- FieldToken(template[i + 1..j], prepared.Keys);
        parts := PushToken(parts, literal, token, escape, done, prepared);
        done, literal, i := Flushed(done, literal) + [token], "", j + 1;
      } else if ch == '}' && !DoubledAt(template, i) {
        return Failure(UnbalancedBrace);
      } else {
        literal, i := literal + [ch], if ch == '{' || ch == '}' then i + 2 else i + 1;
      }
    }
    parts := FlushLiteral(parts, literal, escape, done, prepared);
    ResumeEnd(template, prepared.Keys, done, literal);
    r := Success(Join(parts));
  }

  /** One rendering call: prepare every value, then render. */
  function Translate(template: string, values: map<string, Value>, escape: bool): Result<string, TemplateError> {
    var prepared :- Prepare(values, escape);
    Rendered(template, prepared, escape)
  }

  /* ----- Meaning ----- */

  /** The text a reader is meant to see for one value. */
  function Meaning(value: Value): string {
    match value
    case Text(text) => text
    case Number(n) => IntText(n)
    case Flag(b) => FlagText(b)
    case Safe(fragment) => fragment.text
    case NoValue => ""
  }

  /** The text a reader is meant to see for one token. */
  function ShownToken(token: Token, values: map<string, Value>): string {
    match token
    case Literal(text) => text
    case CodeSpan(inner) => inner
    case BoldSpan(inner) => inner
    case Field(name) =>
      if name in values then Meaning(values[name]) else ""
  }

  function Shown(tokens: seq<Token>, values: map<string, Value>): string {
    if tokens == [] then "" else ShownToken(tokens[0], values) + Shown(tokens[1..], values)
  }

  /** Flags read as Python prints them. */
  lemma FlagsAreWords(b: bool)
    ensures Meaning(Flag(b)) == (if b then "True" else "False")
  {
  }

  predicate IsNegative(token: Token, values: map<string, Value>) {
    token.Field? && token.name in values && values[token.name].Number? && values[token.name].n < 0
  }

  /** Safe markup that is not empty. */
  predicate IsMarkup(token: Token, values: map<string, Value>) {
    token.Field? && token.name in values && values[token.name].Safe? && values[token.name].fragment.text != ""
  }

  lemma {:induction false} UnreservedIsUnescaped(text: string)
    requires forall k :: 0 <= k < |text| ==> text[k] !in TEXT_SPECIAL
    ensures Esc(text) == text
  {
    if text != "" {
      UnreservedIsUnescaped(text[1..]);
      assert text == [text[0]] + text[1..];
    }
  }

  lemma {:induction false} NatTextIsDigits(n: nat)
    ensures NatText(n) != ""
    ensures forall k :: 0 <= k < |NatText(n)| ==> '0' <= NatText(n)[k] <= '9'
  {
    if n >= 10 {
      NatTextIsDigits(n / 10);
    }
  }

  function ParseNat(text: string): nat
    requires forall k :: 0 <= k < |text| ==> '0' <= text[k] <= '9'
  {
    if text == "" then 0 else 10 * ParseNat(text[..|text| - 1]) + (text[|text| - 1] as int - '0' as int)
  }

  /** A number prints as the decimal numeral that reads back as it. */
  lemma {:induction false} NatTextRoundTrip(n: nat)
    ensures forall k :: 0 <= k < |NatText(n)| ==> '0' <= NatText(n)[k] <= '9'
    ensures ParseNat(NatText(n)) == n
  {
    NatTextIsDigits(n);
    if n < 10 {
      assert NatText(n)[..0] == "";
    } else {
      NatTextRoundTrip(n / 10);
      assert NatText(n)[..|NatText(n)| - 1] == NatText(n / 10);
    }
  }

  lemma {:induction false} TemplateCodeIsCode(inner: string)
    requires '`' !in inner
    ensures DoubleBackslashes(inner) == Escape(inner, CODE_SPECIAL)
  {
    if inner != "" {
      TemplateCodeIsCode(inner[1..]);
    }
  }

  lemma NumberShows(n: int, rest: string)
    ensures Display(IntText(n) + rest, Outside) == if n < 0 then None else Prepend(IntText(n), Display(rest, Outside))
  {
    if n >= 0 {
      NatTextIsDigits(n);
      UnreservedIsUnescaped(NatText(n));
      EscapedTextShows(NatText(n), rest, Outside);
    } else {
      assert (IntText(n) + rest)[0] == '-';
    }
  }

  lemma FieldShows(value: Value, rest: string)
    requires !value.NoValue?
    ensures Display(PrepareValue(value, true).value + rest, Outside)
         == if value.Number? && value.n < 0 then None else Prepend(Meaning(value), Display(rest, Outside))
  {
    match value
    case Text(text) => EscapedTextShows(text, rest, Outside);
    case Number(n) => NumberShows(n, rest);
    case Flag(b) =>
      UnreservedIsUnescaped(FlagText(b));
      EscapedTextShows(FlagText(b), rest, Outside);
    case Safe(BoldText(text)) => BoldShows(text, rest);
    case Safe(CodeText(text)) => CodeShows(text, rest);
  }

  /** One rendered token shows its meaning, whatever follows, unless it is a negative
      number: its minus sign is reserved and goes out unescaped. */
  lemma TokenShows(token: Token, values: map<string, Value>, prepared: map<string, string>, rest: string)
    requires Prepare(values, true) == Success(prepared) && GoodToken(token)
    requires token.Field? ==> token.name in values
    ensures Display(RenderToken(token, prepared, true) + rest, Outside)
         == if IsNegative(token, values) then None else Prepend(ShownToken(token, values), Display(rest, Outside))
  {
    match token
    case Literal(text) => EscapedTextShows(text, rest, Outside);
    case CodeSpan(inner) =>
      TemplateCodeIsCode(inner);
      CodeShows(inner, rest);
      EscapeGrows(inner, CODE_SPECIAL);
    case BoldSpan(inner) =>
      BoldShows(inner, rest);
      EscapeGrows(inner, TEXT_SPECIAL);
    case Field(name) => FieldShows(values[name], rest);
  }

  lemma {:induction false} TokensShow(tokens: seq<Token>, values: map<string, Value>, prepared: map<string, string>)
    requires Prepare(values, true) == Success(prepared) && Normalized(tokens, values.Keys)
    ensures Display(RenderTokens(tokens, prepared, true), Outside)
         == if exists token :: token in tokens && IsNegative(token, values) then None else Some(Shown(tokens, values))
  {
    if tokens != [] {
      TokensShow(tokens[1..], values, prepared);
      assert GoodToken(tokens[0]);
      TokenShows(tokens[0], values, prepared, RenderTokens(tokens[1..], prepared, true));
      assert tokens == [tokens[0]] + tokens[1..];
    }
  }

  lemma PlainToken(token: Token, values: map<string, Value>, prepared: map<string, string>)
    requires Prepare(values, false) == Success(prepared)
    ensures var plain := RenderToken(token, prepared, false);
            if IsMarkup(token, values) then |plain| > |ShownToken(token, values)|
            else plain == ShownToken(token, values)
  {
    if token.Field? && token.name in values && values[token.name].Safe? {
      EscapeGrows(values[token.name].fragment.text, TEXT_SPECIAL);
      EscapeGrows(values[token.name].fragment.text, CODE_SPECIAL);
    }
  }

  /** The plain target differs from the meaning only by the markers of Safe markup. */
  lemma {:induction false} PlainLength(tokens: seq<Token>, values: map<string, Value>, prepared: map<string, string>)
    requires Prepare(values, false) == Success(prepared)
    ensures var plain := RenderTokens(tokens, prepared, false);
            if exists token :: token in tokens && IsMarkup(token, values) then |plain| > |Shown(tokens, values)|
            else plain == Shown(tokens, values)
  {
    if tokens != [] {
      PlainLength(tokens[1..], values, prepared);
      PlainToken(tokens[0], values, prepared);
      assert tokens == [tokens[0]] + tokens[1..];
    }
  }

  lemma {:induction false} EscapeGrows(text: string, special: set<char>)
    ensures |Escape(text, special)| >= |text|
  {
    if text != "" {
      EscapeGrows(text[1..], special);
    }
  }

  lemma PreparedKeys(values: map<string, Value>)
    ensures Prepare(values, true).Success? <==> Prepare(values, false).Success?
    ensures Prepare(values, true).Success? ==>
              Prepare(values, true).value.Keys == Prepare(values, false).value.Keys == values.Keys
  {
  }

  /** Both targets accept exactly the templates of the grammar whose fields all have a
      value, when no value is None; and they fail with the same error. */
  lemma TargetsAcceptTheSameTemplates(template: string, values: map<string, Value>)
    ensures Translate(template, values, true).Success? <==>
              && (forall name :: name in values ==> !values[name].NoValue?)
              && exists tokens :: Normalized(tokens, values.Keys) && Print(tokens) == template
    ensures Translate(template, values, true).Failure? ==>
              Translate(template, values, false) == Translate(template, values, true)
    ensures Translate(template, values, false).Failure? ==>
              Translate(template, values, true) == Translate(template, values, false)
  {
    PreparedKeys(values);
    ScannerAcceptsExactlyTheGrammar(template, values.Keys);
  }

  /** The tokens of an accepted template. */
  function Tokens(template: string, values: map<string, Value>): seq<Token> {
    match Scan(template, 0, values.Keys)
    case Success(tokens) => tokens
    case Failure(_) => []
  }

  /** The MarkdownV2 target is displayed exactly when the template uses no negative number,
      and then it shows the meaning of the template. */
  lemma MarkdownShowsTheMeaning(template: string, values: map<string, Value>)
    requires Translate(template, values, true).Success?
    ensures Display(Translate(template, values, true).value, Outside)
         == if exists token :: token in Tokens(template, values) && IsNegative(token, values) then None
            else Some(Shown(Tokens(template, values), values))
  {
    PreparedKeys(values);
    PrintScan(template, values.Keys);
    TokensShow(Tokens(template, values), values, Prepare(values, true).value);
  }

  /** The two targets agree exactly when the template uses no negative number and no
      non-empty Safe markup: plain mode passes Safe markup through with its markers. */
  lemma TargetsAgreeExactlyWhen(template: string, values: map<string, Value>)
    requires Translate(template, values, true).Success? && Translate(template, values, false).Success?
    ensures Display(Translate(template, values, true).value, Outside) == Some(Translate(template, values, false).value)
       <==> forall token :: token in Tokens(template, values) ==> !IsNegative(token, values) && !IsMarkup(token, values)
  {
    PreparedKeys(values);
    MarkdownShowsTheMeaning(template, values);
    PlainLength(Tokens(template, values), values, Prepare(values, false).value);
  }

  /** Rendering preserves meaning: with text, flags and non-negative numbers as values,
      showing the MarkdownV2 output gives exactly the plain output. */
  lemma RenderingPreservesMeaning(template: string, values: map<string, Value>)
    requires forall name :: name in values ==>
               values[name].Text? || values[name].Flag? || (values[name].Number? && values[name].n >= 0)
    ensures Translate(template, values, true).Success? <==> Translate(template, values, false).Success?
    ensures Translate(template, values, true).Success? ==>
              Display(Translate(template, values, true).value, Outside)
              == Some(Translate(template, values, false).value)
  {
    TargetsAcceptTheSameTemplates(template, values);
    if Translate(template, values, true).Success? {
      TargetsAgreeExactlyWhen(template, values);
    }
  }

  /** A negative number is accepted in plain mode and rejected as MarkdownV2. */
  lemma NegativeNumberExample()
    ensures Translate("{n}", map["n" := Number(-1)], false) == Success("-1")
    ensures Translate("{n}", map["n" := Number(-1)], true) == Success("-1") && Display("-1", Outside) == None
  {
    assert IntText(-1) == "-1";
    OneField(Number(-1), true);
    OneField(Number(-1), false);
    hide Translate;
  }

  /** Safe markup keeps its markers in plain mode. */
  lemma SafeMarkupExample()
    ensures Translate("{n}", map["n" := Safe(BoldText("a"))], true) == Success("*a*")
    ensures Display("*a*", Outside) == Some("a")
    ensures Translate("{n}", map["n" := Safe(BoldText("a"))], false) == Success("*a*")
  {
    OneField(Safe(BoldText("a")), true);
    OneField(Safe(BoldText("a")), false);
    hide Translate;
    BoldA();
  }

  lemma BoldA()
    ensures Bold("a") == "*a*" && Display("*a*", Outside) == Some("a")
  {
    assert Esc("a") == "a" by {
      assert "a"[1..] == "";
    }
    BoldShows("a", "");
    assert Bold("a") + "" == "*a*" && "a" + "" == "a";
  }

  lemma OneField(value: Value, escape: bool)
    requires !value.NoValue?
    ensures Translate("{n}", map["n" := value], escape) == Success(PrepareValue(value, escape).value)
  {
    var tokens := [Field("n")];
    assert Print(tokens) == "{n}" by {
      assert tokens[1..] == [];
    }
    ScanPrint(tokens, {"n"});
    var values := map["n" := value];
    assert values.Keys == {"n"} && Prepare(values, escape).value.Keys == {"n"};
    var prepared := Prepare(values, escape).value;
    RenderSnoc([], Field("n"), prepared, escape);
    assert [] + [Field("n")] == tokens;
    assert RenderTokens([], prepared, escape) + prepared["n"] == prepared["n"];
  }

  /* ----- `t` ----- */

  const DEFAULT_LOCALE := "en-US"

  type Catalog = map<string, map<string, string>>

  /** The template for `key`: from the locale's catalog, else from the default one. */
  function Lookup(catalog: Catalog, locale: Option<string>, key: string): Option<string>
    requires DEFAULT_LOCALE in catalog
  {
    var canonical := if locale.Some? && locale.value in catalog then locale.value else DEFAULT_LOCALE;
    if key in catalog[canonical] then Some(catalog[canonical][key])
    else if key in catalog[DEFAULT_LOCALE] then Some(catalog[DEFAULT_LOCALE][key])
    else None
  }

  /** `t`; a loaded catalog always holds the default locale. */
  function T(catalog: Catalog, locale: Option<string>, key: string, values: map<string, Value>, plain: bool):
    Result<string, TemplateError>
    requires DEFAULT_LOCALE in catalog
  {
    match Lookup(catalog, locale, key)
    case None => Success("[" + key + "]")
    case Some(template) => Translate(template, values, !plain)
  }

  /** Which catalog answers: the locale's own as long as it holds the key, else the default one,
      and in MarkdownV2 unless plain text is asked for. */
  lemma LocaleComesFirst(catalog: Catalog, locale: Option<string>, key: string, values: map<string, Value>, plain: bool)
    requires DEFAULT_LOCALE in catalog
    ensures locale.Some? && locale.value in catalog && key in catalog[locale.value] ==>
              T(catalog, locale, key, values, plain) == Translate(catalog[locale.value][key], values, !plain)
    ensures (locale.Some? && locale.value in catalog ==> key !in catalog[locale.value])
            && key in catalog[DEFAULT_LOCALE] ==>
              T(catalog, locale, key, values, plain) == Translate(catalog[DEFAULT_LOCALE][key], values, !plain)
  {
  }

  lemma BracketsAreNeverShown(key: string)
    ensures Display("[" + key + "]", Outside) == None
  {
    assert ("[" + key + "]")[0] == '[';
  }

  /** A key missing everywhere is returned in brackets in both modes. The brackets are
      reserved, so as MarkdownV2 that reply is always rejected. */
  lemma MissingKeyIsNeverShown(catalog: Catalog, locale: Option<string>, key: string, values: map<string, Value>)
    requires DEFAULT_LOCALE in catalog
    requires key !in catalog[DEFAULT_LOCALE]
    requires locale.Some? && locale.value in catalog ==> key !in catalog[locale.value]
    ensures T(catalog, locale, key, values, false) == T(catalog, locale, key, values, true) == Success("[" + key + "]")
    ensures Display("[" + key + "]", Outside) == None
  {
    BracketsAreNeverShown(key);
  }

  /** Meaning is preserved through `t`, exactly when it finds a template, in the locale's
      catalog or in the default one: then, and only then, a reply that is given at all is shown
      as MarkdownV2 just as it reads in plain mode. */
  lemma TranslationPreservesMeaning(catalog: Catalog, locale: Option<string>, key: string, values: map<string, Value>)
    requires DEFAULT_LOCALE in catalog
    requires forall name :: name in values ==>
               values[name].Text? || values[name].Flag? || (values[name].Number? && values[name].n >= 0)
    ensures var md, plain := T(catalog, locale, key, values, false), T(catalog, locale, key, values, true);
            && (md.Success? <==> plain.Success?)
            && (md.Success? ==>
                  (Display(md.value, Outside) == Some(plain.value) <==> Lookup(catalog, locale, key).Some?))
  {
    match Lookup(catalog, locale, key)
    case Some(template) => RenderingPreservesMeaning(template, values);
    case None => BracketsAreNeverShown(key);
  }
}
