// tcbot/utils/formatter.py, and a display semantics for the part of MarkdownV2
// that the formatter and the template engine emit (Telegram Bot API,
// "Formatting options", "MarkdownV2 style"): text, bold spans and code spans.
module Formatter {
  import opened Wrappers

  /** The characters that the escape table for regular text covers. */
  const TEXT_SPECIAL: set<char> :=
    {'_', '*', '[', ']', '(', ')', '~', '`', '>', '#', '+', '-', '=', '|', '{', '}', '.', '!', '\\'}

  /** Inside a code span only these can break parsing. */
  const CODE_SPECIAL: set<char> := {'`', '\\'}

  function Escape(text: string, special: set<char>): string {
    if text == "" then ""
    else (if text[0] in special then ['\\', text[0]] else [text[0]]) + Escape(text[1..], special)
  }

  function Esc(text: string): string {
    Escape(text, TEXT_SPECIAL)
  }

  function Bold(text: string): string {
    if Esc(text) != "" then "*" + Esc(text) + "*" else ""
  }

  function Code(text: string): string {
    var content := Escape(text, CODE_SPECIAL);
    if content != "" then "`" + content + "`" else ""
  }

  /** The characters that the Bot API reserves outside code. */
  const RESERVED: set<char> :=
    {'_', '*', '[', ']', '(', ')', '~', '`', '>', '#', '+', '-', '=', '|', '{', '}', '.', '!'}

  /** Where the reader of a message is: in regular text or inside one of the two spans. */
  datatype Mode = Outside | InBold | InCode

  function Prepend(shown: string, rest: Option<string>): Option<string> {
    match rest
    case None => None
    case Some(s) => Some(shown + s)
  }

  /** What a client shows for `s`, or None when the server rejects the message. A
      backslash makes the next ASCII character literal; a span must be closed and must not
      be empty; outside code, a reserved character that neither opens nor closes a span
      must be escaped. */
  function Display(s: string, mode: Mode): Option<string>
    decreases |s|
  {
    if s == "" then
      if mode == Outside then Some("") else None
    else if s[0] == '\\' then
      if |s| >= 2 && 1 <= s[1] as int <= 126 then Prepend([s[1]], Display(s[2..], mode)) else None
    else match mode
      case InCode =>
        if s[0] == '`' then Display(s[1..], Outside) else Prepend([s[0]], Display(s[1..], InCode))
      case InBold =>
        if s[0] == '*' then Display(s[1..], Outside)
        else if s[0] in RESERVED then None
        else Prepend([s[0]], Display(s[1..], InBold))
      case Outside =>
        if s[0] == '*' then if |s| >= 2 && s[1] != '*' then Display(s[1..], InBold) else None
        else if s[0] == '`' then if |s| >= 2 && s[1] != '`' then Display(s[1..], InCode) else None
        else if s[0] in RESERVED then None
        else Prepend([s[0]], Display(s[1..], Outside))
  }

  function SpecialIn(mode: Mode): set<char> {
    if mode == InCode then CODE_SPECIAL else TEXT_SPECIAL
  }

  lemma PrependAgain(a: string, b: string, shown: Option<string>)
    ensures Prepend(a, Prepend(b, shown)) == Prepend(a + b, shown)
    ensures Prepend("", shown) == shown
  {
    assert forall s: string :: a + (b + s) == (a + b) + s;
    assert forall s: string :: "" + s == s;
  }

  lemma EscapedCharShows(c: char, rest: string, mode: Mode)
    ensures Display((if c in SpecialIn(mode) then ['\\', c] else [c]) + rest, mode) == Prepend([c], Display(rest, mode))
  {
    var head := if c in SpecialIn(mode) then ['\\', c] else [c];
    assert (head + rest)[|head|..] == rest;
    assert (head + rest)[0] == head[0];
  }

  /** Escaped text shows as the text itself, whatever follows it: in regular text and in
      bold with the text table, in code with the code table. */
  lemma {:induction false} EscapedTextShows(text: string, rest: string, mode: Mode)
    ensures Display(Escape(text, SpecialIn(mode)) + rest, mode) == Prepend(text, Display(rest, mode))
  {
    if text == "" {
      assert Escape(text, SpecialIn(mode)) + rest == rest;
      PrependAgain("", "", Display(rest, mode));
    } else {
      var head := if text[0] in SpecialIn(mode) then ['\\', text[0]] else [text[0]];
      var tail := Escape(text[1..], SpecialIn(mode)) + rest;
      assert Escape(text, SpecialIn(mode)) + rest == head + tail;
      hide Display, Escape, Prepend;
      EscapedTextShows(text[1..], rest, mode);
      EscapedCharShows(text[0], tail, mode);
      PrependAgain([text[0]], text[1..], Display(rest, mode));
      assert [text[0]] + text[1..] == text;
    }
  }

  /** A bold span shows its text, whatever follows. */
  lemma BoldShows(text: string, rest: string)
    ensures Display(Bold(text) + rest, Outside) == Prepend(text, Display(rest, Outside))
  {
    if text == "" {
      EscapedTextShows("", rest, Outside);
      assert Bold("") + rest == rest;
    } else {
      var inner := Esc(text) + ("*" + rest);
      assert Bold(text) + rest == "*" + inner;
      assert inner[0] != '*';
      assert ("*" + inner)[1..] == inner;
      EscapedTextShows(text, "*" + rest, InBold);
      assert ("*" + rest)[1..] == rest;
    }
  }

  /** A code span shows its text, whatever follows. */
  lemma CodeShows(text: string, rest: string)
    ensures Display(Code(text) + rest, Outside) == Prepend(text, Display(rest, Outside))
  {
    if text == "" {
      EscapedTextShows("", rest, Outside);
      assert Code("") + rest == rest;
    } else {
      var inner := Escape(text, CODE_SPECIAL) + ("`" + rest);
      assert Code(text) + rest == "`" + inner;
      assert inner[0] != '`';
      assert ("`" + inner)[1..] == inner;
      EscapedTextShows(text, "`" + rest, InCode);
      assert ("`" + rest)[1..] == rest;
    }
  }
}
