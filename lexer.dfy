/**
 * The character scanner of src/lexer.rs: it turns source text into typed
 * tokens (identifiers, integers, floats, quoted strings and the punctuation
 * `.`, `:` and `,`), skips whitespace and fails on anything else.
 *
 * The character classes are the ASCII restrictions of Rust's `is_alphabetic`,
 * `is_alphanumeric` and `is_whitespace`; `Lex` therefore takes ASCII input,
 * where the two agree. A float token carries its lexeme instead of an `f32`.
 */
module Lexer {
  import opened Wrappers
  import opened Int32

  datatype TokenValue =
    | Identifier(name: string)
    | Integer(n: Int32)
    | Float(lexeme: string)
    | String(text: string)
    | Punctuation(mark: char)

  datatype Token = Token(kind: string, value: TokenValue)

  /** The four ways `lex` fails; `Message` gives the text the source returns. */
  datatype LexError =
    | UnexpectedCharacter(c: char)
    | UnclosedString
    | InvalidInteger(lexeme: string)
    | InvalidFloat(lexeme: string)
  {
    function Message(): string {
      match this
      case UnexpectedCharacter(c) => "Unexpected character: '" + [c] + "'"
      case UnclosedString => "Unclosed string literal"
      case InvalidInteger(s) => "Invalid integer: '" + s + "'"
      case InvalidFloat(s) => "Invalid float: '" + s + "'"
    }
  }

  // ---------------------------------------------------------------------------
  // Character classes

  predicate IsAscii(s: string) {
    forall i :: 0 <= i < |s| ==> s[i] as int < 128
  }

  predicate IsAlphabetic(c: char) { 'a' <= c <= 'z' || 'A' <= c <= 'Z' }

  /** `is_digit(10)`, which is ASCII-only in Rust as well. */
  predicate IsDigit(c: char) { '0' <= c <= '9' }

  predicate IsAlphanumeric(c: char) { IsAlphabetic(c) || IsDigit(c) }

  /** Rust's white space restricted to ASCII: tab, line feed, vertical tab, form feed, carriage return, space. */
  predicate IsWhitespace(c: char) { 9 <= c as int <= 13 || c == ' ' }

  /** The characters a number lexeme is scanned over. */
  predicate IsNumeric(c: char) { IsDigit(c) || c == '.' }

  predicate NotQuote(c: char) { c != '"' }

  /** `could_be`: whether `c` is one of the characters of `s`. */
  function CouldBe(c: char, s: string): (r: bool)
    ensures r <==> c in s
  {
    if s == [] then false else s[0] == c || CouldBe(c, s[1..])
  }

  // ---------------------------------------------------------------------------
  // `until`: the maximal run of characters satisfying a test

  /** Where the run of characters satisfying `check` that starts at `start` ends. */
  function Span(chars: seq<char>, start: nat, check: char -> bool): (end: nat)
    decreases |chars| - start
    ensures start <= end
    ensures end <= |chars| || end == start
    ensures start < |chars| && check(chars[start]) ==> start < end
  {
    if start < |chars| && check(chars[start]) then Span(chars, start + 1, check) else start
  }

  /** The run is maximal: every character in it passes `check`, and the one after it, if any, does not. */
  lemma {:induction false} SpanIsMaximal(chars: seq<char>, start: nat, check: char -> bool)
    decreases |chars| - start
    ensures forall k :: start <= k < Span(chars, start, check) ==> check(chars[k])
    ensures Span(chars, start, check) < |chars| ==> !check(chars[Span(chars, start, check)])
  {
    if start < |chars| && check(chars[start]) {
      SpanIsMaximal(chars, start + 1, check);
    }
  }

  /** `until`: scans from `start` while `check` holds, collecting what it passes. */
  method Until(chars: seq<char>, start: nat, check: char -> bool) returns (value: string, end: nat)
    ensures end == Span(chars, start, check)
    ensures start <= |chars| ==> value == chars[start..end]
    ensures start > |chars| ==> value == []
  {
    end := start;
    value := [];
    while end < |chars| && check(chars[end])
      invariant start <= end
      invariant start <= |chars| ==> end <= |chars| && value == chars[start..end]
      invariant start > |chars| ==> end == start && value == []
      invariant Span(chars, end, check) == Span(chars, start, check)
      decreases |chars| - end
    {
      value := value + [chars[end]];
      end := end + 1;
    }
  }

  // ---------------------------------------------------------------------------
  // Number lexemes

  function DigitValue(c: char): nat requires IsDigit(c) { c as int - '0' as int }

  /** The decimal value of a run of digits, as `str::parse` reads it. */
  function DecimalValue(s: string): nat
    requires forall k :: 0 <= k < |s| ==> IsDigit(s[k])
  {
    if s == [] then 0 else 10 * DecimalValue(s[..|s| - 1]) + DigitValue(s[|s| - 1])
  }

  function Count(s: string, c: char): nat {
    if s == [] then 0 else (if s[0] == c then 1 else 0) + Count(s[1..], c)
  }

  /**
   * Which runs of digits and dots `str::parse::<f32>` accepts: exactly one
   * dot and at least one digit (`5.`, `.5` and `3.14`, but not `.` or `1.2.3`).
   */
  predicate IsFloatLexeme(s: string) {
    Count(s, '.') == 1 && exists k :: 0 <= k < |s| && IsDigit(s[k])
  }

  /** `str::parse::<i32>` on a non-empty run of digits: it fails exactly when the value exceeds `i32::MAX`. */
  function ParseInteger(s: string): (r: Option<Int32>)
    requires s != [] && forall k :: 0 <= k < |s| ==> IsDigit(s[k])
    ensures r.Some? <==> DecimalValue(s) <= MAX
    ensures r.Some? ==> r.value == DecimalValue(s)
  {
    var v := DecimalValue(s);
    if v <= MAX then Some(v) else None
  }

  // ---------------------------------------------------------------------------
  // The closing quote of a string literal

  function Utf8Length(c: char): nat {
    if c as int < 0x80 then 1 else if c as int < 0x800 then 2 else if c as int < 0x10000 then 3 else 4
  }

  /** `String::len`: the number of UTF-8 bytes of `s`. */
  function ByteLength(s: string): nat {
    if s == [] then 0 else Utf8Length(s[0]) + ByteLength(s[1..])
  }

  lemma {:induction false} AsciiByteLength(s: string)
    requires IsAscii(s)
    ensures ByteLength(s) == |s|
  {
    if s != [] {
      assert IsAscii(s[1..]) by {
        forall i | 0 <= i < |s[1..]| ensures s[1..][i] as int < 128 {
          assert s[1..][i] == s[i + 1];
        }
      }
      AsciiByteLength(s[1..]);
    }
  }

  /**
   * The unclosed-literal test as src/lexer.rs:60 writes it: it looks for the
   * closing quote `ByteLength(value) + 1` positions after the opening one,
   * mixing a byte count with character positions.
   */
  predicate QuoteMissingAsWritten(chars: seq<char>, cur: nat, value: string) {
    cur + ByteLength(value) + 1 >= |chars| || chars[cur + ByteLength(value) + 1] != '"'
  }

  /** The intended test: the scan for the closing quote ran into the end of the input. */
  predicate QuoteMissing(chars: seq<char>, end: nat) { end >= |chars| }

  /** A literal opened at `cur` is unclosed, by the intended test, exactly when no quote follows it. */
  lemma QuoteMissingIffNoClosingQuote(chars: seq<char>, cur: nat)
    requires cur < |chars|
    ensures QuoteMissing(chars, Span(chars, cur + 1, NotQuote))
      <==> forall k :: cur < k < |chars| ==> chars[k] != '"'
  {
    var end := Span(chars, cur + 1, NotQuote);
    SpanIsMaximal(chars, cur + 1, NotQuote);
    if !QuoteMissing(chars, end) {
      assert !NotQuote(chars[end]);
    }
  }

  /** On ASCII text the test as written and the intended test agree. */
  lemma QuoteMissingAgreesOnAscii(chars: seq<char>, cur: nat)
    requires cur < |chars|
    requires IsAscii(chars)
    ensures var end := Span(chars, cur + 1, NotQuote);
      QuoteMissingAsWritten(chars, cur, chars[cur + 1..end]) == QuoteMissing(chars, end)
  {
    var end := Span(chars, cur + 1, NotQuote);
    var value := chars[cur + 1..end];
    SpanIsMaximal(chars, cur + 1, NotQuote);
    assert IsAscii(value) by {
      forall i | 0 <= i < |value| ensures value[i] as int < 128 {
        assert value[i] == chars[cur + 1 + i];
      }
    }
    AsciiByteLength(value);
  }

  /**
   * Off ASCII they do not: in the three characters `"é"` the literal is
   * closed, but `é` takes two bytes, so the test as written looks past the
   * closing quote and reports the literal unclosed.
   */
  lemma QuoteMissingAsWrittenRejectsNonAscii()
    ensures var chars := ['"', 'é', '"'];
      Span(chars, 1, NotQuote) == 2
      && !QuoteMissing(chars, 2)
      && QuoteMissingAsWritten(chars, 0, chars[1..2])
  {
  }

  // ---------------------------------------------------------------------------
  // `lex`

  /** Puts `ts` in front of the tokens of a successful run; failures pass through. */
  function Then(ts: seq<Token>, r: Result<seq<Token>, LexError>): Result<seq<Token>, LexError> {
    match r
    case Success(rest) => Success(ts + rest)
    case Failure(e) => Failure(e)
  }

  lemma ThenAppend(ts: seq<Token>, t: Token, r: Result<seq<Token>, LexError>)
    ensures Then(ts, Then([t], r)) == Then(ts + [t], r)
  {
    if r.Success? {
      assert ts + ([t] + r.value) == (ts + [t]) + r.value;
    }
  }

  /** What one pass of the loop in `lex` does: emit a token, skip a character, or fail. */
  datatype Step = Emit(token: Token, next: nat) | Skip(next: nat) | Stop(error: LexError)

  /**
   * A token as `lex` emits it: its kind names its variant; an identifier is a
   * letter followed by letters and digits; an integer is non-negative; a
   * float is a valid float lexeme; a string holds no quote; punctuation is
   * one of `.`, `:` and `,`.
   */
  predicate WellFormed(t: Token) {
    match t.value
    case Identifier(s) =>
      t.kind == "identifier" && |s| > 0 && IsAlphabetic(s[0])
      && forall k :: 0 <= k < |s| ==> IsAlphanumeric(s[k])
    case Integer(n) => t.kind == "integer" && n >= 0
    case Float(s) => t.kind == "float" && IsFloatLexeme(s)
    case String(s) => t.kind == "string" && '"' !in s
    case Punctuation(c) => t.kind == "punctuation" && c in ".:,"
  }

  /**
   * One pass of the loop in `lex`, at a position inside the input. Every pass
   * either fails or moves strictly forward, which is why `lex` terminates, and
   * every token it emits is well formed.
   */
  function Scan(chars: seq<char>, cur: nat): (s: Step)
    requires cur < |chars|
    ensures !s.Stop? ==> cur < s.next <= |chars|
  {
    var c := chars[cur];
    if IsAlphabetic(c) then
      var end := Span(chars, cur, IsAlphanumeric);
      Emit(Token("identifier", Identifier(chars[cur..end])), end)
    else if c == '.' && cur + 1 < |chars| && IsAlphabetic(chars[cur + 1]) then
      Emit(Token("punctuation", Punctuation('.')), cur + 1)
    else if IsNumeric(c) then
      var end := Span(chars, cur, IsNumeric);
      var lexeme := chars[cur..end];
      if '.' in lexeme then
        if IsFloatLexeme(lexeme) then Emit(Token("float", Float(lexeme)), end)
        else Stop(InvalidFloat(lexeme))
      else
        assert forall k :: 0 <= k < |lexeme| ==> IsDigit(lexeme[k]) by {
          SpanIsMaximal(chars, cur, IsNumeric);
          forall k | 0 <= k < |lexeme| ensures IsDigit(lexeme[k]) {
            assert lexeme[k] == chars[cur + k] && IsNumeric(chars[cur + k]);
          }
        }
        match ParseInteger(lexeme)
        case Some(n) => Emit(Token("integer", Integer(n)), end)
        case None => Stop(InvalidInteger(lexeme))
    else if c == '"' then
      var end := Span(chars, cur + 1, NotQuote);
      if QuoteMissing(chars, end) then Stop(UnclosedString)
      else
        Emit(Token("string", String(chars[cur + 1..end])), end + 1)
    else if CouldBe(c, ":,") then
      Emit(Token("punctuation", Punctuation(c)), cur + 1)
    else if IsWhitespace(c) then
      Skip(cur + 1)
    else
      Stop(UnexpectedCharacter(c))
  }

  /** Every token a pass emits is well formed. */
  lemma ScanWellFormed(chars: seq<char>, cur: nat)
    requires cur < |chars|
    ensures Scan(chars, cur).Emit? ==> WellFormed(Scan(chars, cur).token)
  {
    var c := chars[cur];
    if IsAlphabetic(c) {
      var end := Span(chars, cur, IsAlphanumeric);
      var name := chars[cur..end];
      SpanIsMaximal(chars, cur, IsAlphanumeric);
      forall k | 0 <= k < |name| ensures IsAlphanumeric(name[k]) {
        assert name[k] == chars[cur + k];
      }
    } else if !(c == '.' && cur + 1 < |chars| && IsAlphabetic(chars[cur + 1])) && IsNumeric(c) {
      var end := Span(chars, cur, IsNumeric);
      var lexeme := chars[cur..end];
      if '.' !in lexeme {
        assert forall k :: 0 <= k < |lexeme| ==> IsDigit(lexeme[k]) by {
          SpanIsMaximal(chars, cur, IsNumeric);
          forall k | 0 <= k < |lexeme| ensures IsDigit(lexeme[k]) {
            assert lexeme[k] == chars[cur + k] && IsNumeric(chars[cur + k]);
          }
        }
      }
    } else if c == '"' {
      var end := Span(chars, cur + 1, NotQuote);
      if !QuoteMissing(chars, end) {
        var text := chars[cur + 1..end];
        SpanIsMaximal(chars, cur + 1, NotQuote);
        forall k | 0 <= k < |text| ensures text[k] != '"' {
          assert text[k] == chars[cur + 1 + k] && NotQuote(chars[cur + 1 + k]);
        }
      }
    }
  }

  /** What lexing the characters from `cur` on produces: the tokens of each step in order, or the first error met. */
  function LexFrom(chars: seq<char>, cur: nat): Result<seq<Token>, LexError>
    decreases |chars| - cur
  {
    if cur >= |chars| then Success([])
    else
      match Scan(chars, cur)
      case Emit(t, next) => Then([t], LexFrom(chars, next))
      case Skip(next) => LexFrom(chars, next)
      case Stop(e) => Failure(e)
  }

  /**
   * The body of the loop in `lex`, one pass at position `cur`: the same
   * branches in the same order, each scanning with `until` where the source does.
   */
  method LexStep(chars: seq<char>, cur: nat) returns (step: Step)
    requires cur < |chars|
    requires IsAscii(chars)
    ensures step == Scan(chars, cur)
  {
    var c := chars[cur];
    if IsAlphabetic(c) {
      var value, end := Until(chars, cur, IsAlphanumeric);
      step := Emit(Token("identifier", Identifier(value)), end);
    } else if c == '.' && cur + 1 < |chars| && IsAlphabetic(chars[cur + 1]) {
      step := Emit(Token("punctuation", Punctuation('.')), cur + 1);
    } else if IsDigit(c) || c == '.' {
      var value, end := Until(chars, cur, IsNumeric);
      if '.' in value {
        if !IsFloatLexeme(value) {
          return Stop(InvalidFloat(value));
        }
        step := Emit(Token("float", Float(value)), end);
      } else {
        SpanIsMaximal(chars, cur, IsNumeric);
        assert forall k :: 0 <= k < |value| ==> IsDigit(value[k]) by {
          forall k | 0 <= k < |value| ensures IsDigit(value[k]) {
            assert value[k] == chars[cur + k] && IsNumeric(chars[cur + k]);
          }
        }
        var parsed := ParseInteger(value);
        if parsed.None? {
          return Stop(InvalidInteger(value));
        }
        step := Emit(Token("integer", Integer(parsed.value)), end);
      }
    } else if c == '"' {
      var value, end := Until(chars, cur + 1, NotQuote);
      QuoteMissingAgreesOnAscii(chars, cur);
      if cur + ByteLength(value) + 1 >= |chars| || chars[cur + ByteLength(value) + 1] != '"' {
        return Stop(UnclosedString);
      }
      step := Emit(Token("string", String(value)), end + 1);
    } else if CouldBe(c, ":,") {
      step := Emit(Token("punctuation", Punctuation(c)), cur + 1);
    } else if IsWhitespace(c) {
      step := Skip(cur + 1);
    } else {
      step := Stop(UnexpectedCharacter(c));
    }
  }

  /** `lex`: scans the input left to right, one token or skipped character per pass. */
  method Lex(input: string) returns (r: Result<seq<Token>, LexError>)
    requires IsAscii(input)
    ensures r == LexFrom(input, 0)
    ensures r.Success? ==> forall t :: t in r.value ==> WellFormed(t)
  {
    var chars := input;
    var tokens: seq<Token> := [];
    var cur := 0;
    assert Then([], LexFrom(chars, 0)) == LexFrom(chars, 0) by {
      if LexFrom(chars, 0).Success? { assert [] + LexFrom(chars, 0).value == LexFrom(chars, 0).value; }
    }
    while cur < |chars|
      invariant cur <= |chars|
      invariant LexFrom(chars, 0) == Then(tokens, LexFrom(chars, cur))
      decreases |chars| - cur
    {
      var step := LexStep(chars, cur);
      match step
      case Emit(t, next) =>
        ThenAppend(tokens, t, LexFrom(chars, next));
        tokens := tokens + [t];
        cur := next;
      case Skip(next) =>
        cur := next;
      case Stop(e) =>
        return Failure(e);
    }
    assert tokens + [] == tokens;
    r := Success(tokens);
    LexFromWellFormed(chars, 0);
  }

  lemma {:induction false} LexFromWellFormed(chars: seq<char>, cur: nat)
    ensures LexFrom(chars, cur).Success? ==> forall t :: t in LexFrom(chars, cur).value ==> WellFormed(t)
    decreases |chars| - cur
  {
    if cur < |chars| {
      match Scan(chars, cur)
      case Emit(t, next) => ScanWellFormed(chars, cur); LexFromWellFormed(chars, next);
      case Skip(next) => LexFromWellFormed(chars, next);
      case Stop(_) =>
    }
  }

  // ---------------------------------------------------------------------------
  // The inputs and outputs pinned down in src/tests.rs

  /** The first two passes over a line that starts with `push `: the identifier, then the blank. */
  lemma ScanPushPrefix(s: string)
    requires |s| > 5 && s[..5] == "push "
    ensures Scan(s, 0) == Emit(Token("identifier", Identifier("push")), 4)
    ensures Scan(s, 4) == Skip(5)
  {
    assert s[0] == 'p' && s[1] == 'u' && s[2] == 's' && s[3] == 'h' && s[4] == ' ' by {
      assert s[..5][0] == s[0] && s[..5][1] == s[1] && s[..5][2] == s[2];
      assert s[..5][3] == s[3] && s[..5][4] == s[4];
    }
    assert Span(s, 4, IsAlphanumeric) == 4;
    assert Span(s, 2, IsAlphanumeric) == Span(s, 3, IsAlphanumeric) == 4;
    assert Span(s, 0, IsAlphanumeric) == Span(s, 1, IsAlphanumeric) == 4;
    assert s[0..4] == "push";
  }

  lemma LexPushInteger()
    ensures LexFrom("push 5", 0) ==
      Success([Token("identifier", Identifier("push")), Token("integer", Integer(5))])
  {
    var s := "push 5";
    ScanPushPrefix(s);
    assert Span(s, 6, IsNumeric) == 6;
    assert Span(s, 5, IsNumeric) == 6;
    assert s[5..6] == "5" && DecimalValue("5") == 5;
    assert Scan(s, 5) == Emit(Token("integer", Integer(5)), 6);
    assert LexFrom(s, 6) == Success([]);
    assert [Token("integer", Integer(5))] + [] == [Token("integer", Integer(5))];
    assert LexFrom(s, 5) == Success([Token("integer", Integer(5))]);
    assert LexFrom(s, 4) == LexFrom(s, 5);
    assert [Token("identifier", Identifier("push"))] + [Token("integer", Integer(5))]
      == [Token("identifier", Identifier("push")), Token("integer", Integer(5))];
  }

  lemma LexUnknownCharacter()
    ensures LexFrom("push ?;", 0) == Failure(UnexpectedCharacter('?'))
    ensures LexFrom("push ?;", 0).error.Message() == "Unexpected character: '?'"
  {
    var s := "push ?;";
    ScanPushPrefix(s);
    assert Scan(s, 5) == Stop(UnexpectedCharacter('?'));
  }

  lemma LexPushString()
    ensures LexFrom("push \"hello\"", 0) ==
      Success([Token("identifier", Identifier("push")), Token("string", String("hello"))])
  {
    var s := "push \"hello\"";
    ScanPushPrefix(s);
    assert Span(s, 11, NotQuote) == 11;
    assert Span(s, 6, NotQuote) == 11;
    assert s[6..11] == "hello";
    assert Scan(s, 5) == Emit(Token("string", String("hello")), 12);
    assert LexFrom(s, 12) == Success([]);
    assert [Token("string", String("hello"))] + [] == [Token("string", String("hello"))];
    assert LexFrom(s, 5) == Success([Token("string", String("hello"))]);
    assert LexFrom(s, 4) == LexFrom(s, 5);
    assert [Token("identifier", Identifier("push"))] + [Token("string", String("hello"))]
      == [Token("identifier", Identifier("push")), Token("string", String("hello"))];
  }

  lemma ScanFloatExample()
    ensures Scan("push 3.14", 5) == Emit(Token("float", Float("3.14")), 9)
  {
    var s := "push 3.14";
    assert Span(s, 9, IsNumeric) == 9;
    assert Span(s, 5, IsNumeric) == 9;
    assert s[5..9] == "3.14";
    assert Count("3.14", '.') == 1 && IsDigit("3.14"[0]);
  }

  /** The float token keeps its lexeme; the source's test compares the parsed value 3.14. */
  lemma LexPushFloat()
    ensures LexFrom("push 3.14", 0) ==
      Success([Token("identifier", Identifier("push")), Token("float", Float("3.14"))])
  {
    var s := "push 3.14";
    ScanPushPrefix(s);
    ScanFloatExample();
    assert LexFrom(s, 9) == Success([]);
    assert [Token("float", Float("3.14"))] + [] == [Token("float", Float("3.14"))];
    assert LexFrom(s, 5) == Success([Token("float", Float("3.14"))]);
    assert LexFrom(s, 4) == LexFrom(s, 5);
    assert [Token("identifier", Identifier("push"))] + [Token("float", Float("3.14"))]
      == [Token("identifier", Identifier("push")), Token("float", Float("3.14"))];
  }

  lemma DecimalValueOfPrefix()
    ensures DecimalValue("21474") == 21474
  {
    assert DecimalValue("2") == 2;
    assert "21"[..1] == "2";
    assert DecimalValue("21") == 21;
    assert "214"[..2] == "21";
    assert DecimalValue("214") == 214;
    assert "2147"[..3] == "214";
    assert DecimalValue("2147") == 2147;
    assert "21474"[..4] == "2147";
  }

  lemma DecimalValueAtBoundary()
    ensures DecimalValue("2147483648") == MAX + 1
  {
    DecimalValueOfPrefix();
    assert "214748"[..5] == "21474";
    assert DecimalValue("214748") == 214748;
    assert "2147483"[..6] == "214748";
    assert DecimalValue("2147483") == 2147483;
    assert "21474836"[..7] == "2147483";
    assert DecimalValue("21474836") == 21474836;
    assert "214748364"[..8] == "21474836";
    assert DecimalValue("214748364") == 214748364;
    assert "2147483648"[..9] == "214748364";
  }

  /** A digit run one past `i32::MAX` is an invalid integer. */
  lemma LexIntegerOverflow()
    ensures LexFrom("2147483648", 0) == Failure(InvalidInteger("2147483648"))
  {
    var t := "2147483648";
    SpanIsMaximal(t, 0, IsNumeric);
    assert Span(t, 0, IsNumeric) == 10;
    assert t[0..10] == t;
    assert '.' !in t;
    DecimalValueAtBoundary();
    assert ParseInteger(t) == None;
    assert Scan(t, 0) == Stop(InvalidInteger(t));
  }
}
