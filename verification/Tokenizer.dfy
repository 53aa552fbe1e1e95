/** The REPL tokenizer of tokenizer.rs: blanks separate, either kind of quote protects, and a
    backslash escapes `"` and `\` inside double quotes only. */
module Tokenizer {
  import opened Results

  datatype Mode = Plain | InDouble | InSingle

  /** Tokens finished, the one being built, and the quote the scan is in. */
  datatype Scan = Scan(tokens: seq<string>, current: string, mode: Mode)

  datatype QuoteError = UnterminatedDouble | UnterminatedSingle

  const START := Scan([], "", Plain)

  predicate IsBlank(ch: char) {
    ch == ' ' || ch == '\t'
  }

  predicate IsEscapable(ch: char) {
    ch == '"' || ch == '\\'
  }

  function Flushed(scan: Scan): Scan {
    if scan.current != "" then scan.(tokens := scan.tokens + [scan.current], current := "") else scan
  }

  /** The effect of one character that does not begin an escape. */
  function Step(scan: Scan, ch: char): Scan {
    match scan.mode
    case InDouble => if ch == '"' then scan.(mode := Plain) else scan.(current := scan.current + [ch])
    case InSingle => if ch == '\'' then scan.(mode := Plain) else scan.(current := scan.current + [ch])
    case Plain =>
      if ch == '"' then scan.(mode := InDouble)
      else if ch == '\'' then scan.(mode := InSingle)
      else if IsBlank(ch) then Flushed(scan)
      else scan.(current := scan.current + [ch])
  }

  predicate BeginsEscape(mode: Mode, input: string) {
    mode == InDouble && |input| >= 2 && input[0] == '\\' && IsEscapable(input[1])
  }

  function Run(scan: Scan, input: string): Scan
    decreases |input|
  {
    if input == "" then scan
    else if BeginsEscape(scan.mode, input) then Run(scan.(current := scan.current + [input[1]]), input[2..])
    else Run(Step(scan, input[0]), input[1..])
  }

  function Finish(scan: Scan): Result<seq<string>, QuoteError> {
    match scan.mode
    case InDouble => Err(UnterminatedDouble)
    case InSingle => Err(UnterminatedSingle)
    case Plain => Ok(Flushed(scan).tokens)
  }

  function Tokens(input: string): Result<seq<string>, QuoteError> {
    Finish(Run(START, input))
  }

  /** tokenize */
  method Tokenize(input: string) returns (result: Result<seq<string>, QuoteError>)
    ensures result == Tokens(input)
  {
    var tokens: seq<string>, current := [], "";
    var inDouble, inSingle := false, false;
    var i := 0;
    while i < |input|
      invariant 0 <= i <= |input|
      invariant !(inDouble && inSingle)
      invariant Run(START, input)
             == Run(Scan(tokens, current, if inDouble then InDouble else if inSingle then InSingle else Plain),
                 input[i..])
    {
      var ch := input[i];
      assert input[i..][1..] == input[i + 1..];
      i := i + 1;
      if inDouble {
        if ch == '\\' {
          if i < |input| && IsEscapable(input[i]) {
            assert input[i - 1..][2..] == input[i + 1..];
            current := current + [input[i]];
            i := i + 1;
          } else {
            current := current + [ch];
          }
        } else if ch == '"' {
          inDouble := false;
        } else {
          current := current + [ch];
        }
      } else if inSingle {
        if ch == '\'' {
          inSingle := false;
        } else {
          current := current + [ch];
        }
      } else if ch == '"' {
        inDouble := true;
      } else if ch == '\'' {
        inSingle := true;
      } else if IsBlank(ch) {
        if current != "" {
          tokens, current := tokens + [current], "";
        }
      } else {
        current := current + [ch];
      }
    }
    if inDouble {
      return Err(UnterminatedDouble);
    }
    if inSingle {
      return Err(UnterminatedSingle);
    }
    if current != "" {
      tokens := tokens + [current];
    }
    result := Ok(tokens);
  }

  // ---------------------------------------------------------------------------------------
  //  Errors and empty tokens
  // ---------------------------------------------------------------------------------------

  /** The quote an input ends in, judged from its quotes and backslashes alone. */
  function QuoteAtEnd(mode: Mode, input: string): Mode
    decreases |input|
  {
    if input == "" then mode
    else
      match mode
      case Plain => QuoteAtEnd(if input[0] == '"' then InDouble else if input[0] == '\'' then InSingle
          else Plain, input[1..])
      case InSingle => QuoteAtEnd(if input[0] == '\'' then Plain else InSingle, input[1..])
      case InDouble =>
        if input[0] == '\\' && |input| > 1 && IsEscapable(input[1]) then QuoteAtEnd(InDouble, input[2..])
        else QuoteAtEnd(if input[0] == '"' then Plain else InDouble, input[1..])
  }

  lemma {:induction false} RunTracksQuotes(scan: Scan, input: string)
    ensures Run(scan, input).mode == QuoteAtEnd(scan.mode, input)
    decreases |input|
  {
    if input != "" {
      if BeginsEscape(scan.mode, input) {
        RunTracksQuotes(scan.(current := scan.current + [input[1]]), input[2..]);
      } else {
        RunTracksQuotes(Step(scan, input[0]), input[1..]);
      }
    }
  }

  /** An error is returned exactly when the input ends inside a quote, and it names the quote. */
  lemma ErrorIffInsideQuote(input: string)
    ensures Tokens(input).Err? <==> QuoteAtEnd(Plain, input) != Plain
    ensures Tokens(input) == Err(UnterminatedDouble) <==> QuoteAtEnd(Plain, input) == InDouble
  {
    RunTracksQuotes(START, input);
  }

  predicate NoneEmpty(tokens: seq<string>) {
    forall t :: t in tokens ==> t != ""
  }

  lemma {:induction false} RunKeepsNoneEmpty(scan: Scan, input: string)
    requires NoneEmpty(scan.tokens)
    ensures NoneEmpty(Run(scan, input).tokens)
    decreases |input|
  {
    if input != "" {
      if BeginsEscape(scan.mode, input) {
        RunKeepsNoneEmpty(scan.(current := scan.current + [input[1]]), input[2..]);
      } else {
        RunKeepsNoneEmpty(Step(scan, input[0]), input[1..]);
      }
    }
  }

  lemma NoTokenIsEmpty(input: string)
    ensures Tokens(input).Ok? ==> NoneEmpty(Tokens(input).value)
  {
    RunKeepsNoneEmpty(START, input);
  }

  // ---------------------------------------------------------------------------------------
  //  Concatenation
  // ---------------------------------------------------------------------------------------

  lemma {:induction false} RunAppend(scan: Scan, a: string, b: string)
    requires Run(scan, a).mode != InDouble
    ensures Run(scan, a + b) == Run(Run(scan, a), b)
    decreases |a|
  {
    if a == "" {
      assert a + b == b;
    } else {
      assert (a + b)[1..] == a[1..] + b;
      if BeginsEscape(scan.mode, a) {
        assert (a + b)[2..] == a[2..] + b;
        RunAppend(scan.(current := scan.current + [a[1]]), a[2..], b);
      } else {
        RunAppend(Step(scan, a[0]), a[1..], b);
      }
    }
  }

  /** Tokens found earlier stay in front and do not influence what follows. */
  lemma {:induction false} RunAfterTokens(tokens: seq<string>, scan: Scan, input: string)
    ensures Run(scan.(tokens := tokens + scan.tokens), input)
         == Run(scan, input).(tokens := tokens + Run(scan, input).tokens)
    decreases |input|
  {
    if input != "" {
      var scan' := scan.(tokens := tokens + scan.tokens);
      if BeginsEscape(scan.mode, input) {
        RunAfterTokens(tokens, scan.(current := scan.current + [input[1]]), input[2..]);
      } else {
        assert tokens + (scan.tokens + [scan.current]) == (tokens + scan.tokens) + [scan.current];
        assert Step(scan', input[0]) == Step(scan, input[0]).(tokens := tokens + Step(scan, input[0]).tokens);
        RunAfterTokens(tokens, Step(scan, input[0]), input[1..]);
      }
    }
  }

  /** Two lines joined by a blank give the tokens of the first followed by those of the second. */
  lemma TokensAppend(a: string, b: string)
    requires Tokens(a).Ok?
    ensures Tokens(a + " " + b) == match Tokens(b)
      case Err(error) => Err(error)
      case Ok(tokens) => Ok(Tokens(a).value + tokens)
  {
    var first := Run(START, a);
    RunAppend(START, a, " " + b);
    assert a + (" " + b) == a + " " + b;
    assert (" " + b)[1..] == b;
    var flushed := Flushed(first);
    assert flushed == START.(tokens := flushed.tokens + START.tokens);
    RunAfterTokens(flushed.tokens, START, b);
    var last := Run(START, b);
    assert flushed.tokens + (last.tokens + [last.current]) == (flushed.tokens + last.tokens) + [last.current];
  }

  // ---------------------------------------------------------------------------------------
  //  Quoting
  // ---------------------------------------------------------------------------------------

  function Escaped(text: string): string {
    if text == "" then ""
    else (if IsEscapable(text[0]) then ['\\', text[0]] else [text[0]]) + Escaped(text[1..])
  }

  function Quoted(text: string): string {
    "\"" + Escaped(text) + "\""
  }

  /** The texts in double quotes, separated by blanks. */
  function QuotedLine(texts: seq<string>): string {
    if texts == [] then ""
    else if |texts| == 1 then Quoted(texts[0])
    else Quoted(texts[0]) + " " + QuotedLine(texts[1..])
  }

  function NonEmpty(texts: seq<string>): seq<string> {
    if texts == [] then []
    else if texts[0] != "" then [texts[0]] + NonEmpty(texts[1..])
    else NonEmpty(texts[1..])
  }

  lemma {:induction false} RunEscaped(scan: Scan, text: string)
    requires scan.mode == InDouble
    ensures Run(scan, Escaped(text) + "\"") == scan.(current := scan.current + text, mode := Plain)
    decreases |text|
  {
    var input := Escaped(text) + "\"";
    if text == "" {
      assert input == "\"";
      assert Run(scan, "\"") == Run(Step(scan, '"'), "");
      assert scan.current + text == scan.current;
    } else {
      var rest := Escaped(text[1..]) + "\"";
      var next := scan.(current := scan.current + [text[0]]);
      if IsEscapable(text[0]) {
        assert input == ['\\', text[0]] + rest && input[2..] == rest;
      } else {
        assert input == [text[0]] + rest && input[1..] == rest;
      }
      assert Run(scan, input) == Run(next, rest);
      RunEscaped(next, text[1..]);
      assert scan.current + [text[0]] + text[1..] == scan.current + text;
    }
  }

  lemma TokensOfQuoted(text: string)
    ensures Tokens(Quoted(text)) == Ok(NonEmpty([text]))
  {
    var input := Quoted(text);
    assert input[1..] == Escaped(text) + "\"";
    assert Run(START, input) == Run(START.(mode := InDouble), input[1..]);
    RunEscaped(START.(mode := InDouble), text);
    assert "" + text == text;
    assert START.tokens + [text] == [text];
    NonEmptyOfOne(text);
  }

  lemma NonEmptyOfOne(text: string)
    ensures NonEmpty([text]) == if text == "" then [] else [text]
  {
    assert NonEmpty([text][1..]) == [];
  }

  /** Any list of texts, quoted and joined, tokenizes back to the list without its empty texts. */
  lemma {:induction false} QuotedLineRoundTrip(texts: seq<string>)
    ensures Tokens(QuotedLine(texts)) == Ok(NonEmpty(texts))
    decreases |texts|
  {
    if |texts| == 1 {
      TokensOfQuoted(texts[0]);
      assert texts == [texts[0]];
    } else if |texts| > 1 {
      TokensOfQuoted(texts[0]);
      TokensAppend(Quoted(texts[0]), QuotedLine(texts[1..]));
      QuotedLineRoundTrip(texts[1..]);
      NonEmptyOfOne(texts[0]);
      var rest := NonEmpty(texts[1..]);
      assert [] + rest == rest;
    }
  }

  /** Without empty texts nothing is lost. */
  lemma {:induction false} QuotedLineLosesNothing(texts: seq<string>)
    requires NoneEmpty(texts)
    ensures Tokens(QuotedLine(texts)) == Ok(texts)
  {
    QuotedLineRoundTrip(texts);
    NonEmptyKeepsAll(texts);
  }

  lemma {:induction false} NonEmptyKeepsAll(texts: seq<string>)
    requires NoneEmpty(texts)
    ensures NonEmpty(texts) == texts
  {
    if texts != [] {
      assert texts[0] in texts;
      assert forall t :: t in texts[1..] ==> t in texts;
      NonEmptyKeepsAll(texts[1..]);
    }
  }
}
