/** The grammar of a command line, without a scanner: what its parts are, and what words they make.
    The tokenizer gives the words of every line, and refuses exactly what is no line. */
module CommandLines {
  import opened Results
  import opened Tokenizer

  // ---------------------------------------------------------------------------------------
  //  Lines
  // ---------------------------------------------------------------------------------------

  /** In double quotes: a quote or backslash behind a backslash, or a character that stands for
      itself. */
  datatype Unit = Escape(ch: char) | Raw(ch: char)

  datatype Item = Blank(ch: char) | Bare(ch: char) | Double(units: seq<Unit>) | Single(text: string)

  /** A backslash stands for itself in front of a character other than quote and backslash. */
  predicate IsUnit(unit: Unit, rest: seq<Unit>) {
    match unit
    case Escape(ch) => ch == '"' || ch == '\\'
    case Raw(ch) => ch != '"' && (ch == '\\' ==> rest != [] && rest[0].Raw? && rest[0].ch != '\\')
  }

  predicate AreUnits(units: seq<Unit>) {
    units == [] || (IsUnit(units[0], units[1..]) && AreUnits(units[1..]))
  }

  predicate IsItem(item: Item) {
    match item
    case Blank(ch) => ch == ' ' || ch == '\t'
    case Bare(ch) => ch != ' ' && ch != '\t' && ch != '"' && ch != '\''
    case Double(units) => AreUnits(units)
    case Single(text) => '\'' !in text
  }

  predicate AreItems(items: seq<Item>) {
    forall i :: 0 <= i < |items| ==> IsItem(items[i])
  }

  function UnitsWritten(units: seq<Unit>): string {
    if units == [] then ""
    else (match units[0] case Escape(ch) => ['\\', ch] case Raw(ch) => [ch]) + UnitsWritten(units[1..])
  }

  /** How a line is written. */
  function ItemWritten(item: Item): string {
    match item
    case Blank(ch) => [ch]
    case Bare(ch) => [ch]
    case Double(units) => "\"" + UnitsWritten(units) + "\""
    case Single(text) => "'" + text + "'"
  }

  function Written(items: seq<Item>): string {
    if items == [] then "" else ItemWritten(items[0]) + Written(items[1..])
  }

  /** What an item stands for. */
  function Meant(item: Item): string {
    match item
    case Blank(_) => ""
    case Bare(ch) => [ch]
    case Double(units) => seq(|units|, i requires 0 <= i < |units| => units[i].ch)
    case Single(text) => text
  }

  function AllMeant(items: seq<Item>): string {
    if items == [] then "" else Meant(items[0]) + AllMeant(items[1..])
  }

  function FirstBlank(items: seq<Item>): (n: nat)
    ensures n <= |items|
    ensures forall i :: 0 <= i < n ==> !items[i].Blank?
    ensures n < |items| ==> items[n].Blank?
  {
    if items == [] || items[0].Blank? then 0 else 1 + FirstBlank(items[1..])
  }

  function Word(text: string): seq<string> {
    if text == "" then [] else [text]
  }

  /** What stands between blanks is one word, if it stands for anything. */
  function Words(items: seq<Item>): seq<string> {
    var n := FirstBlank(items);
    Word(AllMeant(items[..n])) + if n == |items| then [] else Words(items[n + 1..])
  }

  // ---------------------------------------------------------------------------------------
  //  Tokenizing a line
  // ---------------------------------------------------------------------------------------

  lemma {:induction false} RunDouble(scan: Scan, units: seq<Unit>, rest: string)
    requires scan.mode == InDouble && AreUnits(units)
    ensures Run(scan, UnitsWritten(units) + "\"" + rest)
         == Run(scan.(current := scan.current + Meant(Double(units)), mode := Plain), rest)
    decreases |units|
  {
    var input := UnitsWritten(units) + "\"" + rest;
    if units == [] {
      assert input[1..] == rest;
      assert scan.current + Meant(Double(units)) == scan.current;
    } else {
      var tail := UnitsWritten(units[1..]) + "\"" + rest;
      var next := scan.(current := scan.current + [units[0].ch]);
      match units[0] {
        case Escape(ch) =>
          assert input == ['\\', ch] + tail && input[2..] == tail;
        case Raw(ch) =>
          assert input == [ch] + tail && input[1..] == tail;
          assert ch == '\\' ==> units[1..] != [] && tail[0] == units[1..][0].ch;
      }
      assert Run(scan, input) == Run(next, tail);
      RunDouble(next, units[1..], rest);
      assert scan.current + [units[0].ch] + Meant(Double(units[1..])) == scan.current + Meant(Double(units));
    }
  }

  lemma {:induction false} RunSingle(scan: Scan, text: string, rest: string)
    requires scan.mode == InSingle && '\'' !in text
    ensures Run(scan, text + "'" + rest) == Run(scan.(current := scan.current + text, mode := Plain), rest)
    decreases |text|
  {
    var input := text + "'" + rest;
    if text == "" {
      assert input[1..] == rest && scan.current + text == scan.current;
    } else {
      var next := scan.(current := scan.current + [text[0]]);
      assert input[1..] == text[1..] + "'" + rest;
      assert Run(scan, input) == Run(next, input[1..]);
      RunSingle(next, text[1..], rest);
      assert scan.current + [text[0]] + text[1..] == scan.current + text;
    }
  }

  /** What an item does to the scan. */
  function Taken(scan: Scan, item: Item): Scan {
    if item.Blank? then Flushed(scan) else scan.(current := scan.current + Meant(item))
  }

  lemma RunStep(scan: Scan, ch: char, rest: string)
    requires scan.mode == Plain
    ensures Run(scan, [ch] + rest) == Run(Step(scan, ch), rest)
  {
    assert ([ch] + rest)[1..] == rest;
  }

  lemma RunItem(scan: Scan, item: Item, rest: string)
    requires scan.mode == Plain && IsItem(item)
    ensures Run(scan, ItemWritten(item) + rest) == Run(Taken(scan, item), rest)
  {
    hide Run, AreUnits, UnitsWritten, Flushed;
    match item
    case Blank(ch) => RunStep(scan, ch, rest);
    case Bare(ch) => RunStep(scan, ch, rest);
    case Double(units) =>
      assert ItemWritten(item) + rest == ['"'] + (UnitsWritten(units) + "\"" + rest);
      RunStep(scan, '"', UnitsWritten(units) + "\"" + rest);
      RunDouble(scan.(mode := InDouble), units, rest);
    case Single(text) =>
      assert ItemWritten(item) + rest == ['\''] + (text + "'" + rest);
      RunStep(scan, '\'', text + "'" + rest);
      RunSingle(scan.(mode := InSingle), text, rest);
  }

  function AllTaken(scan: Scan, items: seq<Item>): Scan
    decreases |items|
  {
    if items == [] then scan else AllTaken(Taken(scan, items[0]), items[1..])
  }

  lemma {:induction false} RunItems(scan: Scan, items: seq<Item>)
    requires scan.mode == Plain && AreItems(items)
    ensures Run(scan, Written(items)) == AllTaken(scan, items)
    ensures AllTaken(scan, items).mode == Plain
    decreases |items|
  {
    hide Run, IsItem;
    if items == [] {
      RunNothing(scan);
    } else {
      RunItem(scan, items[0], Written(items[1..]));
      RunItems(Taken(scan, items[0]), items[1..]);
    }
  }

  lemma RunNothing(scan: Scan)
    ensures Run(scan, "") == scan
  {}

  /** The words of a line whose first one has begun already. */
  function WordsFrom(begun: string, items: seq<Item>): seq<string> {
    var n := FirstBlank(items);
    Word(begun + AllMeant(items[..n])) + if n == |items| then [] else Words(items[n + 1..])
  }

  lemma WordsFromNothing(items: seq<Item>)
    ensures WordsFrom("", items) == Words(items)
  {
    assert "" + AllMeant(items[..FirstBlank(items)]) == AllMeant(items[..FirstBlank(items)]);
  }

  lemma WordsFromItem(begun: string, items: seq<Item>)
    requires items != [] && !items[0].Blank?
    ensures WordsFrom(begun, items) == WordsFrom(begun + Meant(items[0]), items[1..])
  {
    var n := FirstBlank(items);
    assert items[..n][1..] == items[1..][..n - 1];
    assert items[n..] == items[1..][n - 1..];
    assert n < |items| ==> items[n + 1..] == items[1..][n..];
    var first, rest := Meant(items[0]), AllMeant(items[1..][..n - 1]);
    assert begun + (first + rest) == (begun + first) + rest;
  }

  lemma WordsFromBlank(begun: string, items: seq<Item>)
    requires items != [] && items[0].Blank?
    ensures WordsFrom(begun, items) == Word(begun) + Words(items[1..])
  {
    assert items[..0] == [] && begun + "" == begun;
    hide Words;
  }

  lemma WordsFromEnd(begun: string)
    ensures WordsFrom(begun, []) == Word(begun)
  {
    assert begun + "" == begun;
  }

  lemma {:induction false} TakenAreWords(tokens: seq<string>, begun: string, items: seq<Item>)
    ensures Flushed(AllTaken(Scan(tokens, begun, Plain), items)).tokens == tokens + WordsFrom(begun, items)
    decreases |items|
  {
    hide Meant, WordsFrom, Words;
    if items == [] {
      WordsFromEnd(begun);
    } else if items[0].Blank? {
      TakenAreWords(tokens + Word(begun), "", items[1..]);
      WordsFromNothing(items[1..]);
      WordsFromBlank(begun, items);
      assert Flushed(Scan(tokens, begun, Plain)) == Scan(tokens + Word(begun), "", Plain);
      assert tokens + Word(begun) + Words(items[1..]) == tokens + (Word(begun) + Words(items[1..]));
    } else {
      TakenAreWords(tokens, begun + Meant(items[0]), items[1..]);
      WordsFromItem(begun, items);
    }
  }

  /** Every line tokenizes to its words. */
  lemma LineGivesWords(items: seq<Item>)
    requires AreItems(items)
    ensures Tokens(Written(items)) == Ok(Words(items))
  {
    hide Run, AllTaken, Flushed, Words, WordsFrom;
    RunItems(START, items);
    TakenAreWords([], "", items);
    WordsFromNothing(items);
    assert [] + Words(items) == Words(items);
  }

  // ---------------------------------------------------------------------------------------
  //  What is no line
  // ---------------------------------------------------------------------------------------

  lemma {:induction false} ReadSingle(input: string) returns (text: string, rest: string)
    requires QuoteAtEnd(InSingle, input) == Plain
    ensures input == text + "'" + rest && '\'' !in text && QuoteAtEnd(Plain, rest) == Plain
    decreases |input|
  {
    if input[0] == '\'' {
      text, rest := "", input[1..];
    } else {
      text, rest := ReadSingle(input[1..]);
      text := [input[0]] + text;
    }
  }

  lemma {:induction false} ReadDouble(input: string) returns (units: seq<Unit>, rest: string)
    requires QuoteAtEnd(InDouble, input) == Plain
    ensures input == UnitsWritten(units) + "\"" + rest && AreUnits(units) && QuoteAtEnd(Plain, rest) == Plain
    decreases |input|
  {
    hide UnitsWritten, AreUnits;
    if input[0] == '\\' && |input| > 1 && IsEscapable(input[1]) {
      units, rest := ReadDouble(input[2..]);
      MoreUnits(Escape(input[1]), units);
      units := [Escape(input[1])] + units;
      assert input == ['\\', input[1]] + input[2..];
    } else if input[0] == '"' {
      units, rest := [], input[1..];
      NoUnits();
    } else {
      units, rest := ReadDouble(input[1..]);
      if input[0] == '\\' {
        RawStands(units, rest);
      }
      MoreUnits(Raw(input[0]), units);
      units := [Raw(input[0])] + units;
      assert input == [input[0]] + input[1..];
    }
  }

  lemma NoUnits()
    ensures UnitsWritten([]) == "" && AreUnits([])
  {}

  lemma RawStands(units: seq<Unit>, rest: string)
    requires AreUnits(units)
    ensures var first := (UnitsWritten(units) + "\"" + rest)[0];
      first != '"' && first != '\\' ==> units != [] && units[0] == Raw(first)
  {}

  lemma MoreUnits(unit: Unit, units: seq<Unit>)
    requires AreUnits(units)
    requires IsUnit(unit, units)
    ensures AreUnits([unit] + units)
    ensures UnitsWritten([unit] + units)
         == (match unit case Escape(ch) => ['\\', ch] case Raw(ch) => [ch]) + UnitsWritten(units)
  {
    assert ([unit] + units)[1..] == units;
  }

  lemma MoreItems(item: Item, items: seq<Item>)
    requires IsItem(item) && AreItems(items)
    ensures AreItems([item] + items) && Written([item] + items) == ItemWritten(item) + Written(items)
  {
    assert ([item] + items)[1..] == items;
  }

  lemma {:induction false} ReadLine(input: string) returns (items: seq<Item>)
    requires QuoteAtEnd(Plain, input) == Plain
    ensures AreItems(items) && Written(items) == input
    decreases |input|
  {
    hide Written, AreUnits, UnitsWritten;
    if input == "" {
      items := [];
      assert Written([]) == "" by { NothingWritten(); }
    } else {
      var item: Item, rest: string;
      if input[0] == '"' {
        var units;
        units, rest := ReadDouble(input[1..]);
        item := Double(units);
        assert input == "\"" + (UnitsWritten(units) + "\"" + rest);
      } else if input[0] == '\'' {
        var text;
        text, rest := ReadSingle(input[1..]);
        item := Single(text);
        assert input == "'" + (text + "'" + rest);
      } else {
        item, rest := if input[0] == ' ' || input[0] == '\t' then Blank(input[0]) else Bare(input[0]), input[1..];
      }
      assert input == ItemWritten(item) + rest;
      items := ReadLine(rest);
      MoreItems(item, items);
      items := [item] + items;
    }
  }

  lemma NothingWritten()
    ensures Written([]) == ""
  {}

  /** The tokenizer accepts exactly the lines. */
  lemma TokenizesIffLine(input: string)
    ensures Tokens(input).Ok? <==> exists items :: AreItems(items) && Written(items) == input
  {
    hide Run, QuoteAtEnd;
    ErrorIffInsideQuote(input);
    if QuoteAtEnd(Plain, input) == Plain {
      var items := ReadLine(input);
    }
    if items :| AreItems(items) && Written(items) == input {
      LineGivesWords(items);
    }
  }

  // ---------------------------------------------------------------------------------------
  //  Plain words, single quotes, adjacent pieces
  // ---------------------------------------------------------------------------------------

  predicate IsPlainWord(word: string) {
    word != "" && forall ch :: ch in word ==> ch != ' ' && ch != '\t' && ch != '"' && ch != '\''
  }

  function BareItems(word: string): (items: seq<Item>)
    ensures |items| == |word|
    ensures forall i :: 0 <= i < |word| ==> items[i] == Bare(word[i])
  {
    seq(|word|, i requires 0 <= i < |word| => Bare(word[i]))
  }

  lemma {:induction false} BareItemsWritten(word: string)
    ensures Written(BareItems(word)) == AllMeant(BareItems(word)) == word
    decreases |word|
  {
    if word != "" {
      assert BareItems(word)[1..] == BareItems(word[1..]);
      BareItemsWritten(word[1..]);
    }
  }

  lemma {:induction false} WrittenTogether(a: seq<Item>, b: seq<Item>)
    ensures Written(a + b) == Written(a) + Written(b)
    ensures AllMeant(a + b) == AllMeant(a) + AllMeant(b)
  {
    hide ItemWritten, Meant;
    if a == [] {
      assert a + b == b;
    } else {
      assert (a + b)[0] == a[0] && (a + b)[1..] == a[1..] + b;
      WrittenTogether(a[1..], b);
    }
  }

  lemma WordsWithoutBlank(items: seq<Item>)
    requires forall i :: 0 <= i < |items| ==> !items[i].Blank?
    ensures Words(items) == Word(AllMeant(items))
  {
    hide AllMeant;
    assert FirstBlank(items) == |items|;
    assert items[..|items|] == items;
  }

  /** Items without a blank between them make one word. */
  lemma OneWord(items: seq<Item>)
    requires AreItems(items) && forall i :: 0 <= i < |items| ==> !items[i].Blank?
    ensures Tokens(Written(items)) == Ok(Word(AllMeant(items)))
  {
    hide Written, AllMeant, Words, Tokens;
    LineGivesWords(items);
    WordsWithoutBlank(items);
  }

  /** Plain, double-quoted and single-quoted pieces that stand together make one token, in any order. */
  lemma AdjacentPieces(word: string, units: seq<Unit>, text: string)
    requires IsPlainWord(word) && AreUnits(units) && '\'' !in text
    ensures var quoted := Meant(Double(units));
      && Tokens(word + ("\"" + UnitsWritten(units) + "\"") + ("'" + text + "'")) == Ok([word + quoted + text])
      && Tokens(("'" + text + "'") + ("\"" + UnitsWritten(units) + "\"") + word) == Ok([text + quoted + word])
  {
    var bare, double, single := BareItems(word), Double(units), Single(text);
    hide UnitsWritten, AreUnits;
    assert IsItem(double) && IsItem(single);
    PlainWordItems(word);
    BareItemsWritten(word);
    WrittenTogether(bare, [double]);
    WrittenTogether(bare + [double], [single]);
    WrittenTogether([single], [double]);
    WrittenTogether([single] + [double], bare);
    AloneWritten(double);
    AloneWritten(single);
    OneWord(bare + [double] + [single]);
    OneWord([single] + [double] + bare);
  }

  lemma AloneWritten(item: Item)
    ensures Written([item]) == ItemWritten(item) && AllMeant([item]) == Meant(item)
  {
    assert [item][1..] == [];
  }

  /** A text in single quotes is taken as it is. */
  lemma SingleQuotedText(text: string)
    requires '\'' !in text
    ensures Tokens("'" + text + "'") == Ok(Word(text))
  {
    AloneWritten(Single(text));
    OneWord([Single(text)]);
  }

  /** Words separated by single blanks or tabs. */
  function PlainLine(words: seq<string>, gaps: seq<char>): string
    requires |words| == |gaps| + 1
    decreases |words|
  {
    if gaps == [] then words[0] else words[0] + [gaps[0]] + PlainLine(words[1..], gaps[1..])
  }

  function PlainItems(words: seq<string>, gaps: seq<char>): seq<Item>
    requires |words| == |gaps| + 1
    decreases |words|
  {
    if gaps == [] then BareItems(words[0])
    else BareItems(words[0]) + [Blank(gaps[0])] + PlainItems(words[1..], gaps[1..])
  }

  lemma WordsAfterWord(word: string, gap: char, items: seq<Item>)
    requires word != ""
    ensures Words(BareItems(word) + [Blank(gap)] + items) == [word] + Words(items)
  {
    var all := BareItems(word) + [Blank(gap)] + items;
    var n := FirstBlank(all);
    assert n == |word| by {
      assert forall i :: 0 <= i < |word| ==> all[i] == Bare(word[i]);
      assert all[|word|] == Blank(gap);
    }
    assert all[..n] == BareItems(word) && all[n + 1..] == items;
    BareItemsWritten(word);
  }

  lemma WordsOfWord(word: string)
    requires word != ""
    ensures Words(BareItems(word)) == [word]
  {
    var items := BareItems(word);
    assert FirstBlank(items) == |items| && items[..|items|] == items;
    BareItemsWritten(word);
  }

  lemma {:induction false} PlainItemsAre(words: seq<string>, gaps: seq<char>)
    requires |words| == |gaps| + 1
    requires forall w :: w in words ==> IsPlainWord(w)
    requires forall g :: g in gaps ==> g == ' ' || g == '\t'
    ensures var items := PlainItems(words, gaps);
      AreItems(items) && Written(items) == PlainLine(words, gaps) && Words(items) == words
    decreases |words|
  {
    hide Words, IsPlainWord;
    assert words[0] in words;
    PlainWordItems(words[0]);
    BareItemsWritten(words[0]);
    if gaps == [] {
      WordsOfWord(words[0]);
      assert words == [words[0]];
    } else {
      var rest := PlainItems(words[1..], gaps[1..]);
      assert gaps[0] in gaps;
      assert forall w :: w in words[1..] ==> w in words;
      assert forall g :: g in gaps[1..] ==> g in gaps;
      PlainItemsAre(words[1..], gaps[1..]);
      WordsAfterWord(words[0], gaps[0], rest);
      AloneWritten(Blank(gaps[0]));
      WrittenTogether(BareItems(words[0]), [Blank(gaps[0])]);
      WrittenTogether(BareItems(words[0]) + [Blank(gaps[0])], rest);
      assert words == [words[0]] + words[1..];
    }
  }

  lemma PlainWordItems(word: string)
    requires IsPlainWord(word)
    ensures word != "" && AreItems(BareItems(word))
  {
    assert forall i :: 0 <= i < |word| ==> word[i] in word;
  }

  /** Words without blanks and quotes, separated by blanks or tabs, tokenize to the words. */
  lemma PlainWordsRoundTrip(words: seq<string>, gaps: seq<char>)
    requires |words| == |gaps| + 1
    requires forall w :: w in words ==> IsPlainWord(w)
    requires forall g :: g in gaps ==> g == ' ' || g == '\t'
    ensures Tokens(PlainLine(words, gaps)) == Ok(words)
  {
    PlainItemsAre(words, gaps);
    LineGivesWords(PlainItems(words, gaps));
  }
}
