/** Splitting extra compiler arguments the way a shell does (src/commands/ExtraArguments.h). */
module ExtraArguments {
  import opened Text

  datatype Result = Tokens(tokens: seq<string>) | Unterminated(argument: string)

  predicate IsSpace(c: char) {
    c == ' ' || c == '\t' || c == '\n' || c == '\r' || c == '\U{B}' || c == '\U{C}'
  }

  // ----- the tokenizer -----

  datatype State = State(tokens: seq<string>, token: string, quote: Option<char>, escaped: bool, started: bool)

  const START := State([], "", None, false, false)

  function Step(s: State, c: char): State {
    if s.escaped then s.(token := s.token + [c], escaped := false, started := true)
    else if s.quote != Some('\'') && c == '\\' then s.(escaped := true, started := true)
    else if s.quote == None && (c == '\'' || c == '"') then s.(quote := Some(c), started := true)
    else if s.quote != None && Some(c) == s.quote then s.(quote := None)
    else if s.quote == None && IsSpace(c) then
      if s.started then s.(tokens := s.tokens + [s.token], token := "", started := false) else s
    else s.(token := s.token + [c], started := true)
  }

  function Run(s: State, text: string): State {
    if text == "" then s else Step(Run(s, text[..|text| - 1]), text[|text| - 1])
  }

  function Finish(s: State, argument: string): Result {
    if s.escaped || s.quote != None then Unterminated(argument)
    else Tokens(if s.started then s.tokens + [s.token] else s.tokens)
  }

  function Tokenized(argument: string): Result {
    Finish(Run(START, argument), argument)
  }

  method TokenizeExtraArgument(argument: string) returns (result: Result)
    ensures result == Tokenized(argument)
  {
    var tokens: seq<string>, token := [], "";
    var quote: Option<char>, escaped, started := None, false, false;
    for i := 0 to |argument|
      invariant Run(START, argument[..i]) == State(tokens, token, quote, escaped, started)
    {
      assert argument[..i + 1][..i] == argument[..i];
      var character := argument[i];
      if escaped {
        token, escaped, started := token + [character], false, true;
        continue;
      }
      if quote != Some('\'') && character == '\\' {
        escaped, started := true, true;
        continue;
      }
      if quote == None && (character == '\'' || character == '"') {
        quote, started := Some(character), true;
        continue;
      }
      if quote != None && Some(character) == quote {
        quote := None;
        continue;
      }
      if quote == None && IsSpace(character) {
        if started {
          tokens, token, started := tokens + [token], "", false;
        }
        continue;
      }
      token, started := token + [character], true;
    }
    assert argument[..|argument|] == argument;
    if escaped || quote != None {
      return Unterminated(argument);
    }
    if started {
      tokens := tokens + [token];
    }
    return Tokens(tokens);
  }

  /** The tokens of all arguments in order, or the first argument that cannot be split. */
  function TokenizedAll(arguments: seq<string>): Result {
    if arguments == [] then Tokens([])
    else
      match TokenizedAll(arguments[..|arguments| - 1])
      case Unterminated(argument) => Unterminated(argument)
      case Tokens(before) =>
        match Tokenized(arguments[|arguments| - 1])
        case Unterminated(argument) => Unterminated(argument)
        case Tokens(tokens) => Tokens(before + tokens)
  }

  method TokenizeExtraArguments(arguments: seq<string>) returns (result: Result)
    ensures result == TokenizedAll(arguments)
  {
    var tokens: seq<string> := [];
    for i := 0 to |arguments|
      invariant TokenizedAll(arguments[..i]) == Tokens(tokens)
    {
      assert arguments[..i + 1][..i] == arguments[..i];
      var tokenized := TokenizeExtraArgument(arguments[i]);
      if tokenized.Unterminated? {
        FirstFailureStays(arguments, i + 1);
        return tokenized;
      }
      tokens := tokens + tokenized.tokens;
    }
    assert arguments[..|arguments|] == arguments;
    return Tokens(tokens);
  }

  lemma {:induction false} FirstFailureStays(arguments: seq<string>, i: nat)
    requires i <= |arguments| && TokenizedAll(arguments[..i]).Unterminated?
    ensures TokenizedAll(arguments) == TokenizedAll(arguments[..i])
    decreases |arguments|
  {
    if i == |arguments| {
      assert arguments[..i] == arguments;
    } else {
      assert arguments[..|arguments| - 1][..i] == arguments[..i];
      FirstFailureStays(arguments[..|arguments| - 1], i);
    }
  }

  // ----- the grammar -----

  datatype Inner = Raw(c: char) | InnerEscaped(c: char)

  /** A command line: blanks, and pieces that stand next to each other within a word. */
  datatype Item = Blank(c: char) | Plain(c: char) | Escaped(c: char) | Single(s: string) | Double(inner: seq<Inner>)

  /** What may be left open at the end of the text. */
  datatype Open =
    | Closed
    | Backslash
    | InSingle(s: string)
    | InDouble(inner: seq<Inner>)
    | InDoubleBackslash(inner: seq<Inner>)

  predicate InnerWellFormed(inner: seq<Inner>) {
    forall p <- inner :: p.Raw? ==> p.c != '"' && p.c != '\\'
  }

  predicate ItemWellFormed(item: Item) {
    match item
    case Blank(c) => IsSpace(c)
    case Plain(c) => !IsSpace(c) && c != '\'' && c != '"' && c != '\\'
    case Escaped(_) => true
    case Single(s) => '\'' !in s
    case Double(inner) => InnerWellFormed(inner)
  }

  predicate WellFormed(items: seq<Item>) {
    forall item <- items :: ItemWellFormed(item)
  }

  predicate OpenWellFormed(open: Open) {
    match open
    case InSingle(s) => '\'' !in s
    case InDouble(inner) => InnerWellFormed(inner)
    case InDoubleBackslash(inner) => InnerWellFormed(inner)
    case _ => true
  }

  function InnerText(inner: seq<Inner>): string {
    if inner == [] then ""
    else
      var last := inner[|inner| - 1];
      InnerText(inner[..|inner| - 1]) + (if last.Raw? then [last.c] else ['\\', last.c])
  }

  function InnerValue(inner: seq<Inner>): string {
    if inner == [] then "" else InnerValue(inner[..|inner| - 1]) + [inner[|inner| - 1].c]
  }

  function ItemText(item: Item): string {
    match item
    case Blank(c) => [c]
    case Plain(c) => [c]
    case Escaped(c) => ['\\', c]
    case Single(s) => "'" + s + "'"
    case Double(inner) => "\"" + InnerText(inner) + "\""
  }

  function ItemValue(item: Item): string {
    match item
    case Blank(_) => ""
    case Plain(c) => [c]
    case Escaped(c) => [c]
    case Single(s) => s
    case Double(inner) => InnerValue(inner)
  }

  function LineText(items: seq<Item>): string {
    if items == [] then "" else LineText(items[..|items| - 1]) + ItemText(items[|items| - 1])
  }

  function OpenText(open: Open): string {
    match open
    case Closed => ""
    case Backslash => "\\"
    case InSingle(s) => "'" + s
    case InDouble(inner) => "\"" + InnerText(inner)
    case InDoubleBackslash(inner) => "\"" + InnerText(inner) + "\\"
  }

  datatype Words = Words(done: seq<string>, current: Option<string>)

  /** A word is a stretch of pieces without a blank; its value is what the pieces stand for. */
  function WordsOf(items: seq<Item>): Words {
    if items == [] then Words([], None)
    else
      var before := WordsOf(items[..|items| - 1]);
      var last := items[|items| - 1];
      if last.Blank? then Words(AllWords(before), None)
      else Words(before.done, Some((if before.current.Some? then before.current.value else "") + ItemValue(last)))
  }

  function AllWords(words: Words): seq<string> {
    if words.current.Some? then words.done + [words.current.value] else words.done
  }

  // ----- the tokenizer follows the grammar -----

  lemma {:induction false} RunConcat(s: State, left: string, right: string)
    ensures Run(s, left + right) == Run(Run(s, left), right)
  {
    if right == "" {
      assert left + right == left;
    } else {
      var n := |right| - 1;
      assert (left + right)[..|left + right| - 1] == left + right[..n];
      RunConcat(s, left, right[..n]);
    }
  }

  lemma RunOne(s: State, c: char)
    ensures Run(s, [c]) == Step(s, c)
  {
    assert [c][..0] == "";
    assert Run(s, [c][..0]) == s;
  }

  function StateOf(words: Words): State {
    State(words.done, if words.current.Some? then words.current.value else "", None, false, words.current.Some?)
  }

  function EndWord(s: State): State {
    State(s.tokens + [s.token], "", s.quote, s.escaped, false)
  }

  function After(s: State, value: string): State {
    s.(token := s.token + value, started := true)
  }

  lemma {:induction false} RunSingle(s: State, text: string)
    requires s.quote == Some('\'') && !s.escaped && s.started && '\'' !in text
    ensures Run(s, text) == After(s, text)
  {
    if text != "" {
      var n := |text| - 1;
      assert text[n] in text && forall c <- text[..n] :: c in text;
      RunSingle(s, text[..n]);
      assert s.token + text == s.token + text[..n] + [text[n]];
    } else {
      assert s.token + "" == s.token;
    }
  }

  lemma {:induction false} RunInner(s: State, inner: seq<Inner>)
    requires s.quote == Some('"') && !s.escaped && s.started && InnerWellFormed(inner)
    ensures Run(s, InnerText(inner)) == After(s, InnerValue(inner))
  {
    if inner == [] {
      assert s.token + "" == s.token;
    } else {
      var n := |inner| - 1;
      var before, last := inner[..n], inner[n];
      assert last in inner;
      RunInner(s, before);
      var middle := Run(s, InnerText(before));
      assert s.token + InnerValue(inner) == s.token + InnerValue(before) + [last.c];
      if last.Raw? {
        RunConcat(s, InnerText(before), [last.c]);
        RunOne(middle, last.c);
      } else {
        assert ['\\', last.c] == ['\\'] + [last.c];
        assert InnerText(inner) == InnerText(before) + ['\\'] + [last.c];
        RunConcat(s, InnerText(before), ['\\']);
        RunConcat(s, InnerText(before) + ['\\'], [last.c]);
        RunOne(middle, '\\');
        RunOne(Step(middle, '\\'), last.c);
      }
    }
  }

  lemma RunItem(s: State, item: Item)
    requires s.quote == None && !s.escaped && ItemWellFormed(item)
    ensures item.Blank? ==> Run(s, ItemText(item)) == (if s.started then EndWord(s) else s)
    ensures !item.Blank? ==> Run(s, ItemText(item)) == After(s, ItemValue(item))
  {
    hide Run, InnerText, InnerValue;
    match item
    case Blank(c) => RunOne(s, c);
    case Plain(c) => RunOne(s, c);
    case Escaped(c) =>
      assert ItemText(item) == ['\\'] + [c];
      RunConcat(s, ['\\'], [c]);
      RunOne(s, '\\');
      RunOne(Step(s, '\\'), c);
    case Single(text) =>
      RunConcat(s, "'", text);
      RunConcat(s, "'" + text, "'");
      RunOne(s, '\'');
      RunSingle(Step(s, '\''), text);
      RunOne(After(Step(s, '\''), text), '\'');
    case Double(inner) =>
      RunConcat(s, "\"", InnerText(inner));
      RunConcat(s, "\"" + InnerText(inner), "\"");
      RunOne(s, '"');
      RunInner(Step(s, '"'), inner);
      RunOne(After(Step(s, '"'), InnerValue(inner)), '"');
  }

  lemma {:induction false} RunLine(items: seq<Item>)
    requires WellFormed(items)
    ensures Run(START, LineText(items)) == StateOf(WordsOf(items))
  {
    hide Step, ItemText, ItemValue, ItemWellFormed;
    if items != [] {
      var n := |items| - 1;
      assert items[n] in items && forall item <- items[..n] :: item in items;
      RunLine(items[..n]);
      RunConcat(START, LineText(items[..n]), ItemText(items[n]));
      RunItem(StateOf(WordsOf(items[..n])), items[n]);
    }
  }

  /** A text that the grammar produces is split into the words it spells. */
  lemma LinesAreTokenized(items: seq<Item>)
    requires WellFormed(items)
    ensures Tokenized(LineText(items)) == Tokens(AllWords(WordsOf(items)))
  {
    RunLine(items);
  }

  lemma RunOpen(items: seq<Item>, open: Open)
    requires WellFormed(items) && OpenWellFormed(open) && open != Closed
    ensures Run(START, LineText(items) + OpenText(open)).escaped ||
      Run(START, LineText(items) + OpenText(open)).quote != None
  {
    hide Run, InnerText, InnerValue, LineText, WordsOf;
    var s := StateOf(WordsOf(items));
    RunLine(items);
    RunConcat(START, LineText(items), OpenText(open));
    match open
    case Backslash => RunOne(s, '\\');
    case InSingle(text) =>
      RunConcat(s, "'", text);
      RunOne(s, '\'');
      RunSingle(Step(s, '\''), text);
    case InDouble(inner) =>
      RunConcat(s, "\"", InnerText(inner));
      RunOne(s, '"');
      RunInner(Step(s, '"'), inner);
    case InDoubleBackslash(inner) =>
      RunConcat(s, "\"", InnerText(inner));
      RunConcat(s, "\"" + InnerText(inner), "\\");
      RunOne(s, '"');
      RunInner(Step(s, '"'), inner);
      RunOne(After(Step(s, '"'), InnerValue(inner)), '\\');
  }

  // ----- every text has a reading -----

  datatype Reading = Reading(items: seq<Item>, open: Open)

  function ReadStep(r: Reading, c: char): Reading {
    match r.open
    case Closed =>
      if c == '\\' then r.(open := Backslash)
      else if c == '\'' then r.(open := InSingle(""))
      else if c == '"' then r.(open := InDouble([]))
      else r.(items := r.items + [if IsSpace(c) then Blank(c) else Plain(c)])
    case Backslash => Reading(r.items + [Escaped(c)], Closed)
    case InSingle(s) => if c == '\'' then Reading(r.items + [Single(s)], Closed) else r.(open := InSingle(s + [c]))
    case InDouble(inner) =>
      if c == '\\' then r.(open := InDoubleBackslash(inner))
      else if c == '"' then Reading(r.items + [Double(inner)], Closed)
      else r.(open := InDouble(inner + [Raw(c)]))
    case InDoubleBackslash(inner) => r.(open := InDouble(inner + [InnerEscaped(c)]))
  }

  function Read(text: string): Reading {
    if text == "" then Reading([], Closed) else ReadStep(Read(text[..|text| - 1]), text[|text| - 1])
  }

  lemma OneMore(items: seq<Item>, item: Item)
    requires WellFormed(items) && ItemWellFormed(item)
    ensures WellFormed(items + [item]) && LineText(items + [item]) == LineText(items) + ItemText(item)
  {
    assert (items + [item])[..|items|] == items;
  }

  lemma OneMoreInner(inner: seq<Inner>, part: Inner)
    requires InnerWellFormed(inner) && (part.Raw? ==> part.c != '"' && part.c != '\\')
    ensures InnerWellFormed(inner + [part])
    ensures InnerText(inner + [part]) == InnerText(inner) + (if part.Raw? then [part.c] else ['\\', part.c])
  {
    assert (inner + [part])[..|inner|] == inner;
  }

  /** The item that the character completes, if any, and what is open afterwards, spell what was open and the
      character. */
  lemma ReadStepSound(r: Reading, c: char)
    requires WellFormed(r.items) && OpenWellFormed(r.open)
    ensures var next := ReadStep(r, c);
      WellFormed(next.items) && OpenWellFormed(next.open) &&
      LineText(next.items) + OpenText(next.open) == LineText(r.items) + OpenText(r.open) + [c]
  {
    hide LineText, WellFormed, InnerText, InnerWellFormed;
    var line, next := LineText(r.items), ReadStep(r, c);
    if next.items != r.items {
      var item := next.items[|r.items|];
      OneMore(r.items, item);
      assert ItemText(item) == OpenText(r.open) + [c] by {
        hide LineText, WellFormed;
      }
      assert line + (OpenText(r.open) + [c]) + "" == line + OpenText(r.open) + [c];
    } else {
      NothingInner();
      match r.open {
        case InDouble(inner) =>
          if c != '"' && c != '\\' {
            OneMoreInner(inner, Raw(c));
          }
        case InDoubleBackslash(inner) => OneMoreInner(inner, InnerEscaped(c));
        case _ =>
      }
      assert OpenText(next.open) == OpenText(r.open) + [c];
      assert line + (OpenText(r.open) + [c]) == line + OpenText(r.open) + [c];
    }
  }

  lemma NothingInner()
    ensures InnerText([]) == "" && InnerWellFormed([])
  {
  }

  /** Every text is a line of the grammar, possibly followed by something left open. */
  lemma {:induction false} ReadSound(text: string)
    ensures WellFormed(Read(text).items) && OpenWellFormed(Read(text).open)
    ensures LineText(Read(text).items) + OpenText(Read(text).open) == text
  {
    hide ReadStep, LineText, OpenText, WellFormed, OpenWellFormed;
    if text != "" {
      ReadSound(text[..|text| - 1]);
      ReadStepSound(Read(text[..|text| - 1]), text[|text| - 1]);
      assert text == text[..|text| - 1] + [text[|text| - 1]];
    } else {
      EmptyLine();
    }
  }

  lemma EmptyLine()
    ensures LineText([]) == "" && OpenText(Closed) == "" && WellFormed([]) && OpenWellFormed(Closed)
  {
  }

  ghost predicate Spells(text: string, items: seq<Item>) {
    WellFormed(items) && LineText(items) == text
  }

  ghost predicate LeftOpen(text: string, items: seq<Item>, open: Open) {
    WellFormed(items) && OpenWellFormed(open) && open != Closed && LineText(items) + OpenText(open) == text
  }

  /** Tokenizing succeeds exactly on the texts of the grammar, and then gives the words of any such reading. */
  lemma TokenizesExactlyTheGrammar(text: string)
    ensures Tokenized(text).Tokens? <==> exists items :: Spells(text, items)
    ensures forall items :: Spells(text, items) ==> Tokenized(text) == Tokens(AllWords(WordsOf(items)))
  {
    hide Run, LineText, WordsOf, WellFormed, OpenWellFormed;
    forall items | Spells(text, items) ensures Tokenized(text) == Tokens(AllWords(WordsOf(items))) {
      LinesAreTokenized(items);
    }
    var r := Read(text);
    ReadSound(text);
    if r.open == Closed {
      assert LineText(r.items) + "" == LineText(r.items);
      assert Spells(text, r.items);
    } else {
      RunOpen(r.items, r.open);
    }
  }

  /** It fails exactly on the texts that end inside a quote or right after an escaping backslash. */
  lemma FailsExactlyWhenLeftOpen(text: string)
    ensures Tokenized(text) == Unterminated(text) <==> exists items, open :: LeftOpen(text, items, open)
  {
    hide Run, LineText, WordsOf, WellFormed, OpenWellFormed, OpenText;
    forall items, open | LeftOpen(text, items, open) ensures Tokenized(text) == Unterminated(text) {
      RunOpen(items, open);
    }
    var r := Read(text);
    ReadSound(text);
    if r.open == Closed {
      EmptyLine();
      assert LineText(r.items) + "" == LineText(r.items);
      LinesAreTokenized(r.items);
    } else {
      assert LeftOpen(text, r.items, r.open);
    }
  }

  // ----- quoting -----

  function QuotedBody(token: string): string {
    if token == "" then ""
    else QuotedBody(token[..|token| - 1]) + (if token[|token| - 1] == '\'' then "'\\''" else [token[|token| - 1]])
  }

  /** The token between single quotes, an inner quote closing them, escaped, and opening them again. */
  function Quoted(token: string): string {
    "'" + QuotedBody(token) + "'"
  }

  /** The quoted tokens, one blank between two. */
  function QuotedLine(tokens: seq<string>): string {
    if tokens == [] then ""
    else if |tokens| == 1 then Quoted(tokens[0])
    else QuotedLine(tokens[..|tokens| - 1]) + " " + Quoted(tokens[|tokens| - 1])
  }

  lemma EscapedQuote(body: string)
    ensures body + "'\\''" == body + ['\''] + ['\\'] + ['\''] + ['\'']
  {
    assert "'\\''" == ['\''] + ['\\'] + ['\''] + ['\''];
  }

  lemma {:induction false} RunQuotedBody(s: State, token: string)
    requires s.quote == Some('\'') && !s.escaped && s.started
    ensures Run(s, QuotedBody(token)) == After(s, token)
  {
    if token == "" {
      assert s.token + "" == s.token;
    } else {
      var n := |token| - 1;
      var body, c := QuotedBody(token[..n]), token[n];
      var middle := After(s, token[..n]);
      RunQuotedBody(s, token[..n]);
      hide Run;
      assert s.token + token == s.token + token[..n] + [c];
      if c == '\'' {
        EscapedQuote(body);
        FourSteps(s, body, middle);
      } else {
        RunConcat(s, body, [c]);
        RunOne(middle, c);
      }
    }
  }

  /** Closing the quote, escaping one, and opening again adds one quote to the token. */
  lemma FourSteps(s: State, body: string, middle: State)
    requires Run(s, body) == middle && middle.quote == Some('\'') && !middle.escaped && middle.started
    ensures Run(s, body + ['\''] + ['\\'] + ['\''] + ['\'']) == After(middle, "'")
  {
    hide Run;
    RunConcat(s, body, ['\'']);
    RunOne(middle, '\'');
    var closed := Step(middle, '\'');
    RunConcat(s, body + ['\''], ['\\']);
    RunOne(closed, '\\');
    var escaping := Step(closed, '\\');
    RunConcat(s, body + ['\''] + ['\\'], ['\'']);
    RunOne(escaping, '\'');
    RunConcat(s, body + ['\''] + ['\\'] + ['\''], ['\'']);
    RunOne(Step(escaping, '\''), '\'');
  }

  lemma RunQuoted(s: State, token: string)
    requires s.quote == None && !s.escaped
    ensures Run(s, Quoted(token)) == After(s, token)
  {
    hide Run, QuotedBody;
    RunConcat(s, "'", QuotedBody(token));
    RunConcat(s, "'" + QuotedBody(token), "'");
    RunOne(s, '\'');
    RunQuotedBody(Step(s, '\''), token);
    RunOne(After(Step(s, '\''), token), '\'');
  }

  lemma {:induction false} RunQuotedLine(tokens: seq<string>)
    requires tokens != []
    ensures Run(START, QuotedLine(tokens)) == State(tokens[..|tokens| - 1], tokens[|tokens| - 1], None, false, true)
  {
    hide Run, Quoted;
    var n := |tokens| - 1;
    if n == 0 {
      RunQuoted(START, tokens[0]);
    } else {
      RunQuotedLine(tokens[..n]);
      var before := State(tokens[..n - 1], tokens[n - 1], None, false, true);
      assert tokens[..n][..n - 1] == tokens[..n - 1] && tokens[..n] == tokens[..n - 1] + [tokens[n - 1]];
      RunConcat(START, QuotedLine(tokens[..n]), " ");
      RunOne(before, ' ');
      RunConcat(START, QuotedLine(tokens[..n]) + " ", Quoted(tokens[n]));
      RunQuoted(Step(before, ' '), tokens[n]);
    }
  }

  /** Quoting any tokens, empty ones included, and joining them by blanks tokenizes back to exactly them. */
  lemma QuotingRoundTrip(tokens: seq<string>)
    ensures Tokenized(QuotedLine(tokens)) == Tokens(tokens)
  {
    if tokens != [] {
      RunQuotedLine(tokens);
      assert tokens == tokens[..|tokens| - 1] + [tokens[|tokens| - 1]];
    }
  }

  function QuotedLines(groups: seq<seq<string>>): seq<string> {
    if groups == [] then [] else QuotedLines(groups[..|groups| - 1]) + [QuotedLine(groups[|groups| - 1])]
  }

  function Flatten(groups: seq<seq<string>>): seq<string> {
    if groups == [] then [] else Flatten(groups[..|groups| - 1]) + groups[|groups| - 1]
  }

  /** The same when the tokens are spread over several arguments. */
  lemma {:induction false} QuotingRoundTripAll(groups: seq<seq<string>>)
    ensures TokenizedAll(QuotedLines(groups)) == Tokens(Flatten(groups))
  {
    hide Tokenized, QuotedLine;
    if groups != [] {
      var n := |groups| - 1;
      QuotingRoundTripAll(groups[..n]);
      QuotingRoundTrip(groups[n]);
      assert QuotedLines(groups)[..|QuotedLines(groups)| - 1] == QuotedLines(groups[..n]);
    }
  }

  /** All arguments can be split exactly if each can, and then the tokens are put one after the other. */
  lemma {:induction false} AllSplitIfEach(arguments: seq<string>)
    ensures TokenizedAll(arguments).Tokens? <==> forall argument <- arguments :: Tokenized(argument).Tokens?
    ensures TokenizedAll(arguments).Unterminated? ==>
      exists i | 0 <= i < |arguments| :: TokenizedAll(arguments) == Tokenized(arguments[i]) &&
        forall j | 0 <= j < i :: Tokenized(arguments[j]).Tokens?
  {
    hide Tokenized;
    if arguments != [] {
      var n := |arguments| - 1;
      AllSplitIfEach(arguments[..n]);
      assert arguments == arguments[..n] + [arguments[n]];
      if TokenizedAll(arguments[..n]).Tokens? {
        forall j | 0 <= j < n ensures Tokenized(arguments[j]).Tokens? {
          assert arguments[j] in arguments[..n];
        }
      } else {
        var i :| 0 <= i < n && TokenizedAll(arguments[..n]) == Tokenized(arguments[..n][i]) &&
          forall j | 0 <= j < i :: Tokenized(arguments[..n][j]).Tokens?;
        assert TokenizedAll(arguments) == Tokenized(arguments[i]);
        forall j | 0 <= j < i ensures Tokenized(arguments[j]).Tokens? {
          assert arguments[j] == arguments[..n][j];
        }
        assert arguments[i] in arguments;
      }
    }
  }
}
