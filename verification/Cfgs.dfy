/** Which `[target.…]` tables apply (kompilator/src/cfg.rs): a `cfg(…)`
    expression is read and judged in one pass. */
module Cfgs {
  import opened Common

  /** A target, and the letters and digits there are beyond ASCII. */
  datatype Target = Target(triple: string, cfg: set<(string, Option<string>)>, more: set<char>)

  datatype Token = Word(text: string) | Text(value: string) | Open | Close | Comma | Equals

  datatype Error =
    | Unclosed
    | Strange(c: char)
    | NameExpected
    | ValueExpected(name: string)
    | NeverClosed(word: string)
    | NotTakesOne
    | WordsAfter

  // ---------------------------------------------------------------- tokens

  predicate IsWordChar(more: set<char>, c: char) {
    'a' <= c <= 'z' || 'A' <= c <= 'Z' || '0' <= c <= '9' || c == '_' || (c > '\U{7f}' && c in more)
  }

  predicate IsBlank(c: char) { c == ' ' || c == '\t' || c == '\n' }

  /** How many word characters `text` starts with. */
  function WordLength(more: set<char>, text: string): (n: nat)
    ensures n <= |text| && forall i :: 0 <= i < n ==> IsWordChar(more, text[i])
    ensures n < |text| ==> !IsWordChar(more, text[n])
  {
    if text == "" || !IsWordChar(more, text[0]) then 0 else 1 + WordLength(more, text[1..])
  }

  function Punctuation(c: char): Option<Token> {
    if c == '(' then Some(Open)
    else if c == ')' then Some(Close)
    else if c == ',' then Some(Comma)
    else if c == '=' then Some(Equals)
    else None
  }

  function Then(token: Token, rest: Result<seq<Token>, Error>): Result<seq<Token>, Error> {
    if rest.Ok? then Ok([token] + rest.value) else rest
  }

  /** The tokens of an expression. */
  function Lex(more: set<char>, text: string): Result<seq<Token>, Error>
    decreases |text|
  {
    if text == "" then Ok([])
    else if IsBlank(text[0]) then Lex(more, text[1..])
    else if Punctuation(text[0]).Some? then Then(Punctuation(text[0]).value, Lex(more, text[1..]))
    else if text[0] == '"' then
      match SplitOnce(text[1..], '"')
      case None => Err(Unclosed)
      case Some((value, rest)) => Then(Text(value), Lex(more, rest))
    else
      var n := WordLength(more, text);
      if n == 0 then Err(Strange(text[0])) else Then(Word(text[..n]), Lex(more, text[n..]))
  }

  /** `tokens` before `rest`. */
  function Prepend(tokens: seq<Token>, rest: Result<seq<Token>, Error>): Result<seq<Token>, Error> {
    if rest.Ok? then Ok(tokens + rest.value) else rest
  }

  method Tokenize(more: set<char>, expression: string) returns (result: Result<seq<Token>, Error>)
    ensures result == Lex(more, expression)
  {
    var tokens: seq<Token> := [];
    var at := 0;
    PrependNothing(Lex(more, expression));
    assert expression[0..] == expression;
    while at < |expression|
      invariant at <= |expression|
      invariant Lex(more, expression) == Prepend(tokens, Lex(more, expression[at..]))
      decreases |expression| - at
    {
      var token, next, error := NextToken(more, expression, at);
      if error.Some? { return Err(error.value); }
      if token.Some? {
        PrependThen(tokens, token.value, Lex(more, expression[next..]));
        tokens := tokens + [token.value];
      }
      at := next;
    }
    assert tokens + [] == tokens;
    result := Ok(tokens);
  }

  /** The token at `at`, unless a blank is there, and the place after it. */
  method NextToken(more: set<char>, text: string, at: nat) returns (token: Option<Token>, next: nat, error: Option<Error>)
    requires at < |text|
    ensures error.Some? ==> Lex(more, text[at..]) == Err(error.value)
    ensures error.None? ==> at < next <= |text|
    ensures error.None? ==>
      Lex(more, text[at..]) == if token.None? then Lex(more, text[next..]) else Then(token.value, Lex(more, text[next..]))
  {
    token, next, error := None, at + 1, None;
    if IsBlank(text[at]) {
      LexOne(more, text, at);
    } else if Punctuation(text[at]).Some? {
      LexOne(more, text, at);
      token := Punctuation(text[at]);
    } else if text[at] == '"' {
      token, next, error := QuotedToken(more, text, at);
    } else {
      token, next, error := WordToken(more, text, at);
    }
  }

  method QuotedToken(more: set<char>, text: string, at: nat) returns (token: Option<Token>, next: nat, error: Option<Error>)
    requires at < |text| && text[at] == '"'
    ensures error.Some? ==> Lex(more, text[at..]) == Err(error.value)
    ensures error.None? ==> at < next <= |text| && token.Some? && Lex(more, text[at..]) == Then(token.value, Lex(more, text[next..]))
  {
    LexQuote(more, text, at);
    var value, after := Quoted(text, at + 1);
    if after.None? { return None, at, Some(Unclosed); }
    return Some(Text(value)), after.value, None;
  }

  method WordToken(more: set<char>, text: string, at: nat) returns (token: Option<Token>, next: nat, error: Option<Error>)
    requires at < |text| && !IsBlank(text[at]) && Punctuation(text[at]).None? && text[at] != '"'
    ensures error.Some? ==> Lex(more, text[at..]) == Err(error.value)
    ensures error.None? ==> at < next <= |text| && token.Some? && Lex(more, text[at..]) == Then(token.value, Lex(more, text[next..]))
  {
    var word := WordAt(more, text, at);
    token, next, error := Some(Word(word)), at + |word|, None;
    LexWord(more, text, at, word, next);
    if word == "" { error := Some(Strange(text[at])); }
  }

  lemma LexOne(more: set<char>, text: string, at: nat)
    requires at < |text| && (IsBlank(text[at]) || Punctuation(text[at]).Some?)
    ensures Lex(more, text[at..]) ==
      if IsBlank(text[at]) then Lex(more, text[at + 1..]) else Then(Punctuation(text[at]).value, Lex(more, text[at + 1..]))
  {
    assert text[at..][1..] == text[at + 1..];
  }

  /** The tokens after an opening quote. */
  function FromQuote(more: set<char>, split: Option<(string, string)>): Result<seq<Token>, Error> {
    if split.None? then Err(Unclosed) else Then(Text(split.value.0), Lex(more, split.value.1))
  }

  lemma LexQuote(more: set<char>, text: string, at: nat)
    requires at < |text| && text[at] == '"'
    ensures Lex(more, text[at..]) == FromQuote(more, SplitOnce(text[at + 1..], '"'))
  {
    assert text[at..][1..] == text[at + 1..];
  }

  lemma LexWord(more: set<char>, text: string, at: nat, word: string, next: nat)
    requires at < |text| && !IsBlank(text[at]) && Punctuation(text[at]).None? && text[at] != '"'
    requires next == at + |word| && |word| == WordLength(more, text[at..]) && word == text[at..next]
    ensures word == "" ==> Lex(more, text[at..]) == Err(Strange(text[at]))
    ensures word != "" ==> Lex(more, text[at..]) == Then(Word(word), Lex(more, text[next..]))
  {
    assert text[at..][|word|..] == text[next..];
    assert text[at..][..|word|] == word;
  }

  lemma PrependNothing(rest: Result<seq<Token>, Error>)
    ensures Prepend([], rest) == rest
  {
    if rest.Ok? { assert [] + rest.value == rest.value; }
  }

  lemma PrependThen(tokens: seq<Token>, token: Token, rest: Result<seq<Token>, Error>)
    ensures Prepend(tokens, Then(token, rest)) == Prepend(tokens + [token], rest)
  {
    if rest.Ok? { assert tokens + ([token] + rest.value) == tokens + [token] + rest.value; }
  }

  /** The text up to the next quote and the place after it. */
  method Quoted(text: string, start: nat) returns (value: string, after: Option<nat>)
    requires start <= |text|
    ensures match SplitOnce(text[start..], '"')
      case None => after == None
      case Some((v, rest)) =>
        value == v && after.Some? && start < after.value <= |text| && rest == text[after.value..]
  {
    value := "";
    var at := start;
    while at < |text|
      invariant start <= at <= |text| && value == text[start..at] && '"' !in value
    {
      if text[at] == '"' {
        assert text[start..] == value + ['"'] + text[at + 1..];
        SplitAtFirst(value, '"', text[at + 1..]);
        return value, Some(at + 1);
      }
      value := value + [text[at]];
      at := at + 1;
    }
    assert value == text[start..];
    return value, None;
  }

  method WordAt(more: set<char>, text: string, start: nat) returns (word: string)
    requires start <= |text|
    ensures |word| == WordLength(more, text[start..]) && start + |word| <= |text| && word == text[start..start + |word|]
  {
    word := "";
    var at := start;
    while at < |text| && IsWordChar(more, text[at])
      invariant start <= at <= |text| && word == text[start..at]
      invariant WordLength(more, text[start..]) == |word| + WordLength(more, text[at..])
    {
      assert text[at..][1..] == text[at + 1..];
      assert WordLength(more, text[at..]) == 1 + WordLength(more, text[at + 1..]);
      word := word + [text[at]];
      at := at + 1;
    }
  }

  // ------------------------------------------------------------- judgement

  predicate Holds(t: Target, name: string, value: Option<string>) {
    (name, value) in t.cfg
  }

  predicate IsList(tokens: seq<Token>, at: nat) {
    at + 1 < |tokens| && tokens[at] in {Word("all"), Word("any"), Word("not")} && tokens[at + 1] == Open
  }

  function Combine(word: string, values: seq<bool>): Result<bool, Error> {
    if word == "all" then Ok(forall i :: 0 <= i < |values| ==> values[i])
    else if word == "any" then Ok(exists i :: 0 <= i < |values| && values[i])
    else if |values| == 1 then Ok(!values[0])
    else Err(NotTakesOne)
  }

  /** The truth of the expression at `at`, and the place after it. */
  function Judge(t: Target, tokens: seq<Token>, at: nat): (r: Result<(bool, nat), Error>)
    ensures r.Ok? ==> at < r.value.1 <= |tokens|
    decreases |tokens| - at, 0
  {
    if at >= |tokens| || !tokens[at].Word? then Err(NameExpected)
    else
      var word := tokens[at].text;
      if IsList(tokens, at) then
        match JudgeList(t, tokens, at + 2, word)
        case Err(error) => Err(error)
        case Ok((values, after)) =>
          match Combine(word, values)
          case Err(error) => Err(error)
          case Ok(value) => Ok((value, after))
      else if at + 1 < |tokens| && tokens[at + 1] == Equals then
        if at + 2 < |tokens| && tokens[at + 2].Text? then Ok((Holds(t, word, Some(tokens[at + 2].value)), at + 3))
        else Err(ValueExpected(word))
      else Ok((Holds(t, word, None), at + 1))
  }

  /** The place after the item that ends at `at`. */
  function AfterComma(tokens: seq<Token>, at: nat): nat {
    if at < |tokens| && tokens[at] == Comma then at + 1 else at
  }

  /** The truths of the items from `at` to the closing parenthesis. */
  function JudgeList(t: Target, tokens: seq<Token>, at: nat, word: string): (r: Result<(seq<bool>, nat), Error>)
    requires at <= |tokens|
    ensures r.Ok? ==> at < r.value.1 <= |tokens|
    decreases |tokens| - at, 1
  {
    if at < |tokens| && tokens[at] == Close then Ok(([], at + 1))
    else
      match Judge(t, tokens, at)
      case Err(error) => Err(error)
      case Ok((value, end)) =>
        var next := AfterComma(tokens, end);
        if next >= |tokens| then Err(NeverClosed(word))
        else
          match JudgeList(t, tokens, next, word)
          case Err(error) => Err(error)
          case Ok((values, after)) => Ok(([value] + values, after))
  }

  method Expression(t: Target, tokens: seq<Token>, start: nat) returns (result: Result<(bool, nat), Error>)
    ensures result == Judge(t, tokens, start)
    decreases |tokens| - start
  {
    var at := start;
    if at >= |tokens| || !tokens[at].Word? { return Err(NameExpected); }
    var word := tokens[at].text;
    at := at + 1;
    if word in {"all", "any", "not"} && at < |tokens| && tokens[at] == Open {
      assert IsList(tokens, start);
      at := at + 1;
      var values: seq<bool> := [];
      assert forall rest: seq<bool> :: [] + rest == rest;
      while !(at < |tokens| && tokens[at] == Close)
        invariant start + 2 <= at <= |tokens|
        invariant JudgeList(t, tokens, start + 2, word) ==
          match JudgeList(t, tokens, at, word)
          case Err(error) => Err(error)
          case Ok((rest, after)) => Ok((values + rest, after))
        decreases |tokens| - at
      {
        var item := Expression(t, tokens, at);
        if item.Err? { return Err(item.error); }
        ghost var before, had := at, values;
        values := values + [item.value.0];
        at := item.value.1;
        if at < |tokens| && tokens[at] == Comma { at := at + 1; }
        if at >= |tokens| { return Err(NeverClosed(word)); }
        assert forall rest: seq<bool> :: had + ([item.value.0] + rest) == values + rest;
      }
      at := at + 1;
      assert values + [] == values;
      var combined := Combine(word, values);
      if combined.Err? { return Err(combined.error); }
      return Ok((combined.value, at));
    }
    if at < |tokens| && tokens[at] == Equals {
      at := at + 1;
      if at >= |tokens| || !tokens[at].Text? { return Err(ValueExpected(word)); }
      return Ok((Holds(t, word, Some(tokens[at].value)), at + 1));
    }
    return Ok((Holds(t, word, None), at));
  }

  // --------------------------------------------------------------- meaning

  /** An expression as it is meant. */
  datatype Cfg =
    | All(items: seq<Cfg>)
    | Any(items: seq<Cfg>)
    | Not(item: Cfg)
    | Name(name: string)
    | KeyValue(name: string, value: string)

  predicate Meaning(t: Target, e: Cfg) {
    match e
    case All(items) => forall i :: 0 <= i < |items| ==> Meaning(t, items[i])
    case Any(items) => exists i :: 0 <= i < |items| && Meaning(t, items[i])
    case Not(item) => !Meaning(t, item)
    case Name(name) => (name, None) in t.cfg
    case KeyValue(name, value) => (name, Some(value)) in t.cfg
  }

  function Listed(word: string, items: seq<Cfg>): Result<Cfg, Error> {
    if word == "all" then Ok(All(items))
    else if word == "any" then Ok(Any(items))
    else if |items| == 1 then Ok(Not(items[0]))
    else Err(NotTakesOne)
  }

  /** Reading without judging: the expression at `at`, and the place after it. */
  function Parse(tokens: seq<Token>, at: nat): (r: Result<(Cfg, nat), Error>)
    ensures r.Ok? ==> at < r.value.1 <= |tokens|
    decreases |tokens| - at, 0
  {
    if at >= |tokens| || !tokens[at].Word? then Err(NameExpected)
    else
      var word := tokens[at].text;
      if IsList(tokens, at) then
        match ParseList(tokens, at + 2, word)
        case Err(error) => Err(error)
        case Ok((items, after)) =>
          match Listed(word, items)
          case Err(error) => Err(error)
          case Ok(e) => Ok((e, after))
      else if at + 1 < |tokens| && tokens[at + 1] == Equals then
        if at + 2 < |tokens| && tokens[at + 2].Text? then Ok((KeyValue(word, tokens[at + 2].value), at + 3))
        else Err(ValueExpected(word))
      else Ok((Name(word), at + 1))
  }

  function ParseList(tokens: seq<Token>, at: nat, word: string): (r: Result<(seq<Cfg>, nat), Error>)
    requires at <= |tokens|
    ensures r.Ok? ==> at < r.value.1 <= |tokens|
    decreases |tokens| - at, 1
  {
    if at < |tokens| && tokens[at] == Close then Ok(([], at + 1))
    else
      match Parse(tokens, at)
      case Err(error) => Err(error)
      case Ok((item, end)) =>
        var next := AfterComma(tokens, end);
        if next >= |tokens| then Err(NeverClosed(word))
        else
          match ParseList(tokens, next, word)
          case Err(error) => Err(error)
          case Ok((items, after)) => Ok(([item] + items, after))
  }

  function Meanings(t: Target, items: seq<Cfg>): seq<bool> {
    seq(|items|, i requires 0 <= i < |items| => Meaning(t, items[i]))
  }

  function Judged(t: Target, r: Result<(Cfg, nat), Error>): Result<(bool, nat), Error> {
    if r.Ok? then Ok((Meaning(t, r.value.0), r.value.1)) else Err(r.error)
  }

  /** Judging while reading gives the meaning of what was read, or fails the
      same way. */
  lemma {:induction false} JudgeIsMeaning(t: Target, tokens: seq<Token>, at: nat)
    ensures Judge(t, tokens, at) == Judged(t, Parse(tokens, at))
    decreases |tokens| - at, 0
  {
    if at < |tokens| && tokens[at].Word? && IsList(tokens, at) {
      JudgeListIsMeaning(t, tokens, at + 2, tokens[at].text);
      var list := ParseList(tokens, at + 2, tokens[at].text);
      if list.Ok? {
        ListedMeans(t, tokens[at].text, list.value.0);
      }
    }
  }

  lemma ListedMeans(t: Target, word: string, items: seq<Cfg>)
    ensures var e := Listed(word, items);
      Combine(word, Meanings(t, items)) == if e.Ok? then Ok(Meaning(t, e.value)) else Err(e.error)
  {
    var values := Meanings(t, items);
    assert forall i :: 0 <= i < |items| ==> values[i] == Meaning(t, items[i]);
  }

  lemma {:induction false} JudgeListIsMeaning(t: Target, tokens: seq<Token>, at: nat, word: string)
    requires at <= |tokens|
    ensures var r := ParseList(tokens, at, word);
      JudgeList(t, tokens, at, word) == if r.Ok? then Ok((Meanings(t, r.value.0), r.value.1)) else Err(r.error)
    decreases |tokens| - at, 1
  {
    if at < |tokens| && tokens[at] == Close {
      assert Meanings(t, []) == [];
    } else {
      JudgeIsMeaning(t, tokens, at);
      var item := Parse(tokens, at);
      if item.Ok? {
        var next := AfterComma(tokens, item.value.1);
        if next < |tokens| {
          JudgeListIsMeaning(t, tokens, next, word);
          var rest := ParseList(tokens, next, word);
          if rest.Ok? {
            assert Meanings(t, [item.value.0] + rest.value.0) == [Meaning(t, item.value.0)] + Meanings(t, rest.value.0);
          }
        }
      }
    }
  }

  // --------------------------------------------------------------- writing

  /** How an expression is written. */
  function Tokens(e: Cfg): (tokens: seq<Token>)
    ensures tokens != [] && tokens[0].Word?
    decreases e, 1
  {
    match e
    case All(items) => [Word("all"), Open] + ItemTokens(items) + [Close]
    case Any(items) => [Word("any"), Open] + ItemTokens(items) + [Close]
    case Not(item) => [Word("not"), Open] + Tokens(item) + [Close]
    case Name(name) => [Word(name)]
    case KeyValue(name, value) => [Word(name), Equals, Text(value)]
  }

  function ItemTokens(items: seq<Cfg>): (tokens: seq<Token>)
    ensures items == [] <==> tokens == []
    ensures items != [] ==> tokens[0].Word?
    decreases items, 0
  {
    if items == [] then []
    else Tokens(items[0]) + (if |items| == 1 then [] else [Comma] + ItemTokens(items[1..]))
  }

  ghost predicate At(tokens: seq<Token>, at: nat, part: seq<Token>) {
    at + |part| <= |tokens| && tokens[at..at + |part|] == part
  }

  lemma AtPart(tokens: seq<Token>, at: nat, a: seq<Token>, b: seq<Token>)
    ensures At(tokens, at, a + b) <==> At(tokens, at, a) && At(tokens, at + |a|, b)
  {
    if At(tokens, at, a + b) {
      assert tokens[at..at + |a|] == (a + b)[..|a|];
      assert tokens[at + |a|..at + |a| + |b|] == (a + b)[|a|..];
    }
    if At(tokens, at, a) && At(tokens, at + |a|, b) {
      assert tokens[at..at + |a| + |b|] == tokens[at..at + |a|] + tokens[at + |a|..at + |a| + |b|];
    }
  }

  /** An expression is over at the end, a comma or a parenthesis. */
  ghost predicate Over(tokens: seq<Token>, at: nat) {
    at < |tokens| ==> tokens[at] in {Comma, Close}
  }

  /** What is written is read back. */
  lemma {:induction false} ParseReadsTokens(e: Cfg, tokens: seq<Token>, at: nat, end: nat)
    requires At(tokens, at, Tokens(e)) && end == at + |Tokens(e)| && Over(tokens, end)
    ensures Parse(tokens, at) == Ok((e, end))
    decreases |Tokens(e)|, 0
  {
    match e {
      case Name(name) => ReadsName(name, tokens, at);
      case KeyValue(name, value) => ReadsKeyValue(name, value, tokens, at);
      case All(items) => ReadsList("all", items, e, tokens, at, end);
      case Any(items) => ReadsList("any", items, e, tokens, at, end);
      case Not(item) =>
        OneItemTokens(item);
        ReadsList("not", [item], e, tokens, at, end);
    }
  }

  lemma {:induction false} ReadsList(word: string, items: seq<Cfg>, e: Cfg, tokens: seq<Token>, at: nat, end: nat)
    requires word in {"all", "any", "not"} && Listed(word, items) == Ok(e)
    requires At(tokens, at, [Word(word), Open] + ItemTokens(items) + [Close]) && end == at + 3 + |ItemTokens(items)|
    ensures Parse(tokens, at) == Ok((e, end))
    decreases |ItemTokens(items)|, 4
  {
    ListReadsTokens(word, items, tokens, at);
    ListParsed(word, items, e, tokens, at, end);
  }

  lemma ListParsed(word: string, items: seq<Cfg>, e: Cfg, tokens: seq<Token>, at: nat, end: nat)
    requires IsList(tokens, at) && tokens[at] == Word(word) && ParseList(tokens, at + 2, word) == Ok((items, end))
    requires Listed(word, items) == Ok(e)
    ensures Parse(tokens, at) == Ok((e, end))
  {
  }

  lemma ReadsName(name: string, tokens: seq<Token>, at: nat)
    requires At(tokens, at, Tokens(Name(name))) && Over(tokens, at + 1)
    ensures Parse(tokens, at) == Ok((Name(name), at + 1))
  {
    assert tokens[at..at + 1][0] == tokens[at];
  }

  lemma OneItemTokens(item: Cfg)
    ensures ItemTokens([item]) == Tokens(item)
  {
    assert Tokens(item) + [] == Tokens(item);
  }

  lemma ReadsKeyValue(name: string, value: string, tokens: seq<Token>, at: nat)
    requires At(tokens, at, Tokens(KeyValue(name, value)))
    ensures Parse(tokens, at) == Ok((KeyValue(name, value), at + 3))
  {
    var slice := tokens[at..at + 3];
    assert slice[0] == tokens[at] && slice[1] == tokens[at + 1] && slice[2] == tokens[at + 2];
  }

  lemma {:induction false} ListReadsTokens(word: string, items: seq<Cfg>, tokens: seq<Token>, at: nat)
    requires word in {"all", "any", "not"}
    requires At(tokens, at, [Word(word), Open] + ItemTokens(items) + [Close])
    ensures IsList(tokens, at) && tokens[at] == Word(word)
    ensures ParseList(tokens, at + 2, word) == Ok((items, at + 3 + |ItemTokens(items)|))
    decreases |ItemTokens(items)|, 3
  {
    var head := [Word(word), Open];
    AtPart(tokens, at, head + ItemTokens(items), [Close]);
    AtPart(tokens, at, head, ItemTokens(items));
    assert tokens[at..at + 2][0] == tokens[at] && tokens[at..at + 2][1] == tokens[at + 1];
    var end := at + 2 + |ItemTokens(items)|;
    assert tokens[end..end + 1][0] == tokens[end];
    ItemsReadTokens(items, ItemTokens(items), tokens, at + 2, end + 1, word);
  }

  lemma {:induction false} ItemsReadTokens(items: seq<Cfg>, part: seq<Token>, tokens: seq<Token>, at: nat, after: nat, word: string)
    requires part == ItemTokens(items) && At(tokens, at, part)
    requires after == at + |part| + 1 <= |tokens| && tokens[after - 1] == Close
    ensures ParseList(tokens, at, word) == Ok((items, after))
    decreases |part|, 2
  {
    if items == [] {
    } else if |items| == 1 {
      OnlyItem(items, part);
      OnlyItemReads(items[0], part, tokens, at, after - 1, after, word);
      assert [items[0]] == items;
    } else {
      var end := ItemsSplit(items, tokens, at);
      FirstItemReads(items[0], items[1..], tokens, at, end, after, word);
      assert [items[0]] + items[1..] == items;
    }
  }

  /** One item and nothing else. */
  lemma {:induction false} OnlyItemReads(item: Cfg, part: seq<Token>, tokens: seq<Token>, at: nat, end: nat, after: nat, word: string)
    requires part == Tokens(item) && At(tokens, at, part) && end == at + |part| < |tokens| && tokens[end] == Close
    requires after == end + 1
    ensures ParseList(tokens, at, word) == Ok(([item], after))
    decreases |part|, 1
  {
    ParseReadsTokens(item, tokens, at, end);
    LastItem([item], tokens, at, end, word);
  }

  /** One item, a comma, and the other items. */
  lemma {:induction false} FirstItemReads(item: Cfg, others: seq<Cfg>, tokens: seq<Token>, at: nat, end: nat, after: nat, word: string)
    requires At(tokens, at, Tokens(item)) && end == at + |Tokens(item)| < |tokens| && tokens[end] == Comma
    requires At(tokens, end + 1, ItemTokens(others))
    requires after == end + 2 + |ItemTokens(others)| <= |tokens| && tokens[after - 1] == Close
    ensures ParseList(tokens, at, word) == Ok(([item] + others, after))
    decreases |Tokens(item)| + 1 + |ItemTokens(others)|, 0
  {
    ParseReadsTokens(item, tokens, at, end);
    ItemsReadTokens(others, ItemTokens(others), tokens, end + 1, after, word);
    NextItem([item] + others, tokens, at, end, after, word);
  }

  /** The first of several items, its comma, and the others. */
  lemma ItemsSplit(items: seq<Cfg>, tokens: seq<Token>, at: nat) returns (end: nat)
    requires |items| > 1 && At(tokens, at, ItemTokens(items))
    ensures end == at + |Tokens(items[0])| && At(tokens, at, Tokens(items[0]))
    ensures end < |tokens| && tokens[end] == Comma && At(tokens, end + 1, ItemTokens(items[1..]))
    ensures |ItemTokens(items)| == |Tokens(items[0])| + 1 + |ItemTokens(items[1..])|
  {
    ItemsUnfold(items);
    AtSplit(tokens, at, Tokens(items[0]), Comma, ItemTokens(items[1..]));
    end := at + |Tokens(items[0])|;
  }

  lemma OnlyItem(items: seq<Cfg>, part: seq<Token>)
    requires |items| == 1 && part == ItemTokens(items)
    ensures part == Tokens(items[0])
  {
    assert Tokens(items[0]) + [] == Tokens(items[0]);
  }

  lemma ItemsUnfold(items: seq<Cfg>)
    requires |items| > 1
    ensures ItemTokens(items) == Tokens(items[0]) + ([Comma] + ItemTokens(items[1..]))
  {
  }

  lemma AtSplit(tokens: seq<Token>, at: nat, a: seq<Token>, x: Token, b: seq<Token>)
    requires At(tokens, at, a + ([x] + b))
    ensures At(tokens, at, a) && tokens[at + |a|] == x && At(tokens, at + |a| + 1, b)
  {
    AtPart(tokens, at, a, [x] + b);
    AtPart(tokens, at + |a|, [x], b);
    assert tokens[at + |a|..at + |a| + 1][0] == tokens[at + |a|];
  }

  lemma LastItem(items: seq<Cfg>, tokens: seq<Token>, at: nat, end: nat, word: string)
    requires |items| == 1 && Parse(tokens, at) == Ok((items[0], end)) && end < |tokens| && tokens[end] == Close
    ensures ParseList(tokens, at, word) == Ok((items, end + 1))
  {
    assert tokens[at].Word?;
    assert ParseList(tokens, end, word) == Ok(([], end + 1));
    assert [items[0]] + [] == items;
  }

  lemma NextItem(items: seq<Cfg>, tokens: seq<Token>, at: nat, end: nat, after: nat, word: string)
    requires items != [] && Parse(tokens, at) == Ok((items[0], end))
    requires end + 1 < |tokens| && tokens[end] == Comma && ParseList(tokens, end + 1, word) == Ok((items[1..], after))
    ensures ParseList(tokens, at, word) == Ok((items, after))
  {
    assert tokens[at].Word?;
    assert [items[0]] + items[1..] == items;
  }

  /** The tokens but for the commas. */
  function Bare(tokens: seq<Token>): seq<Token> {
    if tokens == [] then [] else (if tokens[0] == Comma then [] else [tokens[0]]) + Bare(tokens[1..])
  }

  lemma {:induction false} BareJoins(a: seq<Token>, b: seq<Token>)
    ensures Bare(a + b) == Bare(a) + Bare(b)
    decreases |a|
  {
    if a == [] {
      assert a + b == b;
    } else {
      assert (a + b)[1..] == a[1..] + b;
      BareJoins(a[1..], b);
    }
  }

  lemma BareSlice(tokens: seq<Token>, i: nat, j: nat, k: nat)
    requires i <= j <= k <= |tokens|
    ensures Bare(tokens[i..k]) == Bare(tokens[i..j]) + Bare(tokens[j..k])
  {
    assert tokens[i..k] == tokens[i..j] + tokens[j..k];
    BareJoins(tokens[i..j], tokens[j..k]);
  }

  /** Only what is written as an expression, commas apart, is read as one. */
  lemma {:induction false} ParsedIsWritten(tokens: seq<Token>, at: nat, e: Cfg, after: nat)
    requires Parse(tokens, at) == Ok((e, after))
    ensures Bare(tokens[at..after]) == Bare(Tokens(e))
    decreases |tokens| - at, 0
  {
    if IsList(tokens, at) {
      var word := tokens[at].text;
      var (items, end) := ParseList(tokens, at + 2, word).value;
      ListIsWritten(tokens, at + 2, word, items, end);
      BareSlice(tokens, at, at + 2, after);
      assert tokens[at..at + 2] == [Word(word), Open];
      ListedTokens(word, items, e);
    } else {
      assert tokens[at..after] == Tokens(e);
    }
  }

  lemma ListedTokens(word: string, items: seq<Cfg>, e: Cfg)
    requires word in {"all", "any", "not"} && Listed(word, items) == Ok(e)
    ensures Bare(Tokens(e)) == Bare([Word(word), Open]) + (Bare(ItemTokens(items)) + [Close])
  {
    var head := [Word(word), Open];
    if e.Not? {
      assert items == [e.item];
      OnlyItem(items, ItemTokens(items));
    }
    assert Tokens(e) == head + ItemTokens(items) + [Close];
    BareJoins(head + ItemTokens(items), [Close]);
    BareJoins(head, ItemTokens(items));
  }

  lemma {:induction false} ListIsWritten(tokens: seq<Token>, at: nat, word: string, items: seq<Cfg>, after: nat)
    requires at <= |tokens| && ParseList(tokens, at, word) == Ok((items, after))
    ensures Bare(tokens[at..after]) == Bare(ItemTokens(items)) + [Close]
    decreases |tokens| - at, 1
  {
    if tokens[at] == Close {
      assert tokens[at..after] == [Close];
    } else {
      var (item, end) := Parse(tokens, at).value;
      ParsedIsWritten(tokens, at, item, end);
      var next := AfterComma(tokens, end);
      var (others, last) := ParseList(tokens, next, word).value;
      ListIsWritten(tokens, next, word, others, last);
      assert items == [item] + others && after == last;
      BareSlice(tokens, at, end, after);
      BareSlice(tokens, end, next, after);
      assert Bare(tokens[end..next]) == [] by {
        if next == end + 1 { assert tokens[end..next] == [Comma]; }
      }
      ItemsBare(item, others);
    }
  }

  lemma ItemsBare(item: Cfg, items: seq<Cfg>)
    ensures Bare(ItemTokens([item] + items)) == Bare(Tokens(item)) + Bare(ItemTokens(items))
  {
    var all := [item] + items;
    assert all[1..] == items;
    if items == [] {
      assert ItemTokens(all) == Tokens(item) + [];
      BareJoins(Tokens(item), []);
    } else {
      BareJoins(Tokens(item), [Comma] + ItemTokens(items));
      BareJoins([Comma], ItemTokens(items));
    }
  }

  // -------------------------------------------------------------- spelling

  function Spell(token: Token): string {
    match token
    case Word(text) => text
    case Text(value) => "\"" + value + "\""
    case Open => "("
    case Close => ")"
    case Comma => ","
    case Equals => "="
  }

  predicate IsBlanks(text: string) { forall i :: 0 <= i < |text| ==> IsBlank(text[i]) }

  ghost predicate Spellable(more: set<char>, token: Token) {
    match token
    case Word(text) => text != "" && forall i :: 0 <= i < |text| ==> IsWordChar(more, text[i])
    case Text(value) => '"' !in value
    case _ => true
  }

  /** The tokens with `gaps` before, between and after them. */
  function Spelled(tokens: seq<Token>, gaps: seq<string>): string
    requires |gaps| == |tokens| + 1
  {
    if tokens == [] then gaps[0] else gaps[0] + (Spell(tokens[0]) + Spelled(tokens[1..], gaps[1..]))
  }

  /** Gaps of blanks that keep words apart. */
  ghost predicate Apart(tokens: seq<Token>, gaps: seq<string>) {
    && |gaps| == |tokens| + 1
    && (forall i :: 0 <= i < |gaps| ==> IsBlanks(gaps[i]))
    && (forall i :: 0 <= i < |tokens| - 1 && tokens[i].Word? && tokens[i + 1].Word? ==> gaps[i + 1] != "")
  }

  lemma {:induction false} LexSkipsBlanks(more: set<char>, gap: string, text: string)
    requires IsBlanks(gap)
    ensures Lex(more, gap + text) == Lex(more, text)
    decreases |gap|
  {
    if gap == "" {
      assert gap + text == text;
    } else {
      assert (gap + text)[1..] == gap[1..] + text;
      LexSkipsBlanks(more, gap[1..], text);
    }
  }

  lemma {:induction false} WordEnds(more: set<char>, word: string, text: string)
    requires forall i :: 0 <= i < |word| ==> IsWordChar(more, word[i])
    requires text != "" ==> !IsWordChar(more, text[0])
    ensures WordLength(more, word + text) == |word|
    decreases |word|
  {
    if word == "" {
      assert word + text == text;
    } else {
      assert (word + text)[1..] == word[1..] + text;
      WordEnds(more, word[1..], text);
    }
  }

  lemma LexReadsOne(more: set<char>, token: Token, text: string)
    requires Spellable(more, token) && (token.Word? && text != "" ==> !IsWordChar(more, text[0]))
    ensures Lex(more, Spell(token) + text) == Then(token, Lex(more, text))
  {
    match token {
      case Word(word) => LexReadsWord(more, word, text);
      case Text(value) => LexReadsText(more, value, text);
      case _ => assert (Spell(token) + text)[1..] == text;
    }
  }

  lemma LexReadsWord(more: set<char>, word: string, text: string)
    requires Spellable(more, Word(word)) && (text != "" ==> !IsWordChar(more, text[0]))
    ensures Lex(more, word + text) == Then(Word(word), Lex(more, text))
  {
    var all := word + text;
    WordEnds(more, word, text);
    assert all[..|word|] == word && all[|word|..] == text;
    assert IsWordChar(more, all[0]);
  }

  lemma LexReadsText(more: set<char>, value: string, text: string)
    requires '"' !in value
    ensures Lex(more, "\"" + value + "\"" + text) == Then(Text(value), Lex(more, text))
  {
    var all := "\"" + value + "\"" + text;
    assert all[1..] == value + ['"'] + text;
    SplitAtFirst(value, '"', text);
  }

  /** Reading the tokens of what was spelled gives them back. */
  lemma {:induction false} LexReadsSpelled(more: set<char>, tokens: seq<Token>, gaps: seq<string>)
    requires Apart(tokens, gaps) && forall i :: 0 <= i < |tokens| ==> Spellable(more, tokens[i])
    ensures Lex(more, Spelled(tokens, gaps)) == Ok(tokens)
    decreases |tokens|
  {
    if tokens == [] {
      LexSkipsBlanks(more, gaps[0], "");
      assert gaps[0] + "" == gaps[0];
    } else {
      var rest := Spelled(tokens[1..], gaps[1..]);
      ApartAfter(tokens, gaps);
      LexReadsSpelled(more, tokens[1..], gaps[1..]);
      LexSkipsBlanks(more, gaps[0], Spell(tokens[0]) + rest);
      if tokens[0].Word? { SpelledStart(more, tokens, gaps); }
      LexReadsOne(more, tokens[0], rest);
      assert [tokens[0]] + tokens[1..] == tokens;
    }
  }

  lemma ApartAfter(tokens: seq<Token>, gaps: seq<string>)
    requires Apart(tokens, gaps) && tokens != []
    ensures Apart(tokens[1..], gaps[1..])
  {
    forall i | 0 <= i < |tokens[1..]| - 1 && tokens[1..][i].Word? && tokens[1..][i + 1].Word?
      ensures gaps[1..][i + 1] != ""
    {
      assert tokens[i + 1].Word? && tokens[i + 2].Word?;
    }
  }

  lemma SpelledStart(more: set<char>, tokens: seq<Token>, gaps: seq<string>)
    requires Apart(tokens, gaps) && tokens != [] && tokens[0].Word?
    requires forall i :: 0 <= i < |tokens| ==> Spellable(more, tokens[i])
    ensures var rest := Spelled(tokens[1..], gaps[1..]); rest != "" ==> !IsWordChar(more, rest[0])
  {
    var rest := Spelled(tokens[1..], gaps[1..]);
    if gaps[1] != "" && rest != "" {
      assert rest[0] == gaps[1][0];
    } else if |tokens| > 1 {
      assert !tokens[1].Word?;
      assert rest[0] == Spell(tokens[1])[0];
    }
  }

  // --------------------------------------------------------------- matches

  function Trim(text: string): string { TrimEnd(TrimStart(text)) }

  /** The expression of a `cfg(…)` platform. */
  function Inside(platform: string): Option<string> {
    if StartsWith(platform, "cfg(") && |platform| > 4 && platform[|platform| - 1] == ')'
    then Some(platform[4..|platform| - 1]) else None
  }

  function Applies(t: Target, given: string): Result<bool, Error> {
    match Inside(Trim(given))
    case None => Ok(Trim(given) == t.triple)
    case Some(expression) => Whole(t, Lex(t.more, expression))
  }

  /** The imperative reading of a platform, proved to be `Applies`. */
  method Matches(t: Target, given: string) returns (result: Result<bool, Error>)
    ensures result == Applies(t, given)
  {
    var platform := Trim(given);
    match Inside(platform) {
      case Some(expression) =>
        var tokens := Tokenize(t.more, expression);
        if tokens.Err? { return Err(tokens.error); }
        var value := Expression(t, tokens.value, 0);
        if value.Err? { return Err(value.error); }
        if value.value.1 != |tokens.value| { return Err(WordsAfter); }
        return Ok(value.value.0);
      case None => return Ok(platform == t.triple);
    }
  }

  /** The truth of an expression that uses all its tokens. */
  function Whole(t: Target, tokens: Result<seq<Token>, Error>): Result<bool, Error> {
    if tokens.Err? then Err(tokens.error)
    else
      var r := Judge(t, tokens.value, 0);
      if r.Err? then Err(r.error)
      else if r.value.1 != |tokens.value| then Err(WordsAfter)
      else Ok(r.value.0)
  }

  lemma {:induction false} TrimStartSkips(gap: string, text: string)
    requires (forall i :: 0 <= i < |gap| ==> IsWhite(gap[i])) && text != "" && !IsWhite(text[0])
    ensures TrimStart(gap + text) == text
    decreases |gap|
  {
    if gap == "" {
      assert gap + text == text;
    } else {
      assert (gap + text)[1..] == gap[1..] + text;
      TrimStartSkips(gap[1..], text);
    }
  }

  lemma {:induction false} TrimEndSkips(text: string, gap: string)
    requires (forall i :: 0 <= i < |gap| ==> IsWhite(gap[i])) && text != "" && !IsWhite(text[|text| - 1])
    ensures TrimEnd(text + gap) == text
    decreases |gap|
  {
    if gap == "" {
      assert text + gap == text;
    } else {
      var all := text + gap;
      assert all[..|all| - 1] == text + gap[..|gap| - 1];
      TrimEndSkips(text, gap[..|gap| - 1]);
    }
  }

  /** Legal names and quotable values throughout. */
  ghost predicate Writable(more: set<char>, e: Cfg) {
    forall i :: 0 <= i < |Tokens(e)| ==> Spellable(more, Tokens(e)[i])
  }

  /** A written `cfg(…)` matches exactly when the expression is true of the
      target, however its tokens are spaced. */
  lemma MatchesIsMeaning(t: Target, e: Cfg, gaps: seq<string>, before: string, after: string)
    requires Writable(t.more, e) && Apart(Tokens(e), gaps)
    requires (forall i :: 0 <= i < |before| ==> IsWhite(before[i])) && forall i :: 0 <= i < |after| ==> IsWhite(after[i])
    ensures var platform := before + "cfg(" + Spelled(Tokens(e), gaps) + ")" + after;
      Applies(t, platform) == Ok(Meaning(t, e))
  {
    var inner := Spelled(Tokens(e), gaps);
    var core := "cfg(" + inner + ")";
    var platform := before + "cfg(" + inner + ")" + after;
    assert platform == before + (core + after);
    assert core[0] == 'c' && (core + after)[0] == 'c' && core[|core| - 1] == ')';
    TrimStartSkips(before, core + after);
    TrimEndSkips(core, after);
    assert Trim(platform) == core;
    assert core[..4] == "cfg(" && core[4..|core| - 1] == inner;
    var tokens := Tokens(e);
    LexReadsSpelled(t.more, tokens, gaps);
    assert tokens[0..0 + |tokens|] == tokens;
    ParseReadsTokens(e, tokens, 0, |tokens|);
    JudgeIsMeaning(t, tokens, 0);
  }

  /** Whatever is accepted is, commas apart, the writing of an expression, and
      is judged by its meaning. */
  lemma AcceptedHasAMeaning(t: Target, text: string)
    requires Whole(t, Lex(t.more, text)).Ok?
    ensures Lex(t.more, text).Ok? && exists e :: Bare(Lex(t.more, text).value) == Bare(Tokens(e)) && Whole(t, Lex(t.more, text)) == Ok(Meaning(t, e))
  {
    var tokens := Lex(t.more, text).value;
    JudgeIsMeaning(t, tokens, 0);
    var (e, after) := Parse(tokens, 0).value;
    ParsedIsWritten(tokens, 0, e, after);
    assert tokens[0..after] == tokens;
    assert Whole(t, Lex(t.more, text)) == Ok(Meaning(t, e));
  }
}
