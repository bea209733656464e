/** The TOML reader (kompilator/src/toml.rs, `Reader` and `parse`), as
    functions of the text and the cursor. The reader moves over UTF-8 bytes;
    here it moves over the characters they encode, which it never splits. */
module Toml {
  import opened Common
  import opened Tables

  datatype Why =
    | TextAfterValue
    | KeyExpected
    | EscapeAtEnd
    | UnknownEscape(code: char)
    | NotHexadecimal
    | NoSuchCharacter
    | MultiLineNeverClosed
    | StringNeverClosed
    | LiteralNeverClosed
    | ArrayItem
    | NoEquals
    | InlineEntry
    | ValueExpected
    | HeaderNeverClosed
    | Building(trouble: Tables.Trouble)

  /** A reading: a value and where the cursor is after it, a refusal, or the
      slice out of range that stops the program. */
  datatype Outcome<+T> = Read(value: T, at: nat) | Refused(why: Why) | Crashed

  function Peek(text: string, at: nat): Option<char> {
    if at < |text| then Some(text[at]) else None
  }

  /** Whether the text goes on with `prefix`; the cursor lies in the text. */
  predicate Starts(text: string, at: nat, prefix: string)
    requires at <= |text|
  {
    |prefix| <= |text| - at && text[at..at + |prefix|] == prefix
  }

  lemma NotStarting(text: string, at: nat, prefix: string, i: nat)
    requires at + i < |text| && i < |prefix| && text[at + i] != prefix[i]
    ensures !Starts(text, at, prefix)
  {
    if |prefix| <= |text| - at { assert text[at..at + |prefix|][i] == text[at + i]; }
  }

  function Min(a: nat, b: nat): nat { if a <= b then a else b }

  // ---------------------------------------------------------------- spaces

  predicate IsBlank(c: char) { c == ' ' || c == '\t' }

  predicate IsSpace(c: char) { IsBlank(c) || c == '\r' || c == '\n' }

  function Blank(text: string, at: nat): (r: nat)
    ensures at <= r && (at <= |text| ==> r <= |text|) && (r < |text| ==> !IsBlank(text[r]))
    decreases |text| - at
  {
    if at < |text| && IsBlank(text[at]) then Blank(text, at + 1) else at
  }

  /** The end of the line the cursor is in. */
  function LineEnd(text: string, at: nat): (r: nat)
    ensures at <= r && (at <= |text| ==> r <= |text|) && (r < |text| ==> text[r] == '\n')
    decreases |text| - at
  {
    if at < |text| && text[at] != '\n' then LineEnd(text, at + 1) else at
  }

  /** Past spaces, line ends and comments. */
  function Space(text: string, at: nat): (r: nat)
    ensures at <= r && (at <= |text| ==> r <= |text|) && (r < |text| ==> !IsSpace(text[r]) && text[r] != '#')
    decreases |text| - at
  {
    if at < |text| && IsSpace(text[at]) then Space(text, at + 1)
    else if at < |text| && text[at] == '#' then Space(text, LineEnd(text, at))
    else at
  }

  function EndOfLine(text: string, at: nat): (r: Outcome<()>)
    requires at <= |text|
    ensures !r.Crashed? && (r.Read? ==> at <= r.at <= |text|)
  {
    var b := Blank(text, at);
    var e := if Peek(text, b) == Some('#') then LineEnd(text, b) else b;
    if e == |text| || text[e] == '\n' || (text[e] == '\r' && Peek(text, e + 1) == Some('\n')) then Read((), e)
    else Refused(TextAfterValue)
  }

  // --------------------------------------------------------------- escapes

  function HexDigit(c: char): (r: Option<nat>)
    ensures r.Some? ==> r.value < 16
  {
    if '0' <= c <= '9' then Some(c as int - '0' as int)
    else if 'a' <= c <= 'f' then Some(c as int - 'a' as int + 10)
    else if 'A' <= c <= 'F' then Some(c as int - 'A' as int + 10)
    else None
  }

  function Hexadecimal(digits: string): Option<nat> {
    if digits == "" then Some(0)
    else
      var high := Hexadecimal(digits[..|digits| - 1]);
      var low := HexDigit(digits[|digits| - 1]);
      if high.Some? && low.Some? then Some(16 * high.value + low.value) else None
  }

  /** Base 16 as Rust reads an unsigned number: a plus sign may come first. */
  function Radix16(digits: string): Option<nat> {
    var rest := if digits != "" && digits[0] == '+' then digits[1..] else digits;
    if rest == "" then None else Hexadecimal(rest)
  }

  predicate IsCharacter(n: nat) { n < 0xD800 || 0xE000 <= n < 0x11_0000 }

  function Width(code: char): nat { if code == 'u' then 4 else 8 }

  /** The text ends inside the digits of an escape at `i`. */
  predicate CutAt(text: string, i: nat) {
    && i + 1 < |text| && text[i] == '\\' && (text[i + 1] == 'u' || text[i + 1] == 'U')
    && |text| < i + 2 + Width(text[i + 1])
    && Radix16(text[i + 2..]).Some? && IsCharacter(Radix16(text[i + 2..]).value)
  }

  /** Past spaces and line ends. */
  function Trimmed(text: string, at: nat): (r: nat)
    ensures at <= r && (at <= |text| ==> r <= |text|)
    decreases |text| - at
  {
    if at < |text| && IsSpace(text[at]) then Trimmed(text, at + 1) else at
  }

  /** The characters an escape stands for; the cursor is after its backslash.
      After digits cut short by the end, it lies past the end. */
  function Escape(text: string, at: nat): (r: Outcome<string>)
    requires at <= |text|
    ensures !r.Crashed? && (r.Read? ==> at < r.at)
    ensures r.Read? && r.at > |text| && at > 0 && text[at - 1] == '\\' ==> CutAt(text, at - 1)
  {
    if at == |text| then Refused(EscapeAtEnd)
    else
      var code := text[at];
      if code == 'n' then Read("\n", at + 1)
      else if code == 't' then Read("\t", at + 1)
      else if code == 'r' then Read("\r", at + 1)
      else if code == 'b' then Read("\U{8}", at + 1)
      else if code == 'f' then Read("\U{c}", at + 1)
      else if code == '"' then Read("\"", at + 1)
      else if code == '\\' then Read("\\", at + 1)
      else if code == 'u' || code == 'U' then
        var value := Radix16(text[at + 1..Min(at + 1 + Width(code), |text|)]);
        if value.None? then Refused(NotHexadecimal)
        else if !IsCharacter(value.value) then Refused(NoSuchCharacter)
        else
          assert at + 1 + Width(code) > |text| ==> text[at + 1..Min(at + 1 + Width(code), |text|)] == text[at + 1..];
          Read([value.value as char], at + 1 + Width(code))
      else if IsSpace(code) then Read("", Trimmed(text, at + 1))
      else Refused(UnknownEscape(code))
  }

  // --------------------------------------------------------------- strings

  const QUOTES := "\"\"\""
  const APOSTROPHES := "\'\'\'"

  /** After the opening marks of a multi-line string, at most one line end. */
  function AfterOpening(text: string, at: nat): (r: nat)
    requires at <= |text|
    ensures at <= r <= |text|
  {
    if Peek(text, at) == Some('\n') then at + 1
    else if Starts(text, at, "\r\n") then at + 2
    else at
  }

  /** The rest of a multi-line string. Looking for its end past the end of the
      text stops the program. */
  function MultiLine(text: string, at: nat, out: string): (r: Outcome<string>)
    ensures r.Read? ==> at < r.at <= |text|
    decreases if at <= |text| then |text| - at + 1 else 0
  {
    if at > |text| then Crashed
    else if Starts(text, at, QUOTES) && !Starts(text, at, QUOTES + "\"") then Read(out, at + 3)
    else if at == |text| then Refused(MultiLineNeverClosed)
    else if text[at] == '\\' then
      match Escape(text, at + 1)
      case Read(more, next) => MultiLine(text, next, out + more)
      case Refused(why) => Refused(why)
      case Crashed => Crashed
    else MultiLine(text, at + 1, out + [text[at]])
  }

  /** The rest of a one-line string. */
  function OneLine(text: string, at: nat, out: string): (r: Outcome<string>)
    ensures !r.Crashed? && (r.Read? ==> at < r.at <= |text|)
    decreases if at <= |text| then |text| - at + 1 else 0
  {
    if at >= |text| || text[at] == '\n' then Refused(StringNeverClosed)
    else if text[at] == '"' then Read(out, at + 1)
    else if text[at] == '\\' then
      match Escape(text, at + 1)
      case Read(more, next) => OneLine(text, next, out + more)
      case Refused(why) => Refused(why)
      case Crashed => Crashed
    else OneLine(text, at + 1, out + [text[at]])
  }

  function BasicString(text: string, at: nat): (r: Outcome<string>)
    requires at < |text|
    ensures r.Read? ==> at < r.at <= |text|
  {
    if Starts(text, at, QUOTES) then MultiLine(text, AfterOpening(text, at + 3), "")
    else OneLine(text, at + 1, "")
  }

  function LiteralMultiLine(text: string, start: nat, at: nat): (r: Outcome<string>)
    requires start <= at <= |text|
    ensures !r.Crashed? && (r.Read? ==> at < r.at <= |text|)
    decreases |text| - at
  {
    if Starts(text, at, APOSTROPHES) && !Starts(text, at, APOSTROPHES + "\'") then Read(text[start..at], at + 3)
    else if at == |text| then Refused(LiteralNeverClosed)
    else LiteralMultiLine(text, start, at + 1)
  }

  function LiteralOneLine(text: string, start: nat, at: nat): (r: Outcome<string>)
    requires start <= at <= |text|
    ensures !r.Crashed? && (r.Read? ==> at < r.at <= |text|)
    decreases |text| - at
  {
    if at == |text| || text[at] == '\n' then Refused(LiteralNeverClosed)
    else if text[at] == '\'' then Read(text[start..at], at + 1)
    else LiteralOneLine(text, start, at + 1)
  }

  function LiteralString(text: string, at: nat): (r: Outcome<string>)
    requires at < |text|
    ensures !r.Crashed? && (r.Read? ==> at < r.at <= |text|)
  {
    if Starts(text, at, APOSTROPHES) then
      var start := AfterOpening(text, at + 3);
      LiteralMultiLine(text, start, start)
    else LiteralOneLine(text, at + 1, at + 1)
  }

  // ------------------------------------------------------------------ keys

  predicate IsBare(c: char) {
    'A' <= c <= 'Z' || 'a' <= c <= 'z' || '0' <= c <= '9' || c == '_' || c == '-'
  }

  function BareEnd(text: string, at: nat): (r: nat)
    requires at <= |text|
    ensures at <= r <= |text|
    decreases |text| - at
  {
    if at < |text| && IsBare(text[at]) then BareEnd(text, at + 1) else at
  }

  function KeyPart(text: string, at: nat): (r: Outcome<string>)
    requires at <= |text|
    ensures r.Read? ==> at < r.at <= |text|
  {
    var b := Blank(text, at);
    if Peek(text, b) == Some('"') then BasicString(text, b)
    else if Peek(text, b) == Some('\'') then LiteralString(text, b)
    else
      var e := BareEnd(text, b);
      if b == e then Refused(KeyExpected) else Read(text[b..e], e)
  }

  /** The further parts of a dotted key; the cursor is past blanks. */
  function KeyParts(text: string, at: nat, parts: seq<string>): (r: Outcome<seq<string>>)
    requires at <= |text|
    ensures r.Read? ==> at <= r.at <= |text| && parts <= r.value
    decreases |text| - at
  {
    if Peek(text, at) != Some('.') then Read(parts, at)
    else match KeyPart(text, at + 1)
      case Read(part, next) => KeyParts(text, Blank(text, next), parts + [part])
      case Refused(why) => Refused(why)
      case Crashed => Crashed
  }

  function ReadKey(text: string, at: nat): (r: Outcome<seq<string>>)
    requires at <= |text|
    ensures r.Read? ==> at < r.at <= |text| && r.value != []
  {
    match KeyPart(text, at)
    case Read(part, next) => KeyParts(text, Blank(text, next), [part])
    case Refused(why) => Refused(why)
    case Crashed => Crashed
  }

  // ----------------------------------------------------------------- words

  function WithoutUnderscores(word: string): string {
    if word == "" then ""
    else (if word[0] == '_' then "" else [word[0]]) + WithoutUnderscores(word[1..])
  }

  predicate IsDigit(c: char) { '0' <= c <= '9' }

  function Decimal(digits: string): Option<nat> {
    if digits == "" then Some(0)
    else
      var high := Decimal(digits[..|digits| - 1]);
      var last := digits[|digits| - 1];
      if high.Some? && IsDigit(last) then Some(10 * high.value + (last as int - '0' as int)) else None
  }

  predicate FitsInteger(n: int) { -0x8000_0000_0000_0000 <= n < 0x8000_0000_0000_0000 }

  predicate Signed(word: string) { word != "" && (word[0] == '+' || word[0] == '-') }

  function ParseInteger(word: string): (r: Option<int>)
    ensures r.Some? ==> FitsInteger(r.value) && word != ""
  {
    var digits := if Signed(word) then word[1..] else word;
    if digits == "" then None
    else match Decimal(digits)
      case None => None
      case Some(n) =>
        var value: int := if word[0] == '-' then 0 - n else n;
        if FitsInteger(value) then Some(value) else None
  }

  function DigitRun(word: string): (n: nat)
    ensures n <= |word|
  {
    if word != "" && IsDigit(word[0]) then 1 + DigitRun(word[1..]) else 0
  }

  function Lower(word: string): string {
    if word == "" then ""
    else [if 'A' <= word[0] <= 'Z' then word[0] - 'A' + 'a' else word[0]] + Lower(word[1..])
  }

  predicate IsExponent(word: string) {
    word != "" && (word[0] == 'e' || word[0] == 'E') &&
    var digits := if Signed(word[1..]) then word[2..] else word[1..];
    digits != "" && DigitRun(digits) == |digits|
  }

  predicate IsFloat(word: string) {
    var body := if Signed(word) then word[1..] else word;
    var whole := DigitRun(body);
    var point := whole < |body| && body[whole] == '.';
    var fraction := if point then DigitRun(body[whole + 1..]) else 0;
    var rest := if point then body[whole + 1 + fraction..] else body[whole..];
    || Lower(body) == "inf" || Lower(body) == "infinity" || Lower(body) == "nan"
    || (whole + fraction > 0 && (rest == "" || IsExponent(rest)))
  }

  predicate EndsWord(c: char) {
    c == ',' || c == ']' || c == '}' || c == '\n' || c == '\r' || c == '#'
  }

  function WordEnd(text: string, at: nat): (r: nat)
    requires at <= |text|
    ensures at <= r <= |text|
    decreases |text| - at
  {
    if at < |text| && !EndsWord(text[at]) then WordEnd(text, at + 1) else at
  }

  /** What an unquoted word is: an integer, a float, else its text. */
  function Meant(word: string): Option<Value> {
    var clean := WithoutUnderscores(TrimEnd(TrimStart(word)));
    var integer := ParseInteger(clean);
    if integer.Some? then Some(Integer(integer.value))
    else if IsFloat(clean) then Some(Float(clean))
    else if clean == "" then None
    else Some(Text(clean))
  }

  function Word(text: string, at: nat): (r: Outcome<Value>)
    requires at < |text|
    ensures !r.Crashed? && (r.Read? ==> at < r.at <= |text|)
  {
    var e := WordEnd(text, at);
    match Meant(text[at..e])
    case None => Refused(ValueExpected)
    case Some(value) => Read(value, e)
  }

  // ---------------------------------------------------------------- values

  function AsText(r: Outcome<string>): Outcome<Value> {
    match r
    case Read(text, at) => Read(Text(text), at)
    case Refused(why) => Refused(why)
    case Crashed => Crashed
  }

  function ReadValue(text: string, at: nat): (r: Outcome<Value>)
    requires at <= |text|
    ensures r.Read? ==> at < r.at <= |text|
    decreases |text| - at, 0
  {
    var b := Blank(text, at);
    if b == |text| then Refused(ValueExpected)
    else if text[b] == '"' then AsText(BasicString(text, b))
    else if text[b] == '\'' then AsText(LiteralString(text, b))
    else if text[b] == '[' then Items(text, b + 1, [])
    else if text[b] == '{' then Fields(text, b + 1, map[])
    else if Starts(text, b, "true") then Read(Boolean(true), b + 4)
    else if Starts(text, b, "false") then Read(Boolean(false), b + 5)
    else Word(text, b)
  }

  /** The further items of an array. */
  function Items(text: string, at: nat, items: seq<Value>): (r: Outcome<Value>)
    requires at <= |text|
    ensures r.Read? ==> at < r.at <= |text|
    decreases |text| - at, 1
  {
    var s := Space(text, at);
    if Peek(text, s) == Some(']') then Read(Array(items), s + 1)
    else match ReadValue(text, s)
      case Refused(why) => Refused(why)
      case Crashed => Crashed
      case Read(item, next) => AfterItem(text, next, items + [item])
  }

  /** After an item: a comma, or the end of the array. */
  function AfterItem(text: string, at: nat, items: seq<Value>): (r: Outcome<Value>)
    requires at <= |text|
    ensures r.Read? ==> at < r.at <= |text|
    decreases |text| - at, 2
  {
    var e := Space(text, at);
    if Peek(text, e) == Some(',') then Items(text, e + 1, items)
    else if Peek(text, e) == Some(']') then Read(Array(items), e + 1)
    else Refused(ArrayItem)
  }

  /** The further entries of an inline table. */
  function Fields(text: string, at: nat, entries: Entries): (r: Outcome<Value>)
    requires at <= |text|
    ensures r.Read? ==> at < r.at <= |text|
    decreases |text| - at, 1
  {
    var s := Blank(text, at);
    if Peek(text, s) == Some('}') then Read(Table(entries), s + 1)
    else match Assignment(text, s)
      case Refused(why) => Refused(why)
      case Crashed => Crashed
      case Read((key, value), next) =>
        (match Insert(entries, key, value)
         case Err(why) => Refused(Building(why))
         case Ok(entries') => AfterField(text, next, entries'))
  }

  /** After an entry: a comma, or the end of the table. */
  function AfterField(text: string, at: nat, entries: Entries): (r: Outcome<Value>)
    requires at <= |text|
    ensures r.Read? ==> at < r.at <= |text|
    decreases |text| - at, 2
  {
    var e := Blank(text, at);
    if Peek(text, e) == Some(',') then Fields(text, e + 1, entries)
    else if Peek(text, e) == Some('}') then Read(Table(entries), e + 1)
    else Refused(InlineEntry)
  }

  function Assigned(key: seq<string>, r: Outcome<Value>): Outcome<(seq<string>, Value)> {
    match r
    case Refused(why) => Refused(why)
    case Crashed => Crashed
    case Read(value, end) => Read((key, value), end)
  }

  /** A key, an equals sign and a value. */
  function Assignment(text: string, at: nat): (r: Outcome<(seq<string>, Value)>)
    requires at <= |text|
    ensures r.Read? ==> at < r.at <= |text| && r.value.0 != []
    decreases |text| - at, 0
  {
    match ReadKey(text, at)
    case Refused(why) => Refused(why)
    case Crashed => Crashed
    case Read(key, next) => SetTo(text, Blank(text, next), key)
  }

  /** The equals sign after a key, and the value. */
  function SetTo(text: string, at: nat, key: seq<string>): (r: Outcome<(seq<string>, Value)>)
    requires at <= |text|
    ensures r.Read? ==> at < r.at <= |text| && r.value.0 == key
    decreases |text| - at, 0
  {
    if Peek(text, at) != Some('=') then Refused(NoEquals)
    else Assigned(key, ReadValue(text, at + 1))
  }

  // ------------------------------------------------------------- documents

  /** The end of a table header, to the end of its line. */
  function HeaderEnd(text: string, at: nat, path: seq<string>, many: bool): (r: Outcome<Statement>)
    requires at <= |text|
    ensures r.Read? ==> at < r.at <= |text|
    ensures !r.Crashed?
  {
    var b := Blank(text, at);
    var close := if many then "]]" else "]";
    if !Starts(text, b, close) then Refused(HeaderNeverClosed)
    else match EndOfLine(text, b + |close|)
      case Refused(why) => Refused(why)
      case Crashed => Crashed
      case Read(_, end) => Read(Header(path, many), end)
  }

  /** A table header; the cursor is on its first bracket. */
  function ReadHeader(text: string, at: nat): (r: Outcome<Statement>)
    requires at < |text| && text[at] == '['
    ensures r.Read? ==> at < r.at <= |text|
  {
    var many := Starts(text, at, "[[");
    match ReadKey(text, at + if many then 2 else 1)
    case Refused(why) => Refused(why)
    case Crashed => Crashed
    case Read(path, next) => HeaderEnd(text, next, path, many)
  }

  /** The next table header or line; the cursor is on its first character. */
  function ReadStatement(text: string, at: nat): (r: Outcome<Statement>)
    requires at < |text|
    ensures r.Read? ==> at < r.at <= |text|
  {
    if text[at] == '[' then ReadHeader(text, at)
    else
      match Assignment(text, at)
      case Refused(why) => Refused(why)
      case Crashed => Crashed
      case Read((key, value), next) =>
        (match EndOfLine(text, next)
         case Refused(why) => Refused(why)
         case Crashed => Crashed
         case Read(_, end) => Read(Line(key, value), end))
  }

  /** The rest of a document, built into the tables so far. */
  function Document(text: string, at: nat, s: State): (r: Outcome<Entries>)
    requires at <= |text|
    decreases |text| - at
  {
    var start := Space(text, at);
    if start == |text| then Read(s.root, start)
    else match ReadStatement(text, start)
      case Refused(why) => Refused(why)
      case Crashed => Crashed
      case Read(statement, next) =>
        (match Apply(s, statement)
         case Err(why) => Refused(Building(why))
         case Ok(s') => Document(text, next, s'))
  }

  function Parse(text: string): (r: Outcome<Entries>)
  {
    Document(text, 0, State(map[], []))
  }
}
