/** Tables written as `key = value` lines are read back
    (kompilator/src/toml.rs, `parse`; TOML v1.0.0, "String", "Array" and
    "Inline Table"). */
module TomlRoundTrip {
  import opened Common
  import opened Tables
  import opened Toml

  // ------------------------------------------------------------- what is written

  /** A value as it is written: the entries of a table in some order. */
  datatype Item =
    | Str(text: string)
    | Num(number: int)
    | Flag(truth: bool)
    | List(items: seq<Item>)
    | Inline(fields: seq<Field>)

  datatype Field = Field(key: string, item: Item)

  function Meaning(item: Item): (v: Value) {
    match item
    case Str(text) => Text(text)
    case Num(n) => Integer(n)
    case Flag(b) => Boolean(b)
    case List(items) => Array(Meanings(items))
    case Inline(fields) => Table(Entered(fields))
  }

  function Meanings(items: seq<Item>): (values: seq<Value>)
    ensures |values| == |items|
  {
    if items == [] then [] else [Meaning(items[0])] + Meanings(items[1..])
  }

  function Entered(fields: seq<Field>): Entries {
    if fields == [] then map[] else Entered(fields[1..])[fields[0].key := Meaning(fields[0].item)]
  }

  /** Integers fit, and no key comes twice. */
  predicate Legal(item: Item) {
    match item
    case Num(n) => FitsInteger(n)
    case List(items) => AllLegal(items)
    case Inline(fields) => LegalFields(fields)
    case _ => true
  }

  predicate AllLegal(items: seq<Item>) {
    items == [] || (Legal(items[0]) && AllLegal(items[1..]))
  }

  predicate LegalFields(fields: seq<Field>) {
    fields == [] || (Legal(fields[0].item) && fields[0].key !in Entered(fields[1..]) && LegalFields(fields[1..]))
  }

  // ---------------------------------------------------------------- the text

  function HexChar(n: nat): char
    requires n < 16
  {
    if n < 10 then '0' + n as char else 'a' + (n - 10) as char
  }

  function Escaped(c: char): (r: string)
    ensures r != "" && r[0] != '"' && r[0] != '\n'
  {
    if c == '"' then "\\\""
    else if c == '\\' then "\\\\"
    else if c == '\n' then "\\n"
    else if c == '\t' then "\\t"
    else if c == '\r' then "\\r"
    else if c == '\U{8}' then "\\b"
    else if c == '\U{c}' then "\\f"
    else if c < ' ' || c == '\U{7f}' then "\\u00" + [HexChar(c as int / 16), HexChar(c as int % 16)]
    else [c]
  }

  function EscapedAll(text: string): string {
    if text == "" then "" else Escaped(text[0]) + EscapedAll(text[1..])
  }

  function Quoted(text: string): string { "\"" + EscapedAll(text) + "\"" }

  function Digits(n: nat): (r: string)
    ensures r != ""
  {
    if n < 10 then ['0' + n as char] else Digits(n / 10) + ['0' + (n % 10) as char]
  }

  function Number(n: int): string { if n < 0 then "-" + Digits(-n) else Digits(n) }

  predicate AllBare(key: string) { forall i :: 0 <= i < |key| ==> IsBare(key[i]) }

  function KeyText(key: string): string { if key != "" && AllBare(key) then key else Quoted(key) }

  function Print(item: Item): string {
    match item
    case Str(text) => Quoted(text)
    case Num(n) => Number(n)
    case Flag(b) => if b then "true" else "false"
    case List(items) => "[" + PrintItems(items) + "]"
    case Inline(fields) => "{" + PrintFields(fields) + "}"
  }

  function PrintItems(items: seq<Item>): string {
    if items == [] then ""
    else if |items| == 1 then Print(items[0])
    else Print(items[0]) + ", " + PrintItems(items[1..])
  }

  function PrintField(field: Field): string { KeyText(field.key) + " = " + Print(field.item) }

  function PrintFields(fields: seq<Field>): string {
    if fields == [] then ""
    else if |fields| == 1 then PrintField(fields[0])
    else PrintField(fields[0]) + ", " + PrintFields(fields[1..])
  }

  function PrintLines(fields: seq<Field>): string {
    if fields == [] then "" else PrintField(fields[0]) + "\n" + PrintLines(fields[1..])
  }

  // ------------------------------------------------------- pieces of a text

  /** `piece` lies at `at` and ends at `end`. */
  predicate Holds(text: string, at: nat, piece: string, end: nat) {
    at + |piece| == end <= |text| && text[at..end] == piece
  }

  lemma HoldsSplit(text: string, at: nat, a: string, b: string, end: nat)
    requires Holds(text, at, a + b, end)
    ensures Holds(text, at, a, at + |a|) && Holds(text, at + |a|, b, end)
  {
    var mid := at + |a|;
    assert text[at..mid] == text[at..end][..|a|];
    assert text[mid..end] == text[at..end][|a|..];
  }

  lemma HoldsFirst(text: string, at: nat, piece: string, end: nat)
    requires Holds(text, at, piece, end) && piece != ""
    ensures at < end && text[at] == piece[0] && Holds(text, at + 1, piece[1..], end)
  {
    assert text[at] == text[at..end][0];
    assert text[at + 1..end] == text[at..end][1..];
  }

  /** A mark of one to three characters stands between two pieces. */
  lemma Pieces(text: string, at: nat, first: string, mark: string, rest: string, end: nat, mid: nat)
    requires mid == at + |first| && 0 < |mark| <= 3 && Holds(text, at, first + mark + rest, end)
    ensures mid + |mark| <= end && Holds(text, at, first, mid) && Holds(text, mid + |mark|, rest, end)
    ensures text[mid] == mark[0]
    ensures |mark| > 1 ==> text[mid + 1] == mark[1]
    ensures |mark| > 2 ==> text[mid + 2] == mark[2]
  {
    HoldsSplit(text, at, first + mark, rest, end);
    HoldsSplit(text, at, first, mark, mid + |mark|);
    var slice := text[mid..mid + |mark|];
    assert slice[0] == text[mid] && (|mark| > 1 ==> slice[1] == text[mid + 1]) && (|mark| > 2 ==> slice[2] == text[mid + 2]);
  }

  /** A piece, a separator and the rest up to its end mark. */
  lemma Separated(text: string, at: nat, first: string, rest: string, close: string, end: nat, mid: nat)
    requires mid == at + |first| && Holds(text, at, first + ", " + rest + close, end)
    ensures mid + 2 <= end && Holds(text, at, first, mid) && Holds(text, mid + 2, rest + close, end)
    ensures text[mid] == ',' && text[mid + 1] == ' '
  {
    assert first + ", " + rest + close == first + ", " + (rest + close);
    Pieces(text, at, first, ", ", rest + close, end, mid);
  }

  /** A piece and its end mark. */
  lemma Closed(text: string, at: nat, first: string, close: char, end: nat, mid: nat)
    requires mid == at + |first| && Holds(text, at, first + [close], end)
    ensures Holds(text, at, first, mid) && end == mid + 1 && text[mid] == close
  {
    HoldsSplit(text, at, first, [close], end);
    HoldsFirst(text, mid, [close], end);
  }

  // ----------------------------------------------------------------- strings

  lemma HexCharIsRead(n: nat)
    requires n < 16
    ensures HexDigit(HexChar(n)) == Some(n) && HexChar(n) != '+'
  {
  }

  lemma FourDigits(a: char, b: char, c: char, d: char)
    requires a != '+' && HexDigit(a).Some? && HexDigit(b).Some? && HexDigit(c).Some? && HexDigit(d).Some?
    ensures Radix16([a, b, c, d]) ==
      Some(16 * (16 * (16 * HexDigit(a).value + HexDigit(b).value) + HexDigit(c).value) + HexDigit(d).value)
  {
    var all := [a, b, c, d];
    assert all[..3] == [a, b, c] && [a, b, c][..2] == [a, b] && [a, b][..1] == [a] && [a][..0] == "";
    assert Hexadecimal([a]) == HexDigit(a);
    assert Hexadecimal([a, b]) == Some(16 * HexDigit(a).value + HexDigit(b).value);
    assert Hexadecimal([a, b, c]) == Some(16 * (16 * HexDigit(a).value + HexDigit(b).value) + HexDigit(c).value);
  }

  /** An escaped character is read as the character. */
  lemma OneCharacter(text: string, at: nat, c: char, end: nat, out: string)
    requires Holds(text, at, Escaped(c), end)
    ensures OneLine(text, at, out) == OneLine(text, end, out + [c])
  {
    var e := Escaped(c);
    HoldsFirst(text, at, e, end);
    if e[0] == '\\' {
      HoldsFirst(text, at + 1, e[1..], end);
      if e[1] == 'u' {
        var n := c as int;
        HexCharIsRead(n / 16);
        HexCharIsRead(n % 16);
        FourDigits('0', '0', HexChar(n / 16), HexChar(n % 16));
        assert e[2..] == ['0', '0', HexChar(n / 16), HexChar(n % 16)];
        assert e[1..][1..] == e[2..];
        assert end == at + 6 && text[at + 2..end] == e[2..];
        assert Min(at + 2 + 4, |text|) == end;
        assert Escape(text, at + 1) == Read([c], end);
      } else {
        assert Escape(text, at + 1) == Read([c], end);
      }
    } else {
      assert e == [c];
    }
  }

  lemma {:induction false} OneLineIsRead(text: string, at: nat, s: string, end: nat, out: string)
    requires Holds(text, at, EscapedAll(s) + "\"", end)
    ensures OneLine(text, at, out) == Read(out + s, end)
    decreases |s|
  {
    if s == "" {
      HoldsFirst(text, at, "\"", end);
      assert out + s == out;
    } else {
      var mid := at + |Escaped(s[0])|;
      SplitFirst(text, at, Escaped(s[0]), EscapedAll(s[1..]), "\"", end, mid);
      OneCharacter(text, at, s[0], mid, out);
      OneLineIsRead(text, mid, s[1..], end, out + [s[0]]);
      assert out + [s[0]] + s[1..] == out + s;
    }
  }

  lemma SplitFirst(text: string, at: nat, first: string, rest: string, close: string, end: nat, mid: nat)
    requires mid == at + |first| && Holds(text, at, first + rest + close, end)
    ensures Holds(text, at, first, mid) && Holds(text, mid, rest + close, end)
  {
    assert first + rest + close == first + (rest + close);
    HoldsSplit(text, at, first, rest + close, end);
  }

  lemma StringIsRead(text: string, at: nat, s: string, end: nat)
    requires Holds(text, at, Quoted(s), end) && end < |text| && text[end] != '"'
    ensures BasicString(text, at) == Read(s, end)
  {
    var rest := EscapedAll(s) + "\"";
    assert Quoted(s) == "\"" + rest;
    HoldsSplit(text, at, "\"", rest, end);
    HoldsFirst(text, at + 1, rest, end);
    if s == "" {
      assert end == at + 2;
      NotStarting(text, at, QUOTES, 2);
    } else {
      assert rest[0] == Escaped(s[0])[0];
      NotStarting(text, at, QUOTES, 1);
    }
    OneLineIsRead(text, at + 1, s, end, "");
    assert "" + s == s;
  }

  // ----------------------------------------------------------------- numbers

  lemma {:induction false} DigitsAreRead(n: nat)
    ensures Decimal(Digits(n)) == Some(n)
    ensures forall i :: 0 <= i < |Digits(n)| ==> IsDigit(Digits(n)[i])
  {
    if n >= 10 {
      DigitsAreRead(n / 10);
      assert Digits(n)[..|Digits(n)| - 1] == Digits(n / 10);
    } else {
      assert Digits(n)[..0] == "";
    }
  }

  /** Digits, after a sign or not. */
  predicate Plain(word: string) {
    word != "" && forall i :: 0 <= i < |word| ==> IsDigit(word[i]) || word[i] == '-'
  }

  lemma {:induction false} PlainKeepsAll(word: string)
    requires word == "" || Plain(word)
    ensures WithoutUnderscores(word) == word
  {
    if word != "" {
      PlainKeepsAll(word[1..]);
      assert [word[0]] + word[1..] == word;
    }
  }

  lemma PlainIsTrimmed(word: string)
    requires Plain(word)
    ensures TrimStart(word) == word && TrimEnd(word) == word
  {
  }

  lemma NumberIsParsed(n: int)
    requires FitsInteger(n)
    ensures Plain(Number(n)) && ParseInteger(Number(n)) == Some(n)
  {
    var word := Number(n);
    if n < 0 {
      DigitsAreRead(-n);
      assert word[1..] == Digits(-n);
    } else {
      DigitsAreRead(n);
    }
  }

  lemma NumberIsMeant(n: int)
    requires FitsInteger(n)
    ensures Plain(Number(n)) && Meant(Number(n)) == Some(Integer(n))
  {
    NumberIsParsed(n);
    PlainIsTrimmed(Number(n));
    PlainKeepsAll(Number(n));
  }

  lemma {:induction false} WordEndsAt(text: string, at: nat, end: nat)
    requires at <= end < |text| && EndsWord(text[end])
    requires forall i :: at <= i < end ==> !EndsWord(text[i])
    ensures WordEnd(text, at) == end
    decreases end - at
  {
    if at < end { WordEndsAt(text, at + 1, end); }
  }

  lemma NumberIsRead(text: string, at: nat, n: int, end: nat)
    requires FitsInteger(n) && Holds(text, at, Number(n), end) && end < |text| && EndsWord(text[end])
    ensures ReadValue(text, at) == Read(Integer(n), end)
  {
    NumberIsMeant(n);
    forall i | at <= i < end ensures IsDigit(text[i]) || text[i] == '-' {
      assert text[i] == text[at..end][i - at];
    }
    WordEndsAt(text, at, end);
    assert Blank(text, at) == at;
    NotStarting(text, at, "true", 0);
    NotStarting(text, at, "false", 0);
  }

  // ----------------------------------------------------------------- spacing

  lemma BlankSkips(text: string, at: nat)
    requires at < |text| && text[at] == ' '
    ensures Blank(text, at) == Blank(text, at + 1) && Space(text, at) == Space(text, at + 1)
  {
  }

  lemma Still(text: string, at: nat)
    requires at < |text| && !IsSpace(text[at])
    ensures Blank(text, at) == at && (text[at] != '#' ==> Space(text, at) == at)
  {
  }

  lemma ValueSkips(text: string, at: nat)
    requires at < |text| && text[at] == ' '
    ensures ReadValue(text, at) == ReadValue(text, at + 1)
  {
    BlankSkips(text, at);
  }

  lemma ItemsSkip(text: string, at: nat, items: seq<Value>)
    requires at < |text| && text[at] == ' '
    ensures Items(text, at, items) == Items(text, at + 1, items)
  {
    BlankSkips(text, at);
  }

  lemma FieldsSkip(text: string, at: nat, entries: Entries)
    requires at < |text| && text[at] == ' '
    ensures Fields(text, at, entries) == Fields(text, at + 1, entries)
  {
    BlankSkips(text, at);
  }

  // -------------------------------------------------------------------- keys

  lemma {:induction false} BareEndsAt(text: string, at: nat, end: nat)
    requires at <= end < |text| && !IsBare(text[end])
    requires forall i :: at <= i < end ==> IsBare(text[i])
    ensures BareEnd(text, at) == end
    decreases end - at
  {
    if at < end { BareEndsAt(text, at + 1, end); }
  }

  lemma KeyIsRead(text: string, at: nat, key: string, end: nat)
    requires Holds(text, at, KeyText(key), end) && end + 1 < |text| && text[end] == ' ' && text[end + 1] == '='
    ensures ReadKey(text, at) == Read([key], end + 1)
    ensures !IsSpace(text[at]) && text[at] != '#' && text[at] != '[' && text[at] != '}'
  {
    HoldsFirst(text, at, KeyText(key), end);
    if key != "" && AllBare(key) {
      forall i | at <= i < end ensures IsBare(text[i]) {
        assert text[i] == text[at..end][i - at];
      }
      BareEndsAt(text, at, end);
    } else {
      StringIsRead(text, at, key, end);
    }
    Still(text, at);
    assert KeyPart(text, at) == Read(key, end);
    BlankSkips(text, end);
    Still(text, end + 1);
  }

  // ------------------------------------------------------------------ values

  /** A written value starts neither a space nor a comment nor an end. */
  predicate Begins(c: char) { !IsSpace(c) && c != '#' && c != ']' }

  lemma PrintBegins(item: Item)
    requires Legal(item)
    ensures Print(item) != "" && Begins(Print(item)[0])
  {
    if item.Num? { NumberIsMeant(item.number); }
  }

  lemma FlagIsRead(text: string, at: nat, b: bool, end: nat)
    requires Holds(text, at, Print(Flag(b)), end)
    ensures ReadValue(text, at) == Read(Boolean(b), end)
  {
    HoldsFirst(text, at, Print(Flag(b)), end);
    Still(text, at);
    if !b { NotStarting(text, at, "true", 0); }
  }

  /** The next character ends an unquoted word. */
  predicate Stops(text: string, end: nat) { end < |text| && EndsWord(text[end]) }

  lemma {:induction false} ValueIsRead(text: string, at: nat, item: Item, end: nat)
    requires Legal(item) && Holds(text, at, Print(item), end) && Stops(text, end)
    ensures ReadValue(text, at) == Read(Meaning(item), end)
    decreases item, 0
  {
    PrintBegins(item);
    HoldsFirst(text, at, Print(item), end);
    Still(text, at);
    match item
    case Str(s) => StringIsRead(text, at, s, end);
    case Num(n) => NumberIsRead(text, at, n, end);
    case Flag(b) => FlagIsRead(text, at, b, end);
    case List(items) =>
      assert Print(item) == "[" + (PrintItems(items) + "]");
      HoldsSplit(text, at, "[", PrintItems(items) + "]", end);
      ItemsAreRead(text, at + 1, items, [], end);
      assert [] + Meanings(items) == Meanings(items);
    case Inline(fields) =>
      assert Print(item) == "{" + (PrintFields(fields) + "}");
      HoldsSplit(text, at, "{", PrintFields(fields) + "}", end);
      FieldsAreRead(text, at + 1, fields, map[], end);
      assert map[] + Entered(fields) == Entered(fields);
  }

  lemma ItemsGoOn(text: string, at: nat, got: seq<Value>)
    requires at + 1 < |text| && text[at] == ',' && text[at + 1] == ' '
    ensures AfterItem(text, at, got) == Items(text, at + 2, got)
  {
    Still(text, at);
    ItemsSkip(text, at + 1, got);
  }

  lemma ItemsEnd(text: string, at: nat, got: seq<Value>)
    requires at < |text| && text[at] == ']'
    ensures AfterItem(text, at, got) == Read(Array(got), at + 1)
  {
    Still(text, at);
  }

  lemma NoItems(text: string, at: nat, got: seq<Value>, end: nat)
    requires Holds(text, at, "]", end)
    ensures Items(text, at, got) == Read(Array(got + []), end)
  {
    HoldsFirst(text, at, "]", end);
    Still(text, at);
    assert got + [] == got;
  }

  /** The items of an array and its end. */
  predicate ItemsAt(text: string, at: nat, items: seq<Item>, end: nat) {
    AllLegal(items) && Holds(text, at, PrintItems(items) + "]", end)
  }

  /** Past the first item and its comma, when more follow. */
  lemma {:induction false} FirstItem(text: string, at: nat, items: seq<Item>, got: seq<Value>, end: nat) returns (next: nat)
    requires |items| > 1 && ItemsAt(text, at, items, end)
    ensures ItemsAt(text, next, items[1..], end)
    ensures Items(text, at, got) == Items(text, next, got + [Meaning(items[0])])
    decreases items, 0
  {
    var mid, value := at + |Print(items[0])|, Meaning(items[0]);
    Separated(text, at, Print(items[0]), PrintItems(items[1..]), "]", end, mid);
    OneItem(text, at, items[0], got, mid);
    ItemsGoOn(text, mid, got + [value]);
    next := mid + 2;
  }

  lemma {:induction false} OneItem(text: string, at: nat, item: Item, got: seq<Value>, mid: nat)
    requires Legal(item) && Holds(text, at, Print(item), mid) && Stops(text, mid)
    ensures Items(text, at, got) == AfterItem(text, mid, got + [Meaning(item)])
    decreases item, 1
  {
    PrintBegins(item);
    HoldsFirst(text, at, Print(item), mid);
    Still(text, at);
    ValueIsRead(text, at, item, mid);
  }

  lemma {:induction false} LastItem(text: string, at: nat, items: seq<Item>, got: seq<Value>, end: nat)
    requires |items| == 1 && ItemsAt(text, at, items, end)
    ensures Items(text, at, got) == Read(Array(got + [Meaning(items[0])]), end)
    decreases items, 0
  {
    var mid := at + |Print(items[0])|;
    Closed(text, at, Print(items[0]), ']', end, mid);
    OneItem(text, at, items[0], got, mid);
    ItemsEnd(text, mid, got + [Meaning(items[0])]);
  }

  lemma {:induction false} ItemsAreRead(text: string, at: nat, items: seq<Item>, got: seq<Value>, end: nat)
    requires ItemsAt(text, at, items, end)
    ensures Items(text, at, got) == Read(Array(got + Meanings(items)), end)
    decreases items, 1
  {
    if items == [] {
      NoItems(text, at, got, end);
    } else {
      MeaningsStep(items, got);
      if |items| == 1 {
        LastItem(text, at, items, got, end);
      } else {
        var next := FirstItem(text, at, items, got, end);
        ItemsAreRead(text, next, items[1..], got + [Meaning(items[0])], end);
      }
    }
  }

  lemma Join(got: seq<Value>, value: Value, rest: seq<Value>)
    ensures got + [value] + rest == got + ([value] + rest)
    ensures rest == [] ==> got + [value] == got + ([value] + rest)
  {
  }

  lemma MeaningsStep(items: seq<Item>, got: seq<Value>)
    requires items != []
    ensures got + [Meaning(items[0])] + Meanings(items[1..]) == got + Meanings(items)
    ensures |items| == 1 ==> got + [Meaning(items[0])] == got + Meanings(items)
  {
    Join(got, Meaning(items[0]), Meanings(items[1..]));
  }

  // ------------------------------------------------------------------ entries

  /** A field starts neither a space nor a comment nor a header nor an end. */
  predicate BeginsField(c: char) { !IsSpace(c) && c != '#' && c != '[' && c != '}' }

  lemma AssignmentStep(text: string, at: nat, key: string, mid: nat, value: Value, end: nat)
    requires at < mid < |text| && text[mid] == '=' && ReadKey(text, at) == Read([key], mid)
    requires ReadValue(text, mid + 1) == Read(value, end)
    ensures Assignment(text, at) == Read(([key], value), end)
  {
    Still(text, mid);
  }

  lemma FieldPieces(text: string, at: nat, field: Field, end: nat, mid: nat)
    requires Holds(text, at, PrintField(field), end) && mid == at + |KeyText(field.key)|
    ensures mid + 3 <= end && Holds(text, at, KeyText(field.key), mid) && Holds(text, mid + 3, Print(field.item), end)
    ensures text[mid] == ' ' && text[mid + 1] == '=' && text[mid + 2] == ' '
  {
    var key, value := KeyText(field.key), Print(field.item);
    assert PrintField(field) == key + " = " + value;
    Pieces(text, at, key, " = ", value, end, mid);
  }

  lemma AssignmentIsRead(text: string, at: nat, key: string, mid: nat, value: Value, end: nat)
    requires Holds(text, at, KeyText(key), mid) && mid + 1 < |text| && text[mid] == ' ' && text[mid + 1] == '='
    requires ReadValue(text, mid + 2) == Read(value, end)
    ensures Assignment(text, at) == Read(([key], value), end)
    ensures at < mid && BeginsField(text[at])
  {
    HoldsFirst(text, at, KeyText(key), mid);
    KeyIsRead(text, at, key, mid);
    AssignmentStep(text, at, key, mid + 1, value, end);
  }

  lemma {:induction false} SpacedValueIsRead(text: string, at: nat, item: Item, end: nat)
    requires Legal(item) && at < |text| && text[at] == ' ' && Holds(text, at + 1, Print(item), end) && Stops(text, end)
    ensures ReadValue(text, at) == Read(Meaning(item), end)
    decreases item, 1
  {
    ValueIsRead(text, at + 1, item, end);
    ValueSkips(text, at);
  }

  lemma {:induction false} FieldIsRead(text: string, at: nat, field: Field, end: nat)
    requires Legal(field.item) && Holds(text, at, PrintField(field), end) && Stops(text, end)
    ensures Assignment(text, at) == Read(([field.key], Meaning(field.item)), end)
    ensures at < end && BeginsField(text[at])
    decreases field, 0
  {
    var mid := at + |KeyText(field.key)|;
    FieldPieces(text, at, field, end, mid);
    SpacedValueIsRead(text, mid + 2, field.item, end);
    AssignmentIsRead(text, at, field.key, mid, Meaning(field.item), end);
  }

  lemma InsertOne(got: Entries, key: string, value: Value)
    requires key !in got
    ensures Insert(got, [key], value) == Ok(got[key := value])
  {
  }

  lemma FieldIsEntered(text: string, at: nat, got: Entries, key: string, value: Value, mid: nat)
    requires at < mid <= |text| && BeginsField(text[at]) && Assignment(text, at) == Read(([key], value), mid) && key !in got
    ensures Fields(text, at, got) == AfterField(text, mid, got[key := value])
  {
    Still(text, at);
    InsertOne(got, key, value);
  }

  lemma FieldsGoOn(text: string, at: nat, got: Entries)
    requires at + 1 < |text| && text[at] == ',' && text[at + 1] == ' '
    ensures AfterField(text, at, got) == Fields(text, at + 2, got)
  {
    Still(text, at);
    FieldsSkip(text, at + 1, got);
  }

  lemma FieldsEnd(text: string, at: nat, got: Entries)
    requires at < |text| && text[at] == '}'
    ensures AfterField(text, at, got) == Read(Table(got), at + 1)
  {
    Still(text, at);
  }

  lemma MergeStep(got: Entries, rest: Entries, key: string, value: Value)
    requires got.Keys !! rest.Keys && key !in got && key !in rest
    ensures got[key := value].Keys !! rest.Keys
    ensures got[key := value] + rest == got + rest[key := value]
    ensures rest == map[] ==> got[key := value] == got + rest[key := value]
  {
  }

  lemma EnteredStep(fields: seq<Field>, got: Entries)
    requires fields != [] && LegalFields(fields) && got.Keys !! Entered(fields).Keys
    ensures var got' := got[fields[0].key := Meaning(fields[0].item)];
      && fields[0].key !in got
      && got'.Keys !! Entered(fields[1..]).Keys
      && got' + Entered(fields[1..]) == got + Entered(fields)
      && (|fields| == 1 ==> got' == got + Entered(fields))
  {
    var rest, key, value := Entered(fields[1..]), fields[0].key, Meaning(fields[0].item);
    assert Entered(fields) == rest[key := value];
    assert forall k :: k in rest ==> k in rest[key := value];
    assert key in rest[key := value];
    if |fields| == 1 { assert rest == map[]; }
    MergeStep(got, rest, key, value);
  }

  lemma NoFields(text: string, at: nat, got: Entries, end: nat)
    requires Holds(text, at, "}", end)
    ensures Fields(text, at, got) == Read(Table(got + map[]), end)
  {
    HoldsFirst(text, at, "}", end);
    Still(text, at);
    assert got + map[] == got;
  }

  /** The entries of an inline table and its end, and none of their keys is set. */
  predicate FieldsAt(text: string, at: nat, fields: seq<Field>, got: Entries, end: nat) {
    LegalFields(fields) && got.Keys !! Entered(fields).Keys && Holds(text, at, PrintFields(fields) + "}", end)
  }

  /** Past the first entry and its comma, when more follow. */
  lemma {:induction false} FieldsStep(text: string, at: nat, fields: seq<Field>, got: Entries, end: nat)
    returns (next: nat, got': Entries)
    requires |fields| > 1 && FieldsAt(text, at, fields, got, end)
    ensures FieldsAt(text, next, fields[1..], got', end)
    ensures Fields(text, at, got) == Fields(text, next, got')
    ensures got' + Entered(fields[1..]) == got + Entered(fields)
    decreases fields, 0
  {
    var field, mid := fields[0], at + |PrintField(fields[0])|;
    next, got' := mid + 2, got[field.key := Meaning(field.item)];
    FieldsSplit(text, at, fields, got, end, mid, next, got');
    FieldAndComma(text, at, field, got, mid, next, got');
  }

  lemma FieldsSplit(text: string, at: nat, fields: seq<Field>, got: Entries, end: nat, mid: nat, next: nat, got': Entries)
    requires |fields| > 1 && FieldsAt(text, at, fields, got, end)
    requires mid == at + |PrintField(fields[0])| && next == mid + 2 && got' == got[fields[0].key := Meaning(fields[0].item)]
    ensures Holds(text, at, PrintField(fields[0]), mid) && mid + 1 < |text| && text[mid] == ',' && text[mid + 1] == ' '
    ensures FieldsAt(text, next, fields[1..], got', end)
    ensures fields[0].key !in got && got' + Entered(fields[1..]) == got + Entered(fields)
  {
    FieldPiecesOf(text, at, fields, end, mid);
    EnteredStep(fields, got);
  }

  lemma {:induction false} FieldAndComma(text: string, at: nat, field: Field, got: Entries, mid: nat, next: nat, got': Entries)
    requires Legal(field.item) && Holds(text, at, PrintField(field), mid) && field.key !in got
    requires mid + 1 < |text| && text[mid] == ',' && text[mid + 1] == ' ' && next == mid + 2
    requires got' == got[field.key := Meaning(field.item)]
    ensures Fields(text, at, got) == Fields(text, next, got')
    decreases field, 2
  {
    FirstField(text, at, field, got, mid);
    FieldsGoOn(text, mid, got');
  }

  lemma FieldPiecesOf(text: string, at: nat, fields: seq<Field>, end: nat, mid: nat)
    requires |fields| > 1 && Holds(text, at, PrintFields(fields) + "}", end) && mid == at + |PrintField(fields[0])|
    ensures mid + 2 <= end && Holds(text, at, PrintField(fields[0]), mid) && text[mid] == ',' && text[mid + 1] == ' '
    ensures Holds(text, mid + 2, PrintFields(fields[1..]) + "}", end)
  {
    Separated(text, at, PrintField(fields[0]), PrintFields(fields[1..]), "}", end, mid);
  }

  lemma {:induction false} LastField(text: string, at: nat, fields: seq<Field>, got: Entries, end: nat)
    requires |fields| == 1 && FieldsAt(text, at, fields, got, end)
    ensures Fields(text, at, got) == Read(Table(got + Entered(fields)), end)
    decreases fields, 0
  {
    var mid := at + |PrintField(fields[0])|;
    Closed(text, at, PrintField(fields[0]), '}', end, mid);
    EnteredStep(fields, got);
    FirstField(text, at, fields[0], got, mid);
    FieldsEnd(text, mid, got[fields[0].key := Meaning(fields[0].item)]);
  }

  lemma {:induction false} FieldsAreRead(text: string, at: nat, fields: seq<Field>, got: Entries, end: nat)
    requires FieldsAt(text, at, fields, got, end)
    ensures Fields(text, at, got) == Read(Table(got + Entered(fields)), end)
    decreases fields, 1
  {
    if fields == [] {
      NoFields(text, at, got, end);
    } else if |fields| == 1 {
      LastField(text, at, fields, got, end);
    } else {
      var next, got' := FieldsStep(text, at, fields, got, end);
      FieldsAreRead(text, next, fields[1..], got', end);
    }
  }

  lemma {:induction false} FirstField(text: string, at: nat, field: Field, got: Entries, mid: nat)
    requires Legal(field.item) && Holds(text, at, PrintField(field), mid) && field.key !in got
    requires Stops(text, mid)
    ensures Fields(text, at, got) == AfterField(text, mid, got[field.key := Meaning(field.item)])
    decreases field, 1
  {
    FieldIsRead(text, at, field, mid);
    FieldIsEntered(text, at, got, field.key, Meaning(field.item), mid);
  }

  // --------------------------------------------------------------- documents

  lemma DocumentStep(text: string, at: nat, s: State, key: string, value: Value, mid: nat)
    requires at < mid < |text| && BeginsField(text[at]) && text[mid] == '\n' && s.current == [] && key !in s.root
    requires Assignment(text, at) == Read(([key], value), mid)
    ensures Document(text, at, s) == Document(text, mid + 1, State(s.root[key := value], []))
  {
    Still(text, at);
    var s' := State(s.root[key := value], []);
    assert EndOfLine(text, mid) == Read((), mid);
    assert ReadStatement(text, at) == Read(Line([key], value), mid);
    OneLineIsApplied(s, key, value);
    LineEndSkips(text, mid, s');
  }

  lemma LineEndSkips(text: string, at: nat, s: State)
    requires at < |text| && text[at] == '\n'
    ensures Document(text, at, s) == Document(text, at + 1, s)
  {
    assert Space(text, at) == Space(text, at + 1);
  }

  lemma OneLineIsApplied(s: State, key: string, value: Value)
    requires s.current == [] && key !in s.root
    ensures Apply(s, Line([key], value)) == Ok(State(s.root[key := value], []))
  {
    InsertOne(s.root, key, value);
  }

  lemma NoLines(text: string, s: State)
    ensures Document(text, |text|, s) == Read(s.root + map[], |text|)
  {
    assert s.root + map[] == s.root;
  }

  /** The lines of `fields` end the text, and none of their keys is set. */
  predicate LinesAt(text: string, at: nat, fields: seq<Field>, root: Entries) {
    LegalFields(fields) && root.Keys !! Entered(fields).Keys && Holds(text, at, PrintLines(fields), |text|)
  }

  /** Past the first line. */
  lemma LinesStep(text: string, at: nat, fields: seq<Field>, root: Entries) returns (next: nat, root': Entries)
    requires fields != [] && LinesAt(text, at, fields, root)
    ensures LinesAt(text, next, fields[1..], root')
    ensures Document(text, at, State(root, [])) == Document(text, next, State(root', []))
    ensures root' + Entered(fields[1..]) == root + Entered(fields)
  {
    var field, mid := fields[0], at + |PrintField(fields[0])|;
    next, root' := mid + 1, root[field.key := Meaning(field.item)];
    LinesSplit(text, at, fields, root, mid, next, root');
    FirstLine(text, at, field, State(root, []), mid, next, State(root', []));
  }

  lemma LinesSplit(text: string, at: nat, fields: seq<Field>, root: Entries, mid: nat, next: nat, root': Entries)
    requires fields != [] && LinesAt(text, at, fields, root)
    requires mid == at + |PrintField(fields[0])| && next == mid + 1 && root' == root[fields[0].key := Meaning(fields[0].item)]
    ensures Holds(text, at, PrintField(fields[0]), mid) && mid < |text| && text[mid] == '\n'
    ensures LinesAt(text, next, fields[1..], root')
    ensures fields[0].key !in root && root' + Entered(fields[1..]) == root + Entered(fields)
  {
    PrintedLines(fields);
    Pieces(text, at, PrintField(fields[0]), "\n", PrintLines(fields[1..]), |text|, mid);
    EnteredStep(fields, root);
  }

  lemma PrintedLines(fields: seq<Field>)
    requires fields != []
    ensures PrintLines(fields) == PrintField(fields[0]) + "\n" + PrintLines(fields[1..])
  {
  }

  lemma {:induction false} LinesAreRead(text: string, at: nat, fields: seq<Field>, root: Entries)
    requires LinesAt(text, at, fields, root)
    ensures Document(text, at, State(root, [])) == Read(root + Entered(fields), |text|)
    decreases |fields|
  {
    if fields == [] {
      NoLines(text, State(root, []));
    } else {
      var next, root' := LinesStep(text, at, fields, root);
      LinesAreRead(text, next, fields[1..], root');
    }
  }

  lemma FirstLine(text: string, at: nat, field: Field, s: State, mid: nat, next: nat, s': State)
    requires Legal(field.item) && Holds(text, at, PrintField(field), mid) && mid < |text| && text[mid] == '\n'
    requires s.current == [] && field.key !in s.root
    requires next == mid + 1 && s' == State(s.root[field.key := Meaning(field.item)], [])
    ensures Document(text, at, s) == Document(text, next, s')
  {
    FieldIsRead(text, at, field, mid);
    DocumentStep(text, at, s, field.key, Meaning(field.item), mid);
  }

  /** Every table written as lines is read back, to the end of the text. */
  lemma WrittenIsReadBack(fields: seq<Field>)
    requires LegalFields(fields)
    ensures Parse(PrintLines(fields)) == Read(Entered(fields), |PrintLines(fields)|)
  {
    var text := PrintLines(fields);
    LinesAreRead(text, 0, fields, map[]);
    assert map[] + Entered(fields) == Entered(fields);
  }

  // ------------------------------------------------- every table is written

  /** No floats, and integers that fit. */
  predicate Writable(v: Value)
    decreases v
  {
    match v
    case Integer(n) => FitsInteger(n)
    case Float(_) => false
    case Array(items) => forall i :: 0 <= i < |items| ==> Writable(items[i])
    case Table(entries) => forall k :: k in entries ==> Writable(entries[k])
    case _ => true
  }

  lemma {:induction false} ValueIsWritten(v: Value) returns (item: Item)
    requires Writable(v)
    ensures Legal(item) && Meaning(item) == v
    decreases v, 0
  {
    match v
    case Text(s) => item := Str(s);
    case Integer(n) => item := Num(n);
    case Boolean(b) => item := Flag(b);
    case Array(values) =>
      var items := ItemsAreWritten(v, values);
      item := List(items);
    case Table(entries) =>
      var fields := FieldsAreWritten(v, entries);
      item := Inline(fields);
  }

  lemma {:induction false} ItemsAreWritten(v: Value, values: seq<Value>) returns (items: seq<Item>)
    requires forall i :: 0 <= i < |values| ==> values[i] < v && Writable(values[i])
    ensures AllLegal(items) && Meanings(items) == values
    decreases v, 0, |values|
  {
    items := [];
    if values != [] {
      var first := ValueIsWritten(values[0]);
      var rest := ItemsAreWritten(v, values[1..]);
      items := [first] + rest;
      assert items[1..] == rest;
    }
  }

  lemma {:induction false} FieldsAreWritten(v: Value, entries: Entries) returns (fields: seq<Field>)
    requires forall k :: k in entries ==> entries[k] < v && Writable(entries[k])
    ensures LegalFields(fields) && Entered(fields) == entries
    decreases v, 0, |entries|
  {
    fields := [];
    if entries != map[] {
      var k :| k in entries;
      var first := ValueIsWritten(entries[k]);
      var rest := FieldsAreWritten(v, entries - {k});
      fields := [Field(k, first)] + rest;
      assert fields[1..] == rest;
    }
  }

  /** For every table without floats some text of lines is read as it. */
  lemma EveryTableIsReadFromLines(t: Entries)
    requires Writable(Table(t))
    ensures exists fields :: LegalFields(fields) && Entered(fields) == t && Parse(PrintLines(fields)) == Read(t, |PrintLines(fields)|)
  {
    var fields := FieldsAreWritten(Table(t), t);
    WrittenIsReadBack(fields);
  }
}
