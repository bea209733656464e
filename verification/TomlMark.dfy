/** A table header spelled like the mark the reader keeps for itself
    (kompilator/src/toml.rs, `parse`). */
module TomlMark {
  import opened Common
  import opened Tables
  import opened Toml
  import opened TomlRoundTrip

  /** The header of a table, its name escaped, and one line. */
  function HeadedText(name: string, field: Field): string {
    "[" + Quoted(name) + "]\n" + PrintLines([field])
  }

  /** Where the parts of the text lie. */
  lemma HeadedPieces(text: string, name: string, field: Field, close: nat)
    requires text == HeadedText(name, field) && close == 1 + |Quoted(name)|
    ensures text[0] == '[' && text[1] == '"' && Holds(text, 1, Quoted(name), close)
    ensures close + 2 <= |text| && text[close] == ']' && text[close + 1] == '\n'
    ensures Holds(text, close + 2, PrintLines([field]), |text|)
  {
    assert Holds(text, 0, text, |text|);
    HoldsSplit(text, 0, "[" + Quoted(name) + "]\n", PrintLines([field]), |text|);
    HoldsSplit(text, 0, "[" + Quoted(name), "]\n", close + 2);
    HoldsSplit(text, 0, "[", Quoted(name), close);
    HoldsFirst(text, 0, "[", 1);
    HoldsFirst(text, 1, Quoted(name), close);
    HoldsFirst(text, close, "]\n", close + 2);
    HoldsFirst(text, close + 1, "\n", close + 2);
  }

  lemma HeaderIsRead(text: string, name: string, close: nat)
    requires 1 < close && close + 1 < |text| && text[0] == '[' && text[1] == '"'
    requires Holds(text, 1, Quoted(name), close) && text[close] == ']' && text[close + 1] == '\n'
    ensures ReadStatement(text, 0) == Read(Header([name], false), close + 1)
  {
    StringIsRead(text, 1, name, close);
    NotStarting(text, 0, "[[", 1);
    Still(text, 1);
    Still(text, close);
    assert KeyPart(text, 1) == Read(name, close);
    assert ReadKey(text, 1) == Read([name], close);
    assert Starts(text, close, "]");
    assert EndOfLine(text, close + 1) == Read((), close + 1);
    assert HeaderEnd(text, close, [name], false) == Read(Header([name], false), close + 1);
  }

  lemma MarkIsApplied(key: string, value: Value)
    requires key != MARK
    ensures Apply(State(map[], []), Header([MARK], false)) == Ok(State(map[MARK := Table(map[])], [MARK]))
    ensures Apply(State(map[MARK := Table(map[])], [MARK]), Line([key], value)) ==
      Ok(State(map[MARK := Table(map[]), key := value], [MARK]))
  {
    assert [MARK][1..] == [];
    assert Open(map[], [MARK][1..], false) == Ok((map[], []));
    assert [MARK] + [] == [MARK];
    assert Shown([MARK]) == [];
    var root: Entries := map[MARK := Table(map[])];
    InsertOne(root, key, value);
    assert root[key := value] == map[MARK := Table(map[]), key := value];
  }

  /** Under a header spelled like the mark, a line goes into the root, whatever
      it sets, and the table the header opened stays empty. */
  lemma MarkedHeaderLosesItsLine(field: Field)
    requires Legal(field.item) && field.key != MARK
    ensures Parse(HeadedText(MARK, field)) ==
      Read(map[MARK := Table(map[]), field.key := Meaning(field.item)], |HeadedText(MARK, field)|)
  {
    var text, close := HeadedText(MARK, field), 1 + |Quoted(MARK)|;
    var start, headed := State(map[], []), State(map[MARK := Table(map[])], [MARK]);
    MarkIsApplied(field.key, Meaning(field.item));
    HeadedPieces(text, MARK, field, close);
    HeadedDocument(text, MARK, close, start, headed);
    LineUnderTheMark(text, close + 2, field, headed);
  }

  lemma HeadedDocument(text: string, name: string, close: nat, start: State, headed: State)
    requires 1 < close && close + 1 < |text| && text[0] == '[' && text[1] == '"'
    requires Holds(text, 1, Quoted(name), close) && text[close] == ']' && text[close + 1] == '\n'
    requires Apply(start, Header([name], false)) == Ok(headed)
    ensures Document(text, 0, start) == Document(text, close + 2, headed)
  {
    HeaderIsRead(text, name, close);
    StatementThenLineEnd(text, 0, start, Header([name], false), close + 1, headed);
  }

  /** One statement and the end of its line. */
  lemma StatementThenLineEnd(text: string, at: nat, s: State, statement: Statement, mid: nat, s': State)
    requires at < mid < |text| && text[mid] == '\n' && !IsSpace(text[at]) && text[at] != '#'
    requires ReadStatement(text, at) == Read(statement, mid) && Apply(s, statement) == Ok(s')
    ensures Document(text, at, s) == Document(text, mid + 1, s')
  {
    OneStatement(text, at, s, statement, mid, s');
    LineEndSkips(text, mid, s');
  }

  lemma OneStatement(text: string, at: nat, s: State, statement: Statement, next: nat, s': State)
    requires at < |text| && !IsSpace(text[at]) && text[at] != '#'
    requires ReadStatement(text, at) == Read(statement, next) && Apply(s, statement) == Ok(s')
    ensures Document(text, at, s) == Document(text, next, s')
  {
    Still(text, at);
  }

  lemma LineUnderTheMark(text: string, at: nat, field: Field, s: State)
    requires Legal(field.item) && field.key != MARK && s == State(map[MARK := Table(map[])], [MARK])
    requires Holds(text, at, PrintLines([field]), |text|)
    ensures Document(text, at, s) == Read(map[MARK := Table(map[]), field.key := Meaning(field.item)], |text|)
  {
    var first, value := PrintField(field), Meaning(field.item);
    var mid := at + |first|;
    var s' := State(map[MARK := Table(map[]), field.key := value], [MARK]);
    assert [field][1..] == [] && PrintLines([field]) == first + "\n" + "";
    Pieces(text, at, first, "\n", "", |text|, mid);
    FieldIsRead(text, at, field, mid);
    LineIsRead(text, at, field.key, value, mid);
    MarkIsApplied(field.key, value);
    StatementThenLineEnd(text, at, s, Line([field.key], value), mid, s');
    assert Document(text, |text|, s') == Read(s'.root, |text|);
  }

  lemma LineIsRead(text: string, at: nat, key: string, value: Value, mid: nat)
    requires at < mid < |text| && BeginsField(text[at]) && text[mid] == '\n'
    requires Assignment(text, at) == Read(([key], value), mid)
    ensures ReadStatement(text, at) == Read(Line([key], value), mid)
  {
    assert EndOfLine(text, mid) == Read((), mid);
  }
}
