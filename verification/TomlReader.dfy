/** The TOML reader as it runs: a cursor that moves over the text
    (kompilator/src/toml.rs, `Reader` and `parse`). */
module TomlReader {
  import opened Common
  import Tables
  import opened Toml
  import opened Trees

  type Value = Tables.Value

  lemma MoreParts(text: string, at: nat, parts: seq<string>)
    requires Peek(text, at) == Some('.')
    ensures var r := KeyPart(text, at + 1);
      && (r.Refused? ==> KeyParts(text, at, parts) == Refused(r.why))
      && (r.Crashed? ==> KeyParts(text, at, parts) == Crashed)
      && (r.Read? ==> KeyParts(text, at, parts) == KeyParts(text, Blank(text, r.at), parts + [r.value]))
  {
  }

  class Reader {
    const text: string
    var at: nat

    constructor (text: string)
      ensures this.text == text && at == 0
    {
      this.text := text;
      at := 0;
    }

    method SkipBlank()
      modifies this
      ensures at == Blank(text, old(at))
    {
      while at < |text| && IsBlank(text[at])
        invariant Blank(text, at) == Blank(text, old(at))
        decreases |text| - at
      {
        at := at + 1;
      }
    }

    method SkipLine()
      modifies this
      ensures at == LineEnd(text, old(at))
    {
      while at < |text| && text[at] != '\n'
        invariant LineEnd(text, at) == LineEnd(text, old(at))
        decreases |text| - at
      {
        at := at + 1;
      }
    }

    method SkipSpace()
      modifies this
      ensures at == Space(text, old(at))
    {
      while at < |text| && (IsSpace(text[at]) || text[at] == '#')
        invariant Space(text, at) == Space(text, old(at))
        decreases |text| - at
      {
        if text[at] == '#' { SkipLine(); } else { at := at + 1; }
      }
    }

    method SkipEndOfLine() returns (r: Outcome<()>)
      requires at <= |text|
      modifies this
      ensures r == EndOfLine(text, old(at)) && (r.Read? ==> at == r.at)
    {
      SkipBlank();
      if Peek(text, at) == Some('#') { SkipLine(); }
      if at == |text| || text[at] == '\n' || (text[at] == '\r' && Peek(text, at + 1) == Some('\n')) {
        return Read((), at);
      }
      return Refused(TextAfterValue);
    }

    /** What an escape adds to the string read so far. */
    method ReadEscape() returns (r: Outcome<string>)
      requires at <= |text|
      modifies this
      ensures r == Escape(text, old(at)) && (r.Read? ==> at == r.at)
    {
      if at == |text| { return Refused(EscapeAtEnd); }
      var code := text[at];
      at := at + 1;
      var out := "";
      if code == 'n' {
        out := "\n";
      } else if code == 't' {
        out := "\t";
      } else if code == 'r' {
        out := "\r";
      } else if code == 'b' {
        out := "\U{8}";
      } else if code == 'f' {
        out := "\U{c}";
      } else if code == '"' {
        out := "\"";
      } else if code == '\\' {
        out := "\\";
      } else if code == 'u' || code == 'U' {
        var value := Radix16(text[at..Min(at + Width(code), |text|)]);
        if value.None? { return Refused(NotHexadecimal); }
        if !IsCharacter(value.value) { return Refused(NoSuchCharacter); }
        out := [value.value as char];
        at := at + Width(code);
      } else if IsSpace(code) {
        while at < |text| && IsSpace(text[at])
          invariant old(at) < at <= |text| && Trimmed(text, at) == Trimmed(text, old(at) + 1)
          decreases |text| - at
        {
          at := at + 1;
        }
      } else {
        return Refused(UnknownEscape(code));
      }
      return Read(out, at);
    }

    method SkipOpening()
      requires at <= |text|
      modifies this
      ensures at == AfterOpening(text, old(at))
    {
      if Peek(text, at) == Some('\n') {
        at := at + 1;
      } else if Starts(text, at, "\r\n") {
        at := at + 2;
      }
    }

    method ReadMultiLine() returns (r: Outcome<string>)
      modifies this
      ensures r == MultiLine(text, old(at), "") && (r.Read? ==> at == r.at)
    {
      var out := "";
      while at <= |text|
        invariant MultiLine(text, at, out) == MultiLine(text, old(at), "")
        decreases if at <= |text| then |text| - at + 1 else 0
      {
        if Starts(text, at, QUOTES) && !Starts(text, at, QUOTES + "\"") {
          at := at + 3;
          return Read(out, at);
        }
        if at == |text| { return Refused(MultiLineNeverClosed); }
        if text[at] == '\\' {
          at := at + 1;
          var more := ReadEscape();
          if more.Refused? { return Refused(more.why); }
          out := out + more.value;
        } else {
          out := out + [text[at]];
          at := at + 1;
        }
      }
      return Crashed;
    }

    method ReadOneLine() returns (r: Outcome<string>)
      modifies this
      ensures r == OneLine(text, old(at), "") && (r.Read? ==> at == r.at)
    {
      var out := "";
      while at < |text| && text[at] != '\n'
        invariant OneLine(text, at, out) == OneLine(text, old(at), "")
        decreases if at <= |text| then |text| - at + 1 else 0
      {
        if text[at] == '"' {
          at := at + 1;
          return Read(out, at);
        }
        if text[at] == '\\' {
          at := at + 1;
          var more := ReadEscape();
          if more.Refused? { return Refused(more.why); }
          out := out + more.value;
        } else {
          out := out + [text[at]];
          at := at + 1;
        }
      }
      return Refused(StringNeverClosed);
    }

    method ReadBasicString() returns (r: Outcome<string>)
      requires at < |text|
      modifies this
      ensures r == BasicString(text, old(at)) && (r.Read? ==> at == r.at)
    {
      if Starts(text, at, QUOTES) {
        at := at + 3;
        SkipOpening();
        r := ReadMultiLine();
      } else {
        at := at + 1;
        r := ReadOneLine();
      }
    }

    method ReadLiteralString() returns (r: Outcome<string>)
      requires at < |text|
      modifies this
      ensures r == LiteralString(text, old(at)) && (r.Read? ==> at == r.at)
    {
      ghost var result := LiteralString(text, at);
      if Starts(text, at, APOSTROPHES) {
        at := at + 3;
        SkipOpening();
        var start := at;
        while !(Starts(text, at, APOSTROPHES) && !Starts(text, at, APOSTROPHES + "\'"))
          invariant start <= at <= |text| && LiteralMultiLine(text, start, at) == result
          decreases |text| - at
        {
          if at == |text| { return Refused(LiteralNeverClosed); }
          at := at + 1;
        }
        r := Read(text[start..at], at + 3);
        at := at + 3;
      } else {
        at := at + 1;
        var start := at;
        while at < |text| && text[at] != '\n' && text[at] != '\''
          invariant start <= at <= |text| && LiteralOneLine(text, start, at) == result
          decreases |text| - at
        {
          at := at + 1;
        }
        if at == |text| || text[at] == '\n' { return Refused(LiteralNeverClosed); }
        r := Read(text[start..at], at + 1);
        at := at + 1;
      }
    }

    method ReadKeyPart() returns (r: Outcome<string>)
      requires at <= |text|
      modifies this
      ensures r == KeyPart(text, old(at)) && (r.Read? ==> at == r.at)
    {
      SkipBlank();
      if Peek(text, at) == Some('"') {
        r := ReadBasicString();
      } else if Peek(text, at) == Some('\'') {
        r := ReadLiteralString();
      } else {
        var start := at;
        while at < |text| && IsBare(text[at])
          invariant start <= at <= |text| && BareEnd(text, at) == BareEnd(text, start)
          decreases |text| - at
        {
          at := at + 1;
        }
        r := if start == at then Refused(KeyExpected) else Read(text[start..at], at);
      }
    }

    method ReadDottedKey() returns (r: Outcome<seq<string>>)
      requires at <= |text|
      modifies this
      ensures r == ReadKey(text, old(at)) && (r.Read? ==> at == r.at)
    {
      var part := ReadKeyPart();
      if part.Refused? { return Refused(part.why); }
      if part.Crashed? { return Crashed; }
      SkipBlank();
      r := ReadMoreParts(part.value);
    }

    /** The parts after the first. */
    method ReadMoreParts(first: string) returns (r: Outcome<seq<string>>)
      requires at <= |text|
      modifies this
      ensures r == KeyParts(text, old(at), [first]) && (r.Read? ==> at == r.at)
    {
      ghost var result := KeyParts(text, at, [first]);
      var parts := [first];
      while Peek(text, at) == Some('.')
        invariant at <= |text| && KeyParts(text, at, parts) == result
        decreases |text| - at
      {
        MoreParts(text, at, parts);
        at := at + 1;
        var part := ReadKeyPart();
        if part.Refused? { return Refused(part.why); }
        if part.Crashed? { return Crashed; }
        parts := parts + [part.value];
        SkipBlank();
      }
      return Read(parts, at);
    }

    method ReadWord() returns (r: Outcome<Value>)
      requires at < |text|
      modifies this
      ensures r == Word(text, old(at)) && (r.Read? ==> at == r.at)
    {
      var start := at;
      while at < |text| && !EndsWord(text[at])
        invariant start <= at <= |text| && WordEnd(text, at) == WordEnd(text, start)
        decreases |text| - at
      {
        at := at + 1;
      }
      var value := Meant(text[start..at]);
      r := if value.None? then Refused(ValueExpected) else Read(value.value, at);
    }

    method ReadNextValue() returns (r: Outcome<Value>)
      requires at <= |text|
      modifies this
      ensures r == ReadValue(text, old(at)) && (r.Read? ==> at == r.at)
      decreases |text| - at, 0
    {
      SkipBlank();
      if at == |text| {
        r := Refused(ValueExpected);
      } else if text[at] == '"' {
        var s := ReadBasicString();
        r := AsText(s);
      } else if text[at] == '\'' {
        var s := ReadLiteralString();
        r := AsText(s);
      } else if text[at] == '[' {
        at := at + 1;
        r := ReadItems();
      } else if text[at] == '{' {
        at := at + 1;
        r := ReadFields();
      } else if Starts(text, at, "true") {
        at := at + 4;
        r := Read(Tables.Boolean(true), at);
      } else if Starts(text, at, "false") {
        at := at + 5;
        r := Read(Tables.Boolean(false), at);
      } else {
        r := ReadWord();
      }
    }

    /** Past the comma after an item, if there is one. */
    method SkipItemEnd(ghost items: seq<Value>) returns (failure: Option<Why>)
      requires at <= |text|
      modifies this
      ensures failure.None? ==> old(at) <= at <= |text| && Space(text, at) == at
      ensures failure.None? ==> AfterItem(text, old(at), items) == Items(text, at, items)
      ensures failure.Some? ==> AfterItem(text, old(at), items) == Refused(failure.value)
    {
      AfterItemGoesOn(text, at, items);
      SkipSpace();
      if Peek(text, at) == Some(',') {
        at := at + 1;
        ItemsSkip(text, at, items);
        SkipSpace();
      } else if Peek(text, at) != Some(']') {
        return Some(ArrayItem);
      }
      return None;
    }

    /** Past the comma after an entry, if there is one. */
    method SkipFieldEnd(ghost entries: Tables.Entries) returns (failure: Option<Why>)
      requires at <= |text|
      modifies this
      ensures failure.None? ==> old(at) <= at <= |text| && Blank(text, at) == at
      ensures failure.None? ==> AfterField(text, old(at), entries) == Fields(text, at, entries)
      ensures failure.Some? ==> AfterField(text, old(at), entries) == Refused(failure.value)
    {
      AfterFieldGoesOn(text, at, entries);
      SkipBlank();
      if Peek(text, at) == Some(',') {
        at := at + 1;
        FieldsSkip(text, at, entries);
        SkipBlank();
      } else if Peek(text, at) != Some('}') {
        return Some(InlineEntry);
      }
      return None;
    }

    /** The loop over the items of an array. */
    method ReadItems() returns (r: Outcome<Value>)
      requires at <= |text|
      modifies this
      ensures r == Items(text, old(at), []) && (r.Read? ==> at == r.at)
      decreases |text| - at, 1
    {
      ghost var result := Items(text, at, []);
      var items: seq<Value> := [];
      ItemsSkip(text, at, items);
      SkipSpace();
      while Peek(text, at) != Some(']')
        invariant old(at) <= at <= |text| && Space(text, at) == at && Items(text, at, items) == result
        decreases |text| - at
      {
        ghost var start, was := at, items;
        var item := ReadNextValue();
        if item.Refused? { return Refused(item.why); }
        if item.Crashed? { return Crashed; }
        items := items + [item.value];
        assert Items(text, start, was) == AfterItem(text, at, items);
        var failure := SkipItemEnd(items);
        if failure.Some? { return Refused(failure.value); }
      }
      at := at + 1;
      return Read(Tables.Array(items), at);
    }

    /** The loop over the entries of an inline table. */
    method ReadFields() returns (r: Outcome<Value>)
      requires at <= |text|
      modifies this
      ensures r == Fields(text, old(at), map[]) && (r.Read? ==> at == r.at)
      decreases |text| - at, 2
    {
      ghost var result := Fields(text, at, map[]);
      var table := new Tree();
      FieldsSkip(text, at, map[]);
      SkipBlank();
      while Peek(text, at) != Some('}')
        invariant old(at) <= at <= |text| && Blank(text, at) == at && Fields(text, at, table.root) == result
        invariant fresh(table)
        decreases |text| - at
      {
        var entered := ReadField(table);
        if entered.Refused? { return Refused(entered.why); }
        if entered.Crashed? { return Crashed; }
        var failure := SkipFieldEnd(table.root);
        if failure.Some? { return Refused(failure.value); }
      }
      at := at + 1;
      return Read(Tables.Table(table.root), at);
    }

    /** One entry of an inline table, set in `table`. */
    method ReadField(table: Tree) returns (r: Outcome<()>)
      requires at <= |text| && Blank(text, at) == at && Peek(text, at) != Some('}')
      modifies this, table
      ensures r.Read? ==> old(at) < at <= |text|
      ensures r.Read? ==> Fields(text, old(at), old(table.root)) == AfterField(text, at, table.root)
      ensures r.Refused? ==> Fields(text, old(at), old(table.root)) == Refused(r.why)
      ensures r.Crashed? ==> Fields(text, old(at), old(table.root)) == Crashed
      decreases |text| - at, 1
    {
      ghost var was := table.root;
      var entry := ReadAssignment();
      if entry.Refused? { return Refused(entry.why); }
      if entry.Crashed? { return Crashed; }
      InsertAtRoot(was, entry.value.0, entry.value.1);
      var failure := table.Insert([], entry.value.0, entry.value.1);
      if failure.Some? { return Refused(Building(failure.value)); }
      return Read((), at);
    }

    /** A key, an equals sign and a value. */
    method ReadAssignment() returns (r: Outcome<(seq<string>, Value)>)
      requires at <= |text|
      modifies this
      ensures r == Assignment(text, old(at)) && (r.Read? ==> at == r.at)
      decreases |text| - at, 0
    {
      var key := ReadDottedKey();
      if key.Refused? { return Refused(key.why); }
      if key.Crashed? { return Crashed; }
      SkipBlank();
      r := ReadSetTo(key.value);
    }

    /** The equals sign after a key, and the value. */
    method ReadSetTo(key: seq<string>) returns (r: Outcome<(seq<string>, Value)>)
      requires at <= |text|
      modifies this
      ensures r == SetTo(text, old(at), key) && (r.Read? ==> at == r.at)
      decreases |text| - at, 0
    {
      if Peek(text, at) != Some('=') { return Refused(NoEquals); }
      at := at + 1;
      var value := ReadNextValue();
      if value.Refused? { return Refused(value.why); }
      if value.Crashed? { return Crashed; }
      return Read((key, value.value), at);
    }

    /** The path of a table header, to the end of its line. */
    method ReadTableHeader() returns (r: Outcome<Tables.Statement>)
      requires at < |text| && text[at] == '['
      modifies this
      ensures r == ReadHeader(text, old(at)) && (r.Read? ==> at == r.at)
    {
      var many := Starts(text, at, "[[");
      at := at + if many then 2 else 1;
      var path := ReadDottedKey();
      if path.Refused? { return Refused(path.why); }
      if path.Crashed? { return Crashed; }
      r := ReadHeaderEnd(path.value, many);
    }

    method ReadHeaderEnd(path: seq<string>, many: bool) returns (r: Outcome<Tables.Statement>)
      requires at <= |text|
      modifies this
      ensures r == HeaderEnd(text, old(at), path, many) && (r.Read? ==> at == r.at)
    {
      SkipBlank();
      var close := if many then "]]" else "]";
      if !Starts(text, at, close) { return Refused(HeaderNeverClosed); }
      at := at + |close|;
      var end := SkipEndOfLine();
      if end.Refused? { return Refused(end.why); }
      return Read(Tables.Header(path, many), at);
    }

    /** The next table header or line. */
    method ReadNextStatement() returns (r: Outcome<Tables.Statement>)
      requires at < |text|
      modifies this
      ensures r == ReadStatement(text, old(at)) && (r.Read? ==> at == r.at)
    {
      if text[at] == '[' {
        r := ReadTableHeader();
        return;
      }
      var entry := ReadAssignment();
      if entry.Refused? { return Refused(entry.why); }
      if entry.Crashed? { return Crashed; }
      var end := SkipEndOfLine();
      if end.Refused? { return Refused(end.why); }
      return Read(Tables.Line(entry.value.0, entry.value.1), at);
    }
  }

  lemma BlankTwice(text: string, at: nat)
    requires at <= |text|
    ensures Blank(text, Blank(text, at)) == Blank(text, at)
  {
  }

  lemma FieldsSkip(text: string, at: nat, entries: Tables.Entries)
    requires at <= |text|
    ensures Blank(text, Blank(text, at)) == Blank(text, at)
    ensures Fields(text, at, entries) == Fields(text, Blank(text, at), entries)
  {
    BlankTwice(text, at);
  }

  lemma SpaceTwice(text: string, at: nat)
    requires at <= |text|
    ensures Space(text, Space(text, at)) == Space(text, at)
  {
  }

  lemma ItemsSkip(text: string, at: nat, items: seq<Value>)
    requires at <= |text|
    ensures Space(text, Space(text, at)) == Space(text, at)
    ensures Items(text, at, items) == Items(text, Space(text, at), items)
  {
    SpaceTwice(text, at);
  }

  /** After an item the loop goes on behind a comma, or to the end mark. */
  lemma AfterItemGoesOn(text: string, at: nat, items: seq<Value>)
    requires at <= |text|
    ensures var e := Space(text, at);
      && Space(text, e) == e
      && (Peek(text, e) == Some(',') ==> AfterItem(text, at, items) == Items(text, e + 1, items))
      && (Peek(text, e) == Some(']') ==> AfterItem(text, at, items) == Items(text, e, items))
      && (Peek(text, e) != Some(',') && Peek(text, e) != Some(']') ==> AfterItem(text, at, items) == Refused(ArrayItem))
  {
    SpaceTwice(text, at);
  }

  lemma AfterFieldGoesOn(text: string, at: nat, entries: Tables.Entries)
    requires at <= |text|
    ensures var e := Blank(text, at);
      && Blank(text, e) == e
      && (Peek(text, e) == Some(',') ==> AfterField(text, at, entries) == Fields(text, e + 1, entries))
      && (Peek(text, e) == Some('}') ==> AfterField(text, at, entries) == Fields(text, e, entries))
      && (Peek(text, e) != Some(',') && Peek(text, e) != Some('}') ==> AfterField(text, at, entries) == Refused(InlineEntry))
  {
    BlankTwice(text, at);
  }

  lemma InsertAtRoot(t: Tables.Entries, key: seq<string>, value: Value)
    ensures Tables.HasTable(t, []) && Tables.InsertAt(t, [], key, value) == Tables.Insert(t, key, value)
  {
  }

  /** Build a statement into the tables; `current` is the path of the table
      last opened. */
  method Take(tree: Tree, current: seq<string>, statement: Tables.Statement)
    returns (failure: Option<Tables.Trouble>, current': seq<string>)
    modifies tree
    ensures var r := Tables.Apply(Tables.State(old(tree.root), current), statement);
      if failure.None? then r == Ok(Tables.State(tree.root, current')) else r == Err(failure.value)
  {
    current' := current;
    match statement
    case Header(path, many) =>
      var found := tree.Open(path, many);
      if found.Err? { return Some(found.error), current; }
      return None, path + if many then [Tables.MARK] else [];
    case Line(key, value) =>
      ghost var was := tree.root;
      var found := tree.Open(Tables.Shown(current), false);
      if found.Err? { return Some(found.error), current; }
      Tables.OpenFindsATable(was, Tables.Shown(current), false);
      failure := tree.Insert(found.value, key, value);
  }

  /** Read a whole document. */
  method ParseText(text: string) returns (r: Outcome<Tables.Entries>)
    ensures r == Parse(text)
  {
    var reader := new Reader(text);
    var tree := new Tree();
    var current: seq<string> := [];
    DocumentSkips(text, 0, Tables.State(map[], []));
    reader.SkipSpace();
    while reader.at < |text|
      invariant reader.text == text && reader.at <= |text| && Space(text, reader.at) == reader.at
      invariant Document(text, reader.at, Tables.State(tree.root, current)) == Parse(text)
      decreases |text| - reader.at
    {
      ghost var s := Tables.State(tree.root, current);
      ghost var start := reader.at;
      var statement := reader.ReadNextStatement();
      if statement.Refused? { return Refused(statement.why); }
      if statement.Crashed? { return Crashed; }
      var failure, next := Take(tree, current, statement.value);
      if failure.Some? { return Refused(Building(failure.value)); }
      current := next;
      assert Document(text, start, s) == Document(text, reader.at, Tables.State(tree.root, current));
      DocumentSkips(text, reader.at, Tables.State(tree.root, current));
      reader.SkipSpace();
    }
    return Read(tree.root, reader.at);
  }

  lemma DocumentSkips(text: string, at: nat, s: Tables.State)
    requires at <= |text|
    ensures Space(text, Space(text, at)) == Space(text, at)
    ensures Document(text, at, s) == Document(text, Space(text, at), s)
  {
    SpaceTwice(text, at);
  }
}
