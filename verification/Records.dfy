/** The record of a compiled unit as lines of text, and its reading back
    (kompilator/src/compile.rs, `Built`). */
module Records {
  import opened Common

  datatype Built = Built(
    lib: Option<(string, string)>,
    meta: Option<string>,
    searches: seq<string>,
    metadata: seq<(string, string)>,
    files: seq<(string, string)>,
    env: seq<(string, string)>,
    reused: bool)

  const NONE := Built(None, None, [], [], [], [], true)

  // --------------------------------------------------------------- writing

  /** The fields of one line of a record: a tag and one or two texts. */
  type Row = seq<string>

  function Single(tag: string, xs: seq<string>): (rows: seq<Row>)
    ensures |rows| == |xs| && forall i :: 0 <= i < |xs| ==> rows[i] == [tag, xs[i]]
  {
    seq(|xs|, i requires 0 <= i < |xs| => [tag, xs[i]])
  }

  function Double(tag: string, xs: seq<(string, string)>): (rows: seq<Row>)
    ensures |rows| == |xs| && forall i :: 0 <= i < |xs| ==> rows[i] == [tag, xs[i].0, xs[i].1]
  {
    seq(|xs|, i requires 0 <= i < |xs| => [tag, xs[i].0, xs[i].1])
  }

  function Listed<T>(x: Option<T>): seq<T> {
    if x.Some? then [x.value] else []
  }

  function Rows(b: Built): seq<Row> {
    Double("lib", Listed(b.lib)) + Single("rmeta", Listed(b.meta)) + Single("search", b.searches)
    + Double("meta", b.metadata) + Double("file", b.files) + Double("env", b.env)
  }

  function Line(row: Row): string {
    if row == [] then "\n" else if |row| == 1 then row[0] + "\n" else row[0] + "\t" + Line(row[1..])
  }

  function Text(rows: seq<Row>): string {
    if rows == [] then "" else Line(rows[0]) + Text(rows[1..])
  }

  lemma {:induction false} TextJoins(a: seq<Row>, b: seq<Row>)
    ensures Text(a + b) == Text(a) + Text(b)
    decreases |a|
  {
    if a == [] {
      assert a + b == b;
    } else {
      assert (a + b)[1..] == a[1..] + b;
      TextJoins(a[1..], b);
    }
  }

  lemma TextOneMore(rows: seq<Row>, row: Row)
    ensures Text(rows + [row]) == Text(rows) + Line(row)
  {
    TextJoins(rows, [row]);
    assert Text([row][1..]) == "";
  }

  lemma LineOfTwo(tag: string, x: string)
    ensures Line([tag, x]) == tag + "\t" + x + "\n"
  {
    assert [tag, x][1..] == [x];
  }

  lemma LineOfThree(tag: string, x: string, y: string)
    ensures Line([tag, x, y]) == tag + "\t" + x + "\t" + y + "\n"
  {
    assert [tag, x, y][1..] == [x, y];
    LineOfTwo(x, y);
  }

  method WriteSingles(start: string, ghost written: seq<Row>, tag: string, xs: seq<string>) returns (text: string)
    requires start == Text(written)
    ensures text == Text(written + Single(tag, xs))
  {
    text := start;
    ghost var rows := Single(tag, xs);
    assert written + rows[..0] == written;
    for i := 0 to |xs|
      invariant text == Text(written + rows[..i])
    {
      assert written + rows[..i + 1] == (written + rows[..i]) + [rows[i]];
      TextOneMore(written + rows[..i], rows[i]);
      LineOfTwo(tag, xs[i]);
      text := text + (tag + "\t" + xs[i] + "\n");
    }
    assert rows[..|xs|] == rows;
  }

  method WriteDoubles(start: string, ghost written: seq<Row>, tag: string, xs: seq<(string, string)>) returns (text: string)
    requires start == Text(written)
    ensures text == Text(written + Double(tag, xs))
  {
    text := start;
    ghost var rows := Double(tag, xs);
    assert written + rows[..0] == written;
    for i := 0 to |xs|
      invariant text == Text(written + rows[..i])
    {
      assert written + rows[..i + 1] == (written + rows[..i]) + [rows[i]];
      TextOneMore(written + rows[..i], rows[i]);
      LineOfThree(tag, xs[i].0, xs[i].1);
      text := text + (tag + "\t" + xs[i].0 + "\t" + xs[i].1 + "\n");
    }
    assert rows[..|xs|] == rows;
  }

  /** The text of a record. */
  method Write(b: Built) returns (text: string)
    ensures text == Text(Rows(b))
  {
    ghost var rows := Double("lib", Listed(b.lib));
    text := WriteDoubles("", [], "lib", Listed(b.lib));
    assert [] + rows == rows;
    text := WriteSingles(text, rows, "rmeta", Listed(b.meta));
    rows := rows + Single("rmeta", Listed(b.meta));
    text := WriteSingles(text, rows, "search", b.searches);
    rows := rows + Single("search", b.searches);
    text := WriteDoubles(text, rows, "meta", b.metadata);
    rows := rows + Double("meta", b.metadata);
    text := WriteDoubles(text, rows, "file", b.files);
    rows := rows + Double("file", b.files);
    text := WriteDoubles(text, rows, "env", b.env);
  }

  // --------------------------------------------------------------- reading

  function StripReturn(line: string): string {
    if line != "" && line[|line| - 1] == '\r' then line[..|line| - 1] else line
  }

  /** The lines of a text; only a line that ends loses its carriage return. */
  function Lines(text: string): seq<string>
    decreases |text|
  {
    if text == "" then []
    else
      match SplitOnce(text, '\n')
      case None => [text]
      case Some((line, rest)) => [StripReturn(line)] + Lines(rest)
  }

  /** At most three fields, split at the first two tabs. */
  function Fields(line: string): (row: Row)
    ensures 1 <= |row| <= 3
  {
    match SplitOnce(line, '\t')
    case None => [line]
    case Some((first, rest)) =>
      match SplitOnce(rest, '\t')
      case None => [first, rest]
      case Some((second, third)) => [first, second, third]
  }

  /** What one line adds; none when it is not a line of a record or its library
      is gone. `present` are the files that exist. */
  function ReadRow(present: set<string>, b: Built, row: Row): Option<Built> {
    if |row| == 3 && row[0] == "lib" then
      if row[2] in present then Some(b.(lib := Some((row[1], row[2])))) else None
    else if |row| == 2 && row[0] == "rmeta" then Some(b.(meta := Some(row[1])))
    else if |row| == 2 && row[0] == "search" then Some(b.(searches := b.searches + [row[1]]))
    else if |row| == 3 && row[0] == "meta" then Some(b.(metadata := b.metadata + [(row[1], row[2])]))
    else if |row| == 3 && row[0] == "file" then Some(b.(files := b.files + [(row[1], row[2])]))
    else if |row| == 3 && row[0] == "env" then Some(b.(env := b.env + [(row[1], row[2])]))
    else None
  }

  function ReadLines(present: set<string>, b: Built, lines: seq<string>): Option<Built>
    decreases |lines|
  {
    if lines == [] then Some(b)
    else
      match ReadRow(present, b, Fields(lines[0]))
      case None => None
      case Some(b') => ReadLines(present, b', lines[1..])
  }

  method Read(present: set<string>, text: string) returns (built: Option<Built>)
    ensures built == ReadLines(present, NONE, Lines(text))
  {
    var b := NONE;
    var lines := Lines(text);
    for i := 0 to |lines|
      invariant ReadLines(present, b, lines[i..]) == ReadLines(present, NONE, lines)
    {
      assert lines[i..][0] == lines[i] && lines[i..][1..] == lines[i + 1..];
      match ReadRow(present, b, Fields(lines[i])) {
        case None => return None;
        case Some(next) => b := next;
      }
    }
    return Some(b);
  }

  // ------------------------------------------------ what survives a record

  predicate NoBreak(text: string) { '\n' !in text }

  /** A first field holds neither tab nor line break, a last one no line break. */
  ghost predicate Plain(row: Row) {
    && 2 <= |row| <= 3
    && (forall i :: 0 <= i < |row| ==> NoBreak(row[i]))
    && (forall i :: 0 <= i < |row| - 1 ==> '\t' !in row[i])
    && (|row| == 2 ==> '\t' !in row[1])
  }

  /** The last field without its trailing carriage return. */
  function Stripped(row: Row): Row
    requires row != []
  {
    row[..|row| - 1] + [StripReturn(row[|row| - 1])]
  }

  /** A line that holds no line break is read as one line. */
  lemma LineIsRead(body: string, rest: string)
    requires NoBreak(body)
    ensures Lines(body + "\n" + rest) == [StripReturn(body)] + Lines(rest)
  {
    SplitAtFirst(body, '\n', rest);
    assert body + ['\n'] + rest == body + "\n" + rest;
  }

  lemma TwoFields(tag: string, x: string)
    requires '\t' !in tag && '\t' !in x
    ensures Fields(tag + "\t" + x) == [tag, x]
    ensures StripReturn(tag + "\t" + x) == tag + "\t" + StripReturn(x)
  {
    SplitAtFirst(tag, '\t', x);
    assert tag + ['\t'] + x == tag + "\t" + x;
  }

  lemma ThreeFields(tag: string, x: string, y: string)
    requires '\t' !in tag && '\t' !in x
    ensures Fields(tag + "\t" + x + "\t" + y) == [tag, x, y]
    ensures StripReturn(tag + "\t" + x + "\t" + y) == tag + "\t" + x + "\t" + StripReturn(y)
  {
    var rest := x + "\t" + y;
    SplitAtFirst(tag, '\t', rest);
    assert tag + ['\t'] + rest == tag + "\t" + x + "\t" + y;
    SplitAtFirst(x, '\t', y);
    assert x + ['\t'] + y == rest;
  }

  /** The line a plain row is read back from. */
  function ReadBack(row: Row): string
    requires Plain(row)
  {
    if |row| == 2 then row[0] + "\t" + StripReturn(row[1]) else row[0] + "\t" + row[1] + "\t" + StripReturn(row[2])
  }

  /** Writing a plain row and splitting the line again. */
  lemma LineIsReadBack(row: Row, rest: string)
    requires Plain(row)
    ensures Lines(Line(row) + rest) == [ReadBack(row)] + Lines(rest) && Fields(ReadBack(row)) == Stripped(row)
  {
    assert NoBreak(row[0]) && NoBreak(row[1]) && '\t' !in row[0] && '\t' !in row[1];
    if |row| == 2 {
      assert row == [row[0], row[1]];
      LineOfTwo(row[0], row[1]);
      TwoAreReadBack(row[0], row[1], rest);
    } else {
      assert NoBreak(row[2]) && row == [row[0], row[1], row[2]];
      LineOfThree(row[0], row[1], row[2]);
      ThreeAreReadBack(row[0], row[1], row[2], rest);
    }
  }

  lemma TwoAreReadBack(a: string, b: string, rest: string)
    requires NoBreak(a) && NoBreak(b) && '\t' !in a && '\t' !in b
    ensures Lines(a + "\t" + b + "\n" + rest) == [a + "\t" + StripReturn(b)] + Lines(rest)
    ensures Fields(a + "\t" + StripReturn(b)) == [a, StripReturn(b)]
  {
    TwoFields(a, b);
    TwoFields(a, StripReturn(b));
    LineIsRead(a + "\t" + b, rest);
  }

  lemma ThreeAreReadBack(a: string, b: string, c: string, rest: string)
    requires NoBreak(a) && NoBreak(b) && NoBreak(c) && '\t' !in a && '\t' !in b
    ensures Lines(a + "\t" + b + "\t" + c + "\n" + rest) == [a + "\t" + b + "\t" + StripReturn(c)] + Lines(rest)
    ensures Fields(a + "\t" + b + "\t" + StripReturn(c)) == [a, b, StripReturn(c)]
  {
    ThreeFields(a, b, c);
    ThreeFields(a, b, StripReturn(c));
    LineIsRead(a + "\t" + b + "\t" + c, rest);
  }

  function ReadRows(present: set<string>, b: Built, rows: seq<Row>): Option<Built>
    decreases |rows|
  {
    if rows == [] then Some(b)
    else
      match ReadRow(present, b, rows[0])
      case None => None
      case Some(b') => ReadRows(present, b', rows[1..])
  }

  function AllStripped(rows: seq<Row>): (stripped: seq<Row>)
    requires forall i :: 0 <= i < |rows| ==> rows[i] != []
    ensures |stripped| == |rows| && forall i :: 0 <= i < |rows| ==> stripped[i] == Stripped(rows[i])
  {
    seq(|rows|, i requires 0 <= i < |rows| => Stripped(rows[i]))
  }

  lemma {:induction false} TextIsReadBack(present: set<string>, b: Built, rows: seq<Row>)
    requires forall i :: 0 <= i < |rows| ==> Plain(rows[i]) && rows[i] != []
    ensures ReadLines(present, b, Lines(Text(rows))) == ReadRows(present, b, AllStripped(rows))
    decreases |rows|
  {
    if rows != [] {
      LineIsReadBack(rows[0], Text(rows[1..]));
      var line := ReadBack(rows[0]);
      assert ([line] + Lines(Text(rows[1..])))[1..] == Lines(Text(rows[1..]));
      assert AllStripped(rows)[1..] == AllStripped(rows[1..]);
      match ReadRow(present, b, Stripped(rows[0])) {
        case None =>
        case Some(b') => TextIsReadBack(present, b', rows[1..]);
      }
    }
  }

  lemma {:induction false} ReadRowsJoins(present: set<string>, b: Built, xs: seq<Row>, ys: seq<Row>)
    ensures ReadRows(present, b, xs + ys) ==
      match ReadRows(present, b, xs) case None => None case Some(b') => ReadRows(present, b', ys)
    decreases |xs|
  {
    if xs == [] {
      assert xs + ys == ys;
    } else {
      assert (xs + ys)[1..] == xs[1..] + ys;
      match ReadRow(present, b, xs[0]) {
        case None =>
        case Some(b') => ReadRowsJoins(present, b', xs[1..], ys);
      }
    }
  }

  /** Adding the texts of a tag to what was read. */
  function Add1(b: Built, tag: string, xs: seq<string>): Built {
    if tag == "search" then b.(searches := b.searches + xs) else b
  }

  function Add2(b: Built, tag: string, xs: seq<(string, string)>): Built {
    if tag == "meta" then b.(metadata := b.metadata + xs)
    else if tag == "file" then b.(files := b.files + xs)
    else if tag == "env" then b.(env := b.env + xs)
    else b
  }

  lemma {:induction false} ReadSearches(present: set<string>, b: Built, xs: seq<string>)
    ensures ReadRows(present, b, Single("search", xs)) == Some(Add1(b, "search", xs))
    decreases |xs|
  {
    if xs == [] {
      assert b.searches + [] == b.searches;
    } else {
      assert Single("search", xs)[1..] == Single("search", xs[1..]);
      ReadSearches(present, b.(searches := b.searches + [xs[0]]), xs[1..]);
      assert b.searches + [xs[0]] + xs[1..] == b.searches + xs;
    }
  }

  lemma AddInTwo(b: Built, tag: string, x: (string, string), xs: seq<(string, string)>)
    ensures Add2(Add2(b, tag, [x]), tag, xs) == Add2(b, tag, [x] + xs)
  {
    assert b.metadata + [x] + xs == b.metadata + ([x] + xs);
    assert b.files + [x] + xs == b.files + ([x] + xs);
    assert b.env + [x] + xs == b.env + ([x] + xs);
  }

  lemma {:induction false} ReadDoubles(present: set<string>, b: Built, tag: string, xs: seq<(string, string)>)
    requires tag in {"meta", "file", "env"}
    ensures ReadRows(present, b, Double(tag, xs)) == Some(Add2(b, tag, xs))
    decreases |xs|
  {
    if xs == [] {
      assert b.metadata + [] == b.metadata && b.files + [] == b.files && b.env + [] == b.env;
    } else {
      assert Double(tag, xs)[1..] == Double(tag, xs[1..]);
      assert [xs[0]] + xs[1..] == xs;
      ReadDouble(present, b, tag, xs[0]);
      ReadDoubles(present, Add2(b, tag, [xs[0]]), tag, xs[1..]);
      AddInTwo(b, tag, xs[0], xs[1..]);
    }
  }

  lemma ReadDouble(present: set<string>, b: Built, tag: string, x: (string, string))
    requires tag in {"meta", "file", "env"}
    ensures ReadRow(present, b, [tag, x.0, x.1]) == Some(Add2(b, tag, [x]))
  {
  }

  lemma ReadLib(present: set<string>, b: Built, lib: Option<(string, string)>)
    requires b.lib == None
    ensures ReadRows(present, b, Double("lib", Listed(lib))) ==
      if lib.Some? && lib.value.1 !in present then None else Some(b.(lib := lib))
  {
    if lib.Some? {
      assert Double("lib", Listed(lib)) == [["lib", lib.value.0, lib.value.1]];
    }
  }

  lemma ReadMeta(present: set<string>, b: Built, meta: Option<string>)
    requires b.meta == None
    ensures ReadRows(present, b, Single("rmeta", Listed(meta))) == Some(b.(meta := meta))
  {
    if meta.Some? {
      assert Single("rmeta", Listed(meta)) == [["rmeta", meta.value]];
    }
  }

  /** The rows of a record give it back, if its library is there. */
  lemma RowsAreReadBack(present: set<string>, b: Built)
    ensures ReadRows(present, NONE, Rows(b)) ==
      if b.lib.Some? && b.lib.value.1 !in present then None else Some(b.(reused := true))
  {
    var lib, meta, search := Double("lib", Listed(b.lib)), Single("rmeta", Listed(b.meta)), Single("search", b.searches);
    var metadata, files, env := Double("meta", b.metadata), Double("file", b.files), Double("env", b.env);
    ReadRowsJoins(present, NONE, lib + meta + search + metadata + files, env);
    ReadRowsJoins(present, NONE, lib + meta + search + metadata, files);
    ReadRowsJoins(present, NONE, lib + meta + search, metadata);
    ReadRowsJoins(present, NONE, lib + meta, search);
    ReadRowsJoins(present, NONE, lib, meta);
    ReadLib(present, NONE, b.lib);
    if !(b.lib.Some? && b.lib.value.1 !in present) {
      var b1 := NONE.(lib := b.lib);
      ReadMeta(present, b1, b.meta);
      var b2 := b1.(meta := b.meta);
      ReadSearches(present, b2, b.searches);
      var b3 := b2.(searches := b.searches);
      assert [] + b.searches == b.searches && [] + b.metadata == b.metadata;
      assert [] + b.files == b.files && [] + b.env == b.env;
      ReadDoubles(present, b3, "meta", b.metadata);
      var b4 := b3.(metadata := b.metadata);
      ReadDoubles(present, b4, "file", b.files);
      ReadDoubles(present, b4.(files := b.files), "env", b.env);
    }
  }

  // ------------------------------------------------- exactly what survives

  predicate IsKey(text: string) { '\t' !in text && '\n' !in text }

  /** No key, search path or interface holds a tab or a line break, and no
      other field a line break. */
  ghost predicate Legible(b: Built) {
    && (b.lib.Some? ==> IsKey(b.lib.value.0) && NoBreak(b.lib.value.1))
    && (b.meta.Some? ==> IsKey(b.meta.value))
    && (forall i :: 0 <= i < |b.searches| ==> IsKey(b.searches[i]))
    && LegiblePairs(b.metadata) && LegiblePairs(b.files) && LegiblePairs(b.env)
  }

  ghost predicate LegiblePairs(xs: seq<(string, string)>) {
    forall i :: 0 <= i < |xs| ==> IsKey(xs[i].0) && NoBreak(xs[i].1)
  }

  /** The last field of each line without a trailing carriage return. */
  function Trimmed(b: Built): Built {
    b.(lib := if b.lib.Some? then Some((b.lib.value.0, StripReturn(b.lib.value.1))) else None,
       meta := if b.meta.Some? then Some(StripReturn(b.meta.value)) else None,
       searches := seq(|b.searches|, i requires 0 <= i < |b.searches| => StripReturn(b.searches[i])),
       metadata := TrimmedPairs(b.metadata), files := TrimmedPairs(b.files), env := TrimmedPairs(b.env))
  }

  function TrimmedPairs(xs: seq<(string, string)>): (ys: seq<(string, string)>)
    ensures |ys| == |xs| && forall i :: 0 <= i < |xs| ==> ys[i] == (xs[i].0, StripReturn(xs[i].1))
  {
    seq(|xs|, i requires 0 <= i < |xs| => (xs[i].0, StripReturn(xs[i].1)))
  }

  ghost predicate AllPlain(rows: seq<Row>) {
    forall i :: 0 <= i < |rows| ==> Plain(rows[i])
  }

  lemma PairsRows(tag: string, xs: seq<(string, string)>)
    requires IsKey(tag) && LegiblePairs(xs)
    ensures AllPlain(Double(tag, xs)) && AllStripped(Double(tag, xs)) == Double(tag, TrimmedPairs(xs))
  {
    forall i | 0 <= i < |xs| ensures AllStripped(Double(tag, xs))[i] == Double(tag, TrimmedPairs(xs))[i] {
      assert Stripped([tag, xs[i].0, xs[i].1]) == [tag, xs[i].0, StripReturn(xs[i].1)];
    }
  }

  lemma SinglesRows(tag: string, xs: seq<string>, ys: seq<string>)
    requires IsKey(tag) && forall i :: 0 <= i < |xs| ==> IsKey(xs[i])
    requires |ys| == |xs| && forall i :: 0 <= i < |xs| ==> ys[i] == StripReturn(xs[i])
    ensures AllPlain(Single(tag, xs)) && AllStripped(Single(tag, xs)) == Single(tag, ys)
  {
    forall i | 0 <= i < |xs| ensures AllStripped(Single(tag, xs))[i] == Single(tag, ys)[i] {
      assert Stripped([tag, xs[i]]) == [tag, StripReturn(xs[i])];
    }
  }

  lemma StrippedJoins(a: seq<Row>, b: seq<Row>)
    requires AllPlain(a) && AllPlain(b)
    ensures AllPlain(a + b) && AllStripped(a + b) == AllStripped(a) + AllStripped(b)
  {
    assert forall i :: 0 <= i < |a + b| ==> (a + b)[i] == if i < |a| then a[i] else b[i - |a|];
  }

  lemma LegibleRows(b: Built)
    requires Legible(b)
    ensures AllPlain(Rows(b)) && AllStripped(Rows(b)) == Rows(Trimmed(b))
  {
    var lib, meta, search := Double("lib", Listed(b.lib)), Single("rmeta", Listed(b.meta)), Single("search", b.searches);
    var t := Trimmed(b);
    PairsRows("lib", Listed(b.lib));
    assert Listed(t.lib) == TrimmedPairs(Listed(b.lib));
    SinglesRows("rmeta", Listed(b.meta), Listed(t.meta));
    SinglesRows("search", b.searches, t.searches);
    StrippedJoins(lib, meta);
    StrippedJoins(lib + meta, search);
    PairsRows("meta", b.metadata);
    PairsRows("file", b.files);
    PairsRows("env", b.env);
    StrippedJoins(lib + meta + search, Double("meta", b.metadata));
    StrippedJoins(lib + meta + search + Double("meta", b.metadata), Double("file", b.files));
    StrippedJoins(lib + meta + search + Double("meta", b.metadata) + Double("file", b.files), Double("env", b.env));
  }

  /** A legible record is read back but for trailing carriage returns. */
  lemma LegibleIsReadBack(present: set<string>, b: Built)
    requires Legible(b)
    ensures var t := Trimmed(b);
      ReadLines(present, NONE, Lines(Text(Rows(b)))) ==
        if t.lib.Some? && t.lib.value.1 !in present then None else Some(t.(reused := true))
  {
    LegibleRows(b);
    TextIsReadBack(present, NONE, Rows(b));
    RowsAreReadBack(present, Trimmed(b));
  }

  lemma {:induction false} LinesHoldNoBreak(text: string)
    ensures forall i :: 0 <= i < |Lines(text)| ==> NoBreak(Lines(text)[i])
    decreases |text|
  {
    match SplitOnce(text, '\n') {
      case None =>
      case Some((line, rest)) => LinesHoldNoBreak(rest);
    }
  }

  lemma FieldsAreKeys(line: string)
    requires NoBreak(line)
    ensures var row := Fields(line);
      && (forall i :: 0 <= i < |row| ==> NoBreak(row[i]))
      && (forall i :: 0 <= i < |row| - 1 ==> IsKey(row[i]))
      && (|row| == 2 ==> IsKey(row[1]))
  {
    match SplitOnce(line, '\t') {
      case None =>
      case Some((first, rest)) =>
        assert forall c :: c in first || c in rest ==> c in line;
        match SplitOnce(rest, '\t') {
          case None =>
          case Some((second, third)) =>
            assert forall c :: c in second || c in third ==> c in rest;
        }
    }
  }

  lemma RowIsLegible(present: set<string>, b: Built, row: Row)
    requires Legible(b) && ReadRow(present, b, row).Some?
    requires (forall i :: 0 <= i < |row| ==> NoBreak(row[i])) && (forall i :: 0 <= i < |row| - 1 ==> IsKey(row[i]))
    requires |row| == 2 ==> IsKey(row[1])
    ensures Legible(ReadRow(present, b, row).value)
  {
  }

  /** Only legible records are ever read. */
  lemma {:induction false} ReadIsLegible(present: set<string>, b: Built, lines: seq<string>)
    requires Legible(b) && forall i :: 0 <= i < |lines| ==> NoBreak(lines[i])
    ensures var r := ReadLines(present, b, lines); r.Some? ==> Legible(r.value)
    decreases |lines|
  {
    if lines != [] {
      FieldsAreKeys(lines[0]);
      match ReadRow(present, b, Fields(lines[0])) {
        case None =>
        case Some(b') =>
          RowIsLegible(present, b, Fields(lines[0]));
          ReadIsLegible(present, b', lines[1..]);
      }
    }
  }

  /** Reading undoes writing exactly when the record is legible, no last field
      ends in a carriage return, and its library is there. */
  lemma ReadUndoesWrite(present: set<string>, b: Built)
    ensures ReadLines(present, NONE, Lines(Text(Rows(b)))) == Some(b.(reused := true)) <==>
      Legible(b) && Trimmed(b) == b && (b.lib.Some? ==> b.lib.value.1 in present)
  {
    var r := ReadLines(present, NONE, Lines(Text(Rows(b))));
    LinesHoldNoBreak(Text(Rows(b)));
    ReadIsLegible(present, NONE, Lines(Text(Rows(b))));
    if Legible(b) {
      LegibleIsReadBack(present, b);
    } else {
      assert !Legible(b.(reused := true));
    }
  }
}
