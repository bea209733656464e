/** Exactly when reading a document stops the program: reading the text before
    the cut escape, side by side with the whole (kompilator/src/toml.rs). */
module TomlCut {
  import opened Common
  import opened Tables
  import opened Toml
  import opened TomlCrash

  /** `pre` is the text before the escape at `i` that the end cuts short. */
  ghost predicate Halves(text: string, pre: string, i: nat) {
    CutAt(text, i) && pre == text[..i]
  }

  /** A reading of the text and one of the part before `i`: the same, or both
      came to `i`, and the one stops the program exactly when the other leaves
      a multi-line string open. */
  ghost predicate Agree<T>(r: Outcome<T>, p: Outcome<T>, i: nat) {
    || (r.Read? && r.at <= i && p == r)
    || ((r.Read? ==> r.at > i) && (p.Read? ==> p.at == i) && (r.Crashed? <==> p == Refused(MultiLineNeverClosed)))
  }

  /** After the cut nothing stops the program. */
  lemma CutIsLast(text: string, pre: string, i: nat, at: nat)
    requires Halves(text, pre, i) && at > i
    ensures !CutFrom(text, at)
  {
    DigitsHoldNoBackslash(text[i + 2..]);
    forall j | i < j < |text| ensures text[j] != '\\' {
      if j > i + 1 { assert text[j] == text[i + 2..][j - i - 2]; }
    }
  }

  // --------------------------------------------------------------- cursors

  lemma {:induction false} BlankAlike(text: string, pre: string, i: nat, at: nat)
    requires Halves(text, pre, i) && at <= i
    ensures Blank(text, at) == Blank(pre, at) <= i
    decreases i - at
  {
    if at < i { BlankAlike(text, pre, i, at + 1); }
  }

  lemma {:induction false} LineEndAlike(text: string, pre: string, i: nat, at: nat)
    requires Halves(text, pre, i) && at <= i
    ensures LineEnd(text, at) == LineEnd(pre, at) < i || (LineEnd(text, at) > i && LineEnd(pre, at) == i)
    decreases i - at
  {
    if at < i && text[at] != '\n' { LineEndAlike(text, pre, i, at + 1); }
  }

  lemma {:induction false} SpaceAlike(text: string, pre: string, i: nat, at: nat)
    requires Halves(text, pre, i) && at <= i
    ensures Space(text, at) == Space(pre, at) <= i || (Space(text, at) > i && Space(pre, at) == i)
    decreases i - at
  {
    if at < i {
      if IsSpace(text[at]) {
        SpaceAlike(text, pre, i, at + 1);
      } else if text[at] == '#' {
        LineEndAlike(text, pre, i, at);
        if LineEnd(text, at) < i { SpaceAlike(text, pre, i, LineEnd(text, at)); }
      }
    }
  }

  lemma {:induction false} BareEndAlike(text: string, pre: string, i: nat, at: nat)
    requires Halves(text, pre, i) && at <= i
    ensures BareEnd(text, at) == BareEnd(pre, at) <= i
    decreases i - at
  {
    if at < i && IsBare(text[at]) { BareEndAlike(text, pre, i, at + 1); }
  }

  lemma {:induction false} WordEndAlike(text: string, pre: string, i: nat, at: nat)
    requires Halves(text, pre, i) && at <= i
    ensures WordEnd(text, at) == WordEnd(pre, at) < i || (WordEnd(text, at) > i && WordEnd(pre, at) == i)
    decreases i - at
  {
    if at < i && !EndsWord(text[at]) { WordEndAlike(text, pre, i, at + 1); }
  }

  lemma SliceAlike(text: string, pre: string, i: nat, from: nat, to: nat)
    requires Halves(text, pre, i) && from <= to <= i
    ensures text[from..to] == pre[from..to]
  {
  }

  lemma EndOfLineAgrees(text: string, pre: string, i: nat, at: nat)
    requires Halves(text, pre, i) && at <= i
    ensures Agree(EndOfLine(text, at), EndOfLine(pre, at), i)
  {
    BlankAlike(text, pre, i, at);
    var b := Blank(text, at);
    if Peek(text, b) == Some('#') { LineEndAlike(text, pre, i, b); }
  }

  // --------------------------------------------------------------- strings

  lemma {:induction false} MultiLineAgrees(text: string, pre: string, i: nat, at: nat, out: string)
    requires Halves(text, pre, i) && at <= i
    ensures Agree(MultiLine(text, at, out), MultiLine(pre, at, out), i)
    decreases i - at
  {
    CutStringCrashesIff(text, at, out, i);
    StartsAlike(text, at, i, QUOTES);
    StartsAlike(text, at, i, QUOTES + "\"");
    if at < i && !(Starts(text, at, QUOTES) && !Starts(text, at, QUOTES + "\"")) {
      if text[at] == '\\' {
        if at + 1 < i {
          EscapeAlike(text, at + 1, i);
          var r := Escape(text, at + 1);
          if r.Read? { MultiLineAgrees(text, pre, i, r.at, out + r.value); }
        }
      } else {
        MultiLineAgrees(text, pre, i, at + 1, out + [text[at]]);
      }
    }
  }

  lemma {:induction false} OneLineAgrees(text: string, pre: string, i: nat, at: nat, out: string)
    requires Halves(text, pre, i) && at <= i
    ensures Agree(OneLine(text, at, out), OneLine(pre, at, out), i)
    decreases i - at
  {
    if at < i && text[at] != '\n' && text[at] != '"' {
      if text[at] == '\\' {
        if at + 1 < i {
          EscapeAlike(text, at + 1, i);
          var r := Escape(text, at + 1);
          if r.Read? { OneLineAgrees(text, pre, i, r.at, out + r.value); }
        }
      } else {
        OneLineAgrees(text, pre, i, at + 1, out + [text[at]]);
      }
    }
  }

  lemma AfterOpeningAlike(text: string, pre: string, i: nat, at: nat)
    requires Halves(text, pre, i) && at <= i
    ensures AfterOpening(text, at) == AfterOpening(pre, at) <= i
  {
    StartsAlike(text, at, i, "\r\n");
  }

  lemma BasicStringAgrees(text: string, pre: string, i: nat, at: nat)
    requires Halves(text, pre, i) && at < i
    ensures Agree(BasicString(text, at), BasicString(pre, at), i)
  {
    StartsAlike(text, at, i, QUOTES);
    if Starts(text, at, QUOTES) {
      assert at + 3 <= i;
      AfterOpeningAlike(text, pre, i, at + 3);
      MultiLineAgrees(text, pre, i, AfterOpening(text, at + 3), "");
    } else {
      OneLineAgrees(text, pre, i, at + 1, "");
    }
  }

  lemma {:induction false} LiteralMultiLineAgrees(text: string, pre: string, i: nat, start: nat, at: nat)
    requires Halves(text, pre, i) && start <= at <= i
    ensures Agree(LiteralMultiLine(text, start, at), LiteralMultiLine(pre, start, at), i)
    decreases i - at
  {
    StartsAlike(text, at, i, APOSTROPHES);
    StartsAlike(text, at, i, APOSTROPHES + "\'");
    SliceAlike(text, pre, i, start, at);
    if at < i { LiteralMultiLineAgrees(text, pre, i, start, at + 1); }
  }

  lemma {:induction false} LiteralOneLineAgrees(text: string, pre: string, i: nat, start: nat, at: nat)
    requires Halves(text, pre, i) && start <= at <= i
    ensures Agree(LiteralOneLine(text, start, at), LiteralOneLine(pre, start, at), i)
    decreases i - at
  {
    SliceAlike(text, pre, i, start, at);
    if at < i { LiteralOneLineAgrees(text, pre, i, start, at + 1); }
  }

  lemma LiteralStringAgrees(text: string, pre: string, i: nat, at: nat)
    requires Halves(text, pre, i) && at < i
    ensures Agree(LiteralString(text, at), LiteralString(pre, at), i)
  {
    StartsAlike(text, at, i, APOSTROPHES);
    if Starts(text, at, APOSTROPHES) {
      assert at + 3 <= i;
      AfterOpeningAlike(text, pre, i, at + 3);
      LiteralMultiLineAgrees(text, pre, i, AfterOpening(text, at + 3), AfterOpening(text, at + 3));
    } else {
      LiteralOneLineAgrees(text, pre, i, at + 1, at + 1);
    }
  }

  // ------------------------------------------------------------------ keys

  lemma KeyPartAgrees(text: string, pre: string, i: nat, at: nat)
    requires Halves(text, pre, i) && at <= i
    ensures Agree(KeyPart(text, at), KeyPart(pre, at), i)
  {
    BlankAlike(text, pre, i, at);
    var b := Blank(text, at);
    if b < i && text[b] == '"' {
      BasicStringAgrees(text, pre, i, b);
    } else if b < i && text[b] == '\'' {
      LiteralStringAgrees(text, pre, i, b);
    } else {
      BareEndAlike(text, pre, i, b);
      SliceAlike(text, pre, i, b, BareEnd(text, b));
    }
  }

  /** Nothing is read at the end of a text, and no string is open there. */
  lemma AtTheEnd(pre: string, parts: seq<string>, items: seq<Value>, entries: Entries)
    ensures KeyPart(pre, |pre|) == Refused(KeyExpected) && KeyParts(pre, |pre|, parts) == Read(parts, |pre|)
    ensures Blank(pre, |pre|) == Space(pre, |pre|) == |pre|
    ensures Assignment(pre, |pre|) == Refused(KeyExpected)
    ensures ReadValue(pre, |pre|) == Items(pre, |pre|, items) == Refused(ValueExpected)
    ensures Fields(pre, |pre|, entries) == Refused(KeyExpected)
    ensures AfterItem(pre, |pre|, items) == Refused(ArrayItem) && AfterField(pre, |pre|, entries) == Refused(InlineEntry)
  {
  }

  lemma {:induction false} KeyPartsAgree(text: string, pre: string, i: nat, at: nat, parts: seq<string>)
    requires Halves(text, pre, i) && at <= i
    ensures Agree(KeyParts(text, at, parts), KeyParts(pre, at, parts), i)
    decreases i - at
  {
    if at < i && text[at] == '.' {
      KeyPartAgrees(text, pre, i, at + 1);
      var r, p := KeyPart(text, at + 1), KeyPart(pre, at + 1);
      if r.Read? && r.at <= i {
        BlankAlike(text, pre, i, r.at);
        KeyPartsAgree(text, pre, i, Blank(text, r.at), parts + [r.value]);
      } else {
        MoreKeyParts(text, pre, i, parts, r, p);
      }
    }
  }

  /** Past the cut, further parts of a key neither stop the program nor leave a
      string open. */
  lemma MoreKeyParts(text: string, pre: string, i: nat, parts: seq<string>, r: Outcome<string>, p: Outcome<string>)
    requires Halves(text, pre, i) && Agree(r, p, i) && (r.Read? ==> i < r.at <= |text|)
    ensures r.Read? ==> !KeyParts(text, Blank(text, r.at), parts + [r.value]).Crashed?
    ensures p.Read? && p.at == i ==> KeyParts(pre, Blank(pre, p.at), parts + [p.value]) == Read(parts + [p.value], i)
  {
    if r.Read? && KeyParts(text, Blank(text, r.at), parts + [r.value]).Crashed? {
      KeyPartsNeedACut(text, Blank(text, r.at), parts + [r.value]);
      CutIsLast(text, pre, i, Blank(text, r.at));
    }
    if p.Read? { AtTheEnd(pre, parts + [p.value], [], map[]); }
  }

  lemma KeyAgrees(text: string, pre: string, i: nat, at: nat)
    requires Halves(text, pre, i) && at <= i
    ensures Agree(ReadKey(text, at), ReadKey(pre, at), i)
  {
    KeyPartAgrees(text, pre, i, at);
    var r, p := KeyPart(text, at), KeyPart(pre, at);
    if r.Read? && r.at <= i {
      BlankAlike(text, pre, i, r.at);
      KeyPartsAgree(text, pre, i, Blank(text, r.at), [r.value]);
    } else {
      MoreKeyParts(text, pre, i, [], r, p);
      if r.Read? { assert [] + [r.value] == [r.value]; }
      if p.Read? { assert [] + [p.value] == [p.value]; }
    }
  }

  // ---------------------------------------------------------------- values

  lemma WordAgrees(text: string, pre: string, i: nat, at: nat)
    requires Halves(text, pre, i) && at < i
    ensures Agree(Word(text, at), Word(pre, at), i)
  {
    WordEndAlike(text, pre, i, at);
    SliceAlike(text, pre, i, at, WordEnd(pre, at));
  }

  lemma {:induction false} ValueAgrees(text: string, pre: string, i: nat, at: nat)
    requires Halves(text, pre, i) && at <= i
    ensures Agree(ReadValue(text, at), ReadValue(pre, at), i)
    decreases i - at, 0
  {
    BlankAlike(text, pre, i, at);
    var b := Blank(text, at);
    if b == i {
      ValueAtTheCut(text, pre, i, at);
    } else if text[b] == '"' {
      BasicStringAgrees(text, pre, i, b);
    } else if text[b] == '\'' {
      LiteralStringAgrees(text, pre, i, b);
    } else if text[b] == '[' {
      ItemsAgree(text, pre, i, b + 1, []);
    } else if text[b] == '{' {
      FieldsAgree(text, pre, i, b + 1, map[]);
    } else {
      StartsAlike(text, b, i, "true");
      StartsAlike(text, b, i, "false");
      WordAgrees(text, pre, i, b);
    }
  }

  lemma ValueAtTheCut(text: string, pre: string, i: nat, at: nat)
    requires Halves(text, pre, i) && at <= i && Blank(text, at) == Blank(pre, at) == i
    ensures Agree(ReadValue(text, at), ReadValue(pre, at), i)
  {
    NotStarting(text, i, "true", 0);
    NotStarting(text, i, "false", 0);
  }

  lemma {:induction false} ItemsAgree(text: string, pre: string, i: nat, at: nat, items: seq<Value>)
    requires Halves(text, pre, i) && at <= i
    ensures Agree(Items(text, at, items), Items(pre, at, items), i)
    decreases i - at, 2
  {
    SpaceAlike(text, pre, i, at);
    var s := Space(text, at);
    if s > i {
      ItemsPastTheCut(text, pre, i, at, items);
    } else if Peek(text, s) != Some(']') {
      ValueAgrees(text, pre, i, s);
      var r, p := ReadValue(text, s), ReadValue(pre, s);
      if r.Read? && r.at <= i {
        AfterItemAgrees(text, pre, i, r.at, items + [r.value]);
      } else {
        MoreItems(text, pre, i, items, r, p);
      }
    }
  }

  /** The rest of an array that begins in a comment past the cut. */
  lemma ItemsPastTheCut(text: string, pre: string, i: nat, at: nat, items: seq<Value>)
    requires Halves(text, pre, i) && at <= i && Space(text, at) > i && Space(pre, at) == i
    ensures Agree(Items(text, at, items), Items(pre, at, items), i)
  {
    if Items(text, at, items).Crashed? {
      assert Space(text, Space(text, at)) == Space(text, at);
      ItemsNeedACut(text, Space(text, at), items);
      CutIsLast(text, pre, i, Space(text, at));
    }
    AtTheEnd(pre, [], items, map[]);
  }

  lemma MoreItems(text: string, pre: string, i: nat, items: seq<Value>, r: Outcome<Value>, p: Outcome<Value>)
    requires Halves(text, pre, i) && Agree(r, p, i) && (r.Read? ==> i < r.at <= |text|)
    ensures r.Read? ==> !AfterItem(text, r.at, items + [r.value]).Crashed?
    ensures p.Read? && p.at == i ==> AfterItem(pre, p.at, items + [p.value]) == Refused(ArrayItem)
  {
    if r.Read? { AfterItemPast(text, pre, i, r.at, items + [r.value]); }
    if p.Read? { AtTheEnd(pre, [], items + [p.value], map[]); }
  }

  lemma AfterItemPast(text: string, pre: string, i: nat, at: nat, items: seq<Value>)
    requires Halves(text, pre, i) && i < at <= |text|
    ensures !AfterItem(text, at, items).Crashed?
  {
    var e := Space(text, at);
    if Peek(text, e) == Some(',') && Items(text, e + 1, items).Crashed? {
      ItemsNeedACut(text, e + 1, items);
      CutIsLast(text, pre, i, e + 1);
    }
  }

  lemma {:induction false} AfterItemAgrees(text: string, pre: string, i: nat, at: nat, items: seq<Value>)
    requires Halves(text, pre, i) && at <= i
    ensures Agree(AfterItem(text, at, items), AfterItem(pre, at, items), i)
    decreases i - at, 3
  {
    SpaceAlike(text, pre, i, at);
    var e := Space(text, at);
    if e > i {
      AfterItemPast(text, pre, i, e, items);
      assert Space(text, e) == e;
    } else if Peek(text, e) == Some(',') {
      ItemsAgree(text, pre, i, e + 1, items);
    }
  }

  lemma {:induction false} FieldsAgree(text: string, pre: string, i: nat, at: nat, entries: Entries)
    requires Halves(text, pre, i) && at <= i
    ensures Agree(Fields(text, at, entries), Fields(pre, at, entries), i)
    decreases i - at, 2
  {
    BlankAlike(text, pre, i, at);
    var s := Blank(text, at);
    if Peek(text, s) != Some('}') {
      AssignmentAgrees(text, pre, i, s);
      var r, p := Assignment(text, s), Assignment(pre, s);
      if r.Read? && r.at <= i {
        var (key, value) := r.value;
        var inserted := Insert(entries, key, value);
        if inserted.Ok? { AfterFieldAgrees(text, pre, i, r.at, inserted.value); }
      } else {
        MoreFields(text, pre, i, entries, r, p);
      }
    }
  }

  lemma MoreFields(text: string, pre: string, i: nat, entries: Entries,
                   r: Outcome<(seq<string>, Value)>, p: Outcome<(seq<string>, Value)>)
    requires Halves(text, pre, i) && Agree(r, p, i) && (r.Read? ==> i < r.at <= |text|)
    ensures r.Read? && Insert(entries, r.value.0, r.value.1).Ok? ==>
      !AfterField(text, r.at, Insert(entries, r.value.0, r.value.1).value).Crashed?
    ensures p.Read? && p.at == i && Insert(entries, p.value.0, p.value.1).Ok? ==>
      AfterField(pre, p.at, Insert(entries, p.value.0, p.value.1).value) == Refused(InlineEntry)
  {
    if r.Read? && Insert(entries, r.value.0, r.value.1).Ok? {
      AfterFieldPast(text, pre, i, r.at, Insert(entries, r.value.0, r.value.1).value);
    }
    if p.Read? && Insert(entries, p.value.0, p.value.1).Ok? {
      AtTheEnd(pre, [], [], Insert(entries, p.value.0, p.value.1).value);
    }
  }

  lemma AfterFieldPast(text: string, pre: string, i: nat, at: nat, entries: Entries)
    requires Halves(text, pre, i) && i < at <= |text|
    ensures !AfterField(text, at, entries).Crashed?
  {
    var e := Blank(text, at);
    if Peek(text, e) == Some(',') && Fields(text, e + 1, entries).Crashed? {
      FieldsNeedACut(text, e + 1, entries);
      CutIsLast(text, pre, i, e + 1);
    }
  }

  lemma {:induction false} AfterFieldAgrees(text: string, pre: string, i: nat, at: nat, entries: Entries)
    requires Halves(text, pre, i) && at <= i
    ensures Agree(AfterField(text, at, entries), AfterField(pre, at, entries), i)
    decreases i - at, 3
  {
    BlankAlike(text, pre, i, at);
    var e := Blank(text, at);
    if Peek(text, e) == Some(',') { FieldsAgree(text, pre, i, e + 1, entries); }
  }

  lemma {:induction false} AssignmentAgrees(text: string, pre: string, i: nat, at: nat)
    requires Halves(text, pre, i) && at <= i
    ensures Agree(Assignment(text, at), Assignment(pre, at), i)
    decreases i - at, 0
  {
    KeyAgrees(text, pre, i, at);
    var r, p := ReadKey(text, at), ReadKey(pre, at);
    if r.Read? && r.at <= i {
      BlankAlike(text, pre, i, r.at);
      SetToAgrees(text, pre, i, Blank(text, r.at), r.value);
    } else {
      AssignmentPast(text, pre, i, at, r, p);
    }
  }

  lemma {:induction false} SetToAgrees(text: string, pre: string, i: nat, at: nat, key: seq<string>)
    requires Halves(text, pre, i) && at <= i
    ensures Agree(SetTo(text, at, key), SetTo(pre, at, key), i)
    decreases i - at, 0
  {
    if at < i && text[at] == '=' {
      ValueAgrees(text, pre, i, at + 1);
      AssignedAlike(key, ReadValue(text, at + 1), ReadValue(pre, at + 1), i);
    }
  }

  lemma AssignedAlike(key: seq<string>, r: Outcome<Value>, p: Outcome<Value>, i: nat)
    requires Agree(r, p, i)
    ensures Agree(Assigned(key, r), Assigned(key, p), i)
  {
  }

  lemma AssignmentPast(text: string, pre: string, i: nat, at: nat, r: Outcome<seq<string>>, p: Outcome<seq<string>>)
    requires Halves(text, pre, i) && at <= i && r == ReadKey(text, at) && p == ReadKey(pre, at)
    requires Agree(r, p, i) && (r.Read? ==> r.at > i)
    ensures Agree(Assignment(text, at), Assignment(pre, at), i)
  {
    if r.Read? { SetToPast(text, pre, i, Blank(text, r.at), r.value); }
    if p.Read? { AssignmentStopsAtTheEnd(pre, at); }
  }

  lemma SetToPast(text: string, pre: string, i: nat, at: nat, key: seq<string>)
    requires Halves(text, pre, i) && i < at <= |text|
    ensures !SetTo(text, at, key).Crashed?
  {
    if Peek(text, at) == Some('=') { ValuePast(text, pre, i, at + 1); }
  }

  lemma ValuePast(text: string, pre: string, i: nat, at: nat)
    requires Halves(text, pre, i) && i < at <= |text|
    ensures !ReadValue(text, at).Crashed?
  {
    if ReadValue(text, at).Crashed? {
      ValueNeedsACut(text, at);
      CutIsLast(text, pre, i, at);
    }
  }

  lemma AssignmentStopsAtTheEnd(pre: string, at: nat)
    requires at <= |pre| && ReadKey(pre, at).Read? && ReadKey(pre, at).at == |pre|
    ensures Assignment(pre, at) == Refused(NoEquals)
  {
    assert Blank(pre, |pre|) == |pre|;
  }

  // ------------------------------------------------------------- documents

  lemma HeaderEndAgrees(text: string, pre: string, i: nat, at: nat, path: seq<string>, many: bool)
    requires Halves(text, pre, i) && at <= i
    ensures Agree(HeaderEnd(text, at, path, many), HeaderEnd(pre, at, path, many), i)
  {
    BlankAlike(text, pre, i, at);
    var b := Blank(text, at);
    var close := if many then "]]" else "]";
    StartsAlike(text, b, i, close);
    if Starts(text, b, close) { EndOfLineAgrees(text, pre, i, b + |close|); }
  }

  lemma HeaderAgrees(text: string, pre: string, i: nat, at: nat)
    requires Halves(text, pre, i) && at < i && text[at] == '['
    ensures Agree(ReadHeader(text, at), ReadHeader(pre, at), i)
  {
    StartsAlike(text, at, i, "[[");
    var many := Starts(text, at, "[[");
    var from := at + if many then 2 else 1;
    KeyAgrees(text, pre, i, from);
    var r, p := ReadKey(text, from), ReadKey(pre, from);
    if r.Read? && r.at <= i {
      HeaderEndAgrees(text, pre, i, r.at, r.value, many);
    } else if p.Read? {
      assert Blank(pre, i) == i;
    }
  }

  lemma StatementAgrees(text: string, pre: string, i: nat, at: nat)
    requires Halves(text, pre, i) && at < i
    ensures Agree(ReadStatement(text, at), ReadStatement(pre, at), i)
  {
    if text[at] == '[' {
      HeaderAgrees(text, pre, i, at);
    } else {
      AssignmentAgrees(text, pre, i, at);
      var r, p := Assignment(text, at), Assignment(pre, at);
      if r.Read? && r.at <= i {
        EndOfLineAgrees(text, pre, i, r.at);
      } else if p.Read? {
        assert EndOfLine(pre, i) == Read((), i);
      }
    }
  }

  lemma {:induction false} DocumentAgrees(text: string, pre: string, i: nat, at: nat, s: State)
    requires Halves(text, pre, i) && at <= i
    ensures Document(text, at, s).Crashed? <==> Document(pre, at, s) == Refused(MultiLineNeverClosed)
    decreases i - at
  {
    SpaceAlike(text, pre, i, at);
    var start := Space(text, at);
    if start >= i {
      DocumentPast(text, pre, i, at, s);
    } else {
      StatementAgrees(text, pre, i, start);
      var r, p := ReadStatement(text, start), ReadStatement(pre, start);
      if r.Read? && r.at <= i {
        var applied := Apply(s, r.value);
        if applied.Ok? { DocumentAgrees(text, pre, i, r.at, applied.value); }
      } else {
        NextPast(text, pre, i, s, r, p);
      }
    }
  }

  lemma DocumentPast(text: string, pre: string, i: nat, at: nat, s: State)
    requires Halves(text, pre, i) && at <= i && Space(text, at) >= i && Space(pre, at) == i
    ensures !Document(text, at, s).Crashed? && Document(pre, at, s) == Read(s.root, i)
  {
    var start := Space(text, at);
    if start == i {
      assert BareEnd(text, i) == i;
      assert KeyPart(text, i) == Refused(KeyExpected);
    } else if Document(text, at, s).Crashed? {
      assert Space(text, start) == start;
      assert Document(text, start, s).Crashed?;
      DocumentNeedsACut(text, start, s);
      CutIsLast(text, pre, i, start);
    }
  }

  lemma NextPast(text: string, pre: string, i: nat, s: State, r: Outcome<Statement>, p: Outcome<Statement>)
    requires Halves(text, pre, i) && Agree(r, p, i) && (r.Read? ==> i < r.at <= |text|)
    ensures r.Read? && Apply(s, r.value).Ok? ==> !Document(text, r.at, Apply(s, r.value).value).Crashed?
    ensures p.Read? && p.at == i && Apply(s, p.value).Ok? ==>
      Document(pre, p.at, Apply(s, p.value).value) == Read(Apply(s, p.value).value.root, i)
  {
    if r.Read? && Apply(s, r.value).Ok? && Document(text, r.at, Apply(s, r.value).value).Crashed? {
      DocumentNeedsACut(text, r.at, Apply(s, r.value).value);
      CutIsLast(text, pre, i, r.at);
    }
    if p.Read? { assert Space(pre, i) == i; }
  }

  /** A document stops the program exactly when it ends inside the digits of
      an escape, and what is before that escape is refused for a multi-line
      string that is still open. */
  lemma ParseCrashesIff(text: string)
    ensures Parse(text).Crashed? <==>
      exists i :: 0 <= i < |text| && CutAt(text, i) && Parse(text[..i]) == Refused(MultiLineNeverClosed)
    ensures forall i :: 0 <= i < |text| && CutAt(text, i) ==>
      (Parse(text).Crashed? <==> Parse(text[..i]) == Refused(MultiLineNeverClosed))
  {
    forall i | 0 <= i < |text| && CutAt(text, i)
      ensures Parse(text).Crashed? <==> Parse(text[..i]) == Refused(MultiLineNeverClosed)
    {
      DocumentAgrees(text, text[..i], i, 0, State(map[], []));
    }
    CrashNeedsACut(text);
  }
}
