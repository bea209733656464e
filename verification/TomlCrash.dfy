/** When reading TOML stops the program: looking for the end of a multi-line
    string past the end of the text (kompilator/src/toml.rs, `escape` and
    `basic_string`). */
module TomlCrash {
  import opened Common
  import opened Tables
  import opened Toml

  /** The text ends inside the digits of an escape that lies at `at` or after. */
  ghost predicate CutFrom(text: string, at: nat) { exists i :: at <= i < |text| && CutAt(text, i) }

  ghost predicate Cut(text: string) { CutFrom(text, 0) }

  // ------------------------------------------------ no cut escape, no crash

  lemma {:induction false} MultiLineNeedsACut(text: string, at: nat, out: string)
    requires at <= |text| && MultiLine(text, at, out).Crashed?
    ensures CutFrom(text, at)
    decreases |text| - at
  {
    if text[at] == '\\' {
      var r := Escape(text, at + 1);
      if r.at > |text| {
        assert CutAt(text, at);
      } else {
        MultiLineNeedsACut(text, r.at, out + r.value);
      }
    } else {
      MultiLineNeedsACut(text, at + 1, out + [text[at]]);
    }
  }

  lemma KeyPartNeedsACut(text: string, at: nat)
    requires at <= |text| && KeyPart(text, at).Crashed?
    ensures CutFrom(text, at)
  {
    StringNeedsACut(text, Blank(text, at));
  }

  lemma StringNeedsACut(text: string, at: nat)
    requires at < |text| && BasicString(text, at).Crashed?
    ensures CutFrom(text, at)
  {
    MultiLineNeedsACut(text, AfterOpening(text, at + 3), "");
  }

  lemma {:induction false} KeyPartsNeedACut(text: string, at: nat, parts: seq<string>)
    requires at <= |text| && KeyParts(text, at, parts).Crashed?
    ensures CutFrom(text, at)
    decreases |text| - at
  {
    var r := KeyPart(text, at + 1);
    if r.Crashed? { KeyPartNeedsACut(text, at + 1); } else { KeyPartsNeedACut(text, Blank(text, r.at), parts + [r.value]); }
  }

  lemma KeyNeedsACut(text: string, at: nat)
    requires at <= |text| && ReadKey(text, at).Crashed?
    ensures CutFrom(text, at)
  {
    var r := KeyPart(text, at);
    if r.Crashed? { KeyPartNeedsACut(text, at); } else { KeyPartsNeedACut(text, Blank(text, r.at), [r.value]); }
  }

  lemma {:induction false} ValueNeedsACut(text: string, at: nat)
    requires at <= |text| && ReadValue(text, at).Crashed?
    ensures CutFrom(text, at)
    decreases |text| - at, 0
  {
    var b := Blank(text, at);
    if text[b] == '"' {
      StringNeedsACut(text, b);
    } else if text[b] == '[' {
      ItemsNeedACut(text, b + 1, []);
    } else if text[b] == '{' {
      FieldsNeedACut(text, b + 1, map[]);
    }
  }

  lemma {:induction false} ItemsNeedACut(text: string, at: nat, items: seq<Value>)
    requires at <= |text| && Items(text, at, items).Crashed?
    ensures CutFrom(text, at)
    decreases |text| - at, 1
  {
    var s := Space(text, at);
    var r := ReadValue(text, s);
    if r.Crashed? {
      ValueNeedsACut(text, s);
    } else {
      ItemsNeedACut(text, Space(text, r.at) + 1, items + [r.value]);
    }
  }

  lemma {:induction false} FieldsNeedACut(text: string, at: nat, entries: Entries)
    requires at <= |text| && Fields(text, at, entries).Crashed?
    ensures CutFrom(text, at)
    decreases |text| - at, 1
  {
    var s := Blank(text, at);
    var r := Assignment(text, s);
    if r.Crashed? {
      AssignmentNeedsACut(text, s);
    } else {
      FieldsNeedACut(text, Blank(text, r.at) + 1, Insert(entries, r.value.0, r.value.1).value);
    }
  }

  lemma {:induction false} AssignmentNeedsACut(text: string, at: nat)
    requires at <= |text| && Assignment(text, at).Crashed?
    ensures CutFrom(text, at)
    decreases |text| - at, 0
  {
    var r := ReadKey(text, at);
    if r.Crashed? {
      KeyNeedsACut(text, at);
    } else {
      SetToNeedsACut(text, Blank(text, r.at), r.value);
    }
  }

  lemma {:induction false} SetToNeedsACut(text: string, at: nat, key: seq<string>)
    requires at <= |text| && SetTo(text, at, key).Crashed?
    ensures CutFrom(text, at)
    decreases |text| - at, 0
  {
    ValueNeedsACut(text, at + 1);
  }

  lemma StatementNeedsACut(text: string, at: nat)
    requires at < |text| && ReadStatement(text, at).Crashed?
    ensures CutFrom(text, at)
  {
    if text[at] == '[' {
      KeyNeedsACut(text, at + if Starts(text, at, "[[") then 2 else 1);
    } else {
      AssignmentNeedsACut(text, at);
    }
  }

  lemma {:induction false} DocumentNeedsACut(text: string, at: nat, s: State)
    requires at <= |text| && Document(text, at, s).Crashed?
    ensures CutFrom(text, at)
    decreases |text| - at
  {
    var start := Space(text, at);
    var r := ReadStatement(text, start);
    if r.Crashed? { StatementNeedsACut(text, start); } else { DocumentNeedsACut(text, r.at, Apply(s, r.value).value); }
  }

  /** A text that does not end inside the digits of an escape is read without
      a slice out of range: in particular one that ends with a line end. */
  lemma CrashNeedsACut(text: string)
    ensures Parse(text).Crashed? ==> Cut(text) && IsHexEnd(text[|text| - 1])
  {
    if Parse(text).Crashed? {
      DocumentNeedsACut(text, 0, State(map[], []));
      var i :| 0 <= i < |text| && CutAt(text, i);
      LastIsHexadecimal(text[i + 2..]);
    }
  }

  predicate IsHexEnd(c: char) { HexDigit(c).Some? }

  lemma LastIsHexadecimal(digits: string)
    requires Radix16(digits).Some?
    ensures digits != "" && HexDigit(digits[|digits| - 1]).Some?
  {
  }

  // ---------------------------------------------------- the crash, exactly

  lemma {:induction false} HexadecimalHolds(digits: string, i: nat)
    requires Hexadecimal(digits).Some? && i < |digits|
    ensures HexDigit(digits[i]).Some?
    decreases |digits|
  {
    if i < |digits| - 1 { HexadecimalHolds(digits[..|digits| - 1], i); }
  }

  /** No backslash is read as a digit. */
  lemma DigitsHoldNoBackslash(digits: string)
    requires Radix16(digits).Some?
    ensures '\\' !in digits
  {
    var rest := if digits[0] == '+' then digits[1..] else digits;
    forall i | 0 <= i < |rest| ensures rest[i] != '\\' { HexadecimalHolds(rest, i); }
    assert digits == rest || digits == ['+'] + rest;
  }

  lemma {:induction false} NoBackslashNoCrash(text: string, at: nat, out: string)
    requires at <= |text| && '\\' !in text[at..]
    ensures !MultiLine(text, at, out).Crashed?
    decreases |text| - at
  {
    if at < |text| {
      assert text[at] == text[at..][0];
      assert text[at + 1..] == text[at..][1..];
      NoBackslashNoCrash(text, at + 1, out + [text[at]]);
    }
  }

  lemma {:induction false} TrimmedAlike(text: string, at: nat, i: nat)
    requires at <= i < |text| && text[i] == '\\'
    ensures Trimmed(text, at) == Trimmed(text[..i], at) <= i
    decreases i - at
  {
    if at < i { TrimmedAlike(text, at + 1, i); }
  }

  /** Marks are found before a backslash as they are without it. */
  lemma StartsAlike(text: string, at: nat, i: nat, prefix: string)
    requires at <= i < |text| && text[i] == '\\' && '\\' !in prefix
    ensures Starts(text, at, prefix) == Starts(text[..i], at, prefix)
  {
    var end := at + |prefix|;
    if end <= i {
      assert text[..i][at..end] == text[at..end];
    } else if end <= |text| {
      assert text[at..end][i - at] == '\\';
    }
  }

  /** An escape before the cut one is read alike in the text before it, unless
      it reaches into it: then it is refused, or what is before ends in it. */
  lemma EscapeAlike(text: string, at: nat, i: nat)
    requires 0 < at < i < |text| && text[i] == '\\'
    ensures var r := Escape(text, at);
      var before := Escape(text[..i], at);
      if r.Read? then r.at <= i && before == r else before.Refused? || before.at > i
    ensures Escape(text, at).Refused? && Escape(text[..i], at).Refused? ==> Escape(text[..i], at).why != MultiLineNeverClosed
  {
    var pre := text[..i];
    var code := text[at];
    assert pre[at] == code;
    if code == 'u' || code == 'U' {
      var end := Min(at + 1 + Width(code), |text|);
      if end <= i {
        assert text[at + 1..end] == pre[at + 1..end];
      } else {
        assert text[at + 1..end][i - at - 1] == '\\';
        if Radix16(text[at + 1..end]).Some? { DigitsHoldNoBackslash(text[at + 1..end]); }
      }
    } else if IsSpace(code) {
      TrimmedAlike(text, at + 1, i);
    }
  }

  /** A multi-line string whose text ends inside the digits of the escape at
      `i` stops the program exactly when the text before that escape leaves
      the string open. */
  lemma {:induction false} CutStringCrashesIff(text: string, at: nat, out: string, i: nat)
    requires at <= i && CutAt(text, i)
    ensures MultiLine(text, at, out).Crashed? <==> MultiLine(text[..i], at, out) == Refused(MultiLineNeverClosed)
    decreases i - at
  {
    var pre := text[..i];
    StartsAlike(text, at, i, QUOTES);
    StartsAlike(text, at, i, QUOTES + "\"");
    if at == i {
      assert text[i + 2..Min(i + 2 + Width(text[i + 1]), |text|)] == text[i + 2..];
      assert !Starts(pre, i, QUOTES);
    } else if Starts(text, at, QUOTES) && !Starts(text, at, QUOTES + "\"") {
    } else if text[at] == '\\' {
      if at + 1 == i {
        DigitsHoldNoBackslash(text[i + 2..]);
        assert text[i + 1..] == [text[i + 1]] + text[i + 2..];
        NoBackslashNoCrash(text, i + 1, out + "\\");
      } else {
        EscapeAlike(text, at + 1, i);
        var r := Escape(text, at + 1);
        if r.Read? { CutStringCrashesIff(text, r.at, out + r.value, i); }
      }
    } else {
      CutStringCrashesIff(text, at + 1, out + [text[at]], i);
    }
  }

  lemma {:induction false} PlainThenCutCrashes(text: string, at: nat, out: string, i: nat)
    requires at <= i && CutAt(text, i) && forall j :: at <= j < i ==> text[j] != '"' && text[j] != '\\'
    ensures MultiLine(text, at, out).Crashed?
    decreases i - at
  {
    NotStarting(text, at, QUOTES, 0);
    if at == i {
      assert text[i + 2..Min(i + 2 + Width(text[i + 1]), |text|)] == text[i + 2..];
    } else {
      PlainThenCutCrashes(text, at + 1, out + [text[at]], i);
    }
  }

  lemma KeyBeforeEquals(text: string)
    requires |text| > 1 && text[0] == 'k' && text[1] == '='
    ensures Space(text, 0) == 0 && ReadKey(text, 0) == Read(["k"], 1)
  {
    assert BareEnd(text, 0) == 1;
    assert text[0..1] == "k";
  }

  lemma AssignmentCrashes(text: string)
    requires |text| > 2 && text[0] == 'k' && text[1] == '=' && ReadValue(text, 2).Crashed?
    ensures Parse(text).Crashed?
  {
    KeyBeforeEquals(text);
    assert Blank(text, 1) == 1;
    assert Assignment(text, 0).Crashed?;
    assert ReadStatement(text, 0).Crashed?;
  }

  /** Every document of one open multi-line string, plain up to an escape the
      text ends in, stops the program. */
  lemma OpenStringCrashes(text: string, i: nat)
    requires CutAt(text, i) && i >= 5 && text[..5] == "k=" + QUOTES
    requires forall j :: 5 <= j < i ==> text[j] != '"' && text[j] != '\\'
    ensures Parse(text).Crashed?
  {
    assert text[0] == text[..5][0] && text[1] == text[..5][1] && text[2] == text[..5][2];
    assert text[2..5] == text[..5][2..] == QUOTES;
    var start := AfterOpening(text, 5);
    PlainThenCutCrashes(text, start, "", i);
    assert Starts(text, 2, QUOTES) && Blank(text, 2) == 2;
    assert BasicString(text, 2).Crashed?;
    assert ReadValue(text, 2).Crashed?;
    AssignmentCrashes(text);
  }

  lemma ShortDocumentCrashes()
    ensures Parse("k=" + QUOTES + "\\u1").Crashed?
  {
    var text := "k=" + QUOTES + "\\u1";
    assert text[5] == '\\' && text[6] == 'u' && text[7..] == "1";
    assert text[..5] == "k=" + QUOTES;
    assert Hexadecimal("1") == Some(1);
    OpenStringCrashes(text, 5);
  }
}
