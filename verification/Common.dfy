/** What several parts of the build engine share. */
module Common {

  datatype Option<+T> = None | Some(value: T)

  datatype Result<+T, +E> = Ok(value: T) | Err(error: E)

  /** The text before and after the first `mark`; none when there is no mark. */
  function SplitOnce(text: string, mark: char): (r: Option<(string, string)>)
    ensures r.None? <==> mark !in text
    ensures r.Some? ==> text == r.value.0 + [mark] + r.value.1 && mark !in r.value.0
  {
    if text == "" then None
    else if text[0] == mark then Some(("", text[1..]))
    else
      var rest := SplitOnce(text[1..], mark);
      if rest.None? then None else Some(([text[0]] + rest.value.0, rest.value.1))
  }

  // White space, and text without any at its ends.

  predicate IsWhite(c: char) {
    || '\t' <= c <= '\r' || c == ' ' || c == '\U{85}' || c == '\U{A0}' || c == '\U{1680}'
    || '\U{2000}' <= c <= '\U{200A}' || c == '\U{2028}' || c == '\U{2029}' || c == '\U{202F}' || c == '\U{205F}'
    || c == '\U{3000}'
  }

  function TrimStart(text: string): string {
    if text != "" && IsWhite(text[0]) then TrimStart(text[1..]) else text
  }

  function TrimEnd(text: string): string {
    if text != "" && IsWhite(text[|text| - 1]) then TrimEnd(text[..|text| - 1]) else text
  }

  predicate StartsWith(text: string, prefix: string) {
    |prefix| <= |text| && text[..|prefix|] == prefix
  }

  /** Text joined at its first mark is split there again. */
  lemma {:induction false} SplitAtFirst(before: string, mark: char, after: string)
    requires mark !in before
    ensures SplitOnce(before + [mark] + after, mark) == Some((before, after))
    decreases |before|
  {
    var text := before + [mark] + after;
    if before != "" {
      SplitAtFirst(before[1..], mark, after);
      assert text[1..] == before[1..] + [mark] + after;
      assert [text[0]] + before[1..] == before;
    } else {
      assert text[1..] == after;
    }
  }
}
