/** What a whole document builds (kompilator/src/toml.rs, `parse`). */
module TomlDocuments {
  import opened Common
  import opened Tables
  import opened Toml

  /** The table headers and lines of a text, in order. */
  function Statements(text: string, at: nat): seq<Statement>
    requires at <= |text|
    decreases |text| - at
  {
    var start := Space(text, at);
    if start == |text| then []
    else match ReadStatement(text, start)
      case Read(statement, next) => [statement] + Statements(text, next)
      case _ => []
  }

  lemma {:induction false} DocumentIsBuilt(text: string, at: nat, s: State)
    requires at <= |text| && Document(text, at, s).Read?
    ensures ApplyAll(s, Statements(text, at)).Ok?
    ensures Document(text, at, s) == Read(ApplyAll(s, Statements(text, at)).value.root, |text|)
    decreases |text| - at
  {
    var start := Space(text, at);
    if start < |text| {
      var r := ReadStatement(text, start);
      DocumentIsBuilt(text, r.at, Apply(s, r.value).value);
    }
  }

  const START := State(map[], [])

  /** A text that is read loses nothing: its scalars are exactly those its
      lines place, each at an address no other line takes. */
  lemma ReadTextLosesNothing(text: string, b: Address, x: Value)
    requires Parse(text).Read? && Scalar(x)
    ensures ApplyAll(START, Statements(text, 0)).Ok?
    ensures var placed := Placements(START, Statements(text, 0));
      && (Leaf(Table(Parse(text).value), b, x) <==> exists p :: p in placed && Within(p.value, p.address, b, x))
      && (forall i, j :: 0 <= i < j < |placed| ==> placed[i].address != placed[j].address)
  {
    DocumentIsBuilt(text, 0, START);
    DocumentLosesNothing(START, Statements(text, 0), b, x);
    NoPlaceIsTakenTwice(START, Statements(text, 0));
    NothingInside(b, x);
  }
}
