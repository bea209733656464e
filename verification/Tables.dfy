/** The tables a TOML document builds (kompilator/src/toml.rs, `Value`,
    `insert`, `open` and the table part of `parse`). A place inside a table is
    an address: the keys and positions that lead to it. */
module Tables {
  import opened Common

  /** Floats keep their text: their arithmetic is not part of this model. */
  datatype Value =
    | Text(text: string)
    | Integer(number: int)
    | Float(word: string)
    | Boolean(truth: bool)
    | Array(items: seq<Value>)
    | Table(entries: map<string, Value>)

  type Entries = map<string, Value>

  datatype Step = Key(name: string) | Index(position: nat)

  type Address = seq<Step>

  datatype Trouble =
    | EmptyKey
    | DefinedTwice(key: string)
    | NotATable(part: string)
    | NotAnArray(part: string)
    | HoldsNoTable(part: string)

  predicate Scalar(v: Value) { !v.Array? && !v.Table? }

  function Find(v: Value, a: Address): Option<Value>
    decreases |a|
  {
    if a == [] then Some(v)
    else match a[0]
      case Key(k) => if v.Table? && k in v.entries then Find(v.entries[k], a[1..]) else None
      case Index(i) => if v.Array? && i < |v.items| then Find(v.items[i], a[1..]) else None
  }

  /** The scalar `x` lies at `a`. */
  predicate Leaf(v: Value, a: Address, x: Value) { Scalar(x) && Find(v, a) == Some(x) }

  /** A table lies at `a`. */
  predicate HasTable(t: Entries, a: Address) {
    var found := Find(Table(t), a);
    found.Some? && found.value.Table?
  }

  function TableAt(t: Entries, a: Address): Entries
    requires HasTable(t, a)
  {
    Find(Table(t), a).value.entries
  }

  function Keys(path: seq<string>): (a: Address)
    ensures |a| == |path| && forall i :: 0 <= i < |a| ==> a[i] == Key(path[i])
  {
    seq(|path|, i requires 0 <= i < |path| => Key(path[i]))
  }

  // -------------------------------------------------------------- writing

  /** `v` with the table at `a` replaced. */
  function SetIn(v: Value, a: Address, t: Entries): (r: Value)
    requires Find(v, a).Some? && Find(v, a).value.Table?
    ensures v.Table? ==> r.Table?
    decreases |a|
  {
    if a == [] then Table(t)
    else match a[0]
      case Key(k) => Table(v.entries[k := SetIn(v.entries[k], a[1..], t)])
      case Index(i) => Array(v.items[i := SetIn(v.items[i], a[1..], t)])
  }

  function SetAt(root: Entries, a: Address, t: Entries): Entries
    requires HasTable(root, a)
  {
    SetIn(Table(root), a, t).entries
  }

  /** The table under `part`, empty when there is none. */
  function Under(t: Entries, part: string): Value {
    if part in t then t[part] else Table(map[])
  }

  function Insert(t: Entries, key: seq<string>, value: Value): Result<Entries, Trouble>
    decreases |key|
  {
    if key == [] then Err(EmptyKey)
    else if |key| == 1 then
      if key[0] in t then Err(DefinedTwice(key[0])) else Ok(t[key[0] := value])
    else
      var next := Under(t, key[0]);
      if !next.Table? then Err(NotATable(key[0]))
      else match Insert(next.entries, key[1..], value)
        case Err(why) => Err(why)
        case Ok(inner) => Ok(t[key[0] := Table(inner)])
  }

  /** The tables after the table at `path` was opened, and its address. */
  function Open(t: Entries, path: seq<string>, many: bool): Result<(Entries, Address), Trouble>
    decreases |path|
  {
    if path == [] then Ok((t, []))
    else
      var part := path[0];
      if |path| == 1 && many then
        var entry := if part in t then t[part] else Array([]);
        if !entry.Array? then Err(NotAnArray(part))
        else Ok((t[part := Array(entry.items + [Table(map[])])], [Key(part), Index(|entry.items|)]))
      else
        var entry := Under(t, part);
        if entry.Table? then
          match Open(entry.entries, path[1..], many)
          case Err(why) => Err(why)
          case Ok((inner, more)) => Ok((t[part := Table(inner)], [Key(part)] + more))
        else if entry.Array? then
          var n := |entry.items|;
          if n == 0 || !entry.items[n - 1].Table? then Err(HoldsNoTable(part))
          else
            match Open(entry.items[n - 1].entries, path[1..], many)
            case Err(why) => Err(why)
            case Ok((inner, more)) =>
              Ok((t[part := Array(entry.items[n - 1 := Table(inner)])], [Key(part), Index(n - 1)] + more))
        else Err(NotATable(part))
  }

  function InsertAt(root: Entries, a: Address, key: seq<string>, value: Value): Result<Entries, Trouble>
    requires HasTable(root, a)
  {
    match Insert(TableAt(root, a), key, value)
    case Err(why) => Err(why)
    case Ok(t) => Ok(SetAt(root, a, t))
  }

  // --------------------------------------------------------- what is found

  lemma FindUnderKey(t: Entries, k: string, v: Value, a: Address)
    requires a != []
    ensures a[0] == Key(k) ==> Find(Table(t[k := v]), a) == Find(v, a[1..])
    ensures a[0] != Key(k) ==> Find(Table(t[k := v]), a) == Find(Table(t), a)
  {
  }

  lemma FindThenFind(v: Value, a: Address, b: Address)
    ensures Find(v, a + b) == match Find(v, a) case None => None case Some(w) => Find(w, b)
    decreases |a|
  {
    if a == [] {
      assert a + b == b;
    } else {
      assert (a + b)[0] == a[0] && (a + b)[1..] == a[1..] + b;
      match a[0]
      case Key(k) => if v.Table? && k in v.entries { FindThenFind(v.entries[k], a[1..], b); }
      case Index(i) => if v.Array? && i < |v.items| { FindThenFind(v.items[i], a[1..], b); }
    }
  }

  /** `b` continues `a`. */
  predicate Below(b: Address, a: Address) { |a| <= |b| && b[..|a|] == a }

  lemma BelowStep(b: Address, a: Address)
    requires a != [] && b != []
    ensures Below(b, a) <==> b[0] == a[0] && Below(b[1..], a[1..])
    ensures Below(b, a) ==> b[|a|..] == b[1..][|a| - 1..]
  {
    if Below(b, a) {
      assert b[0] == b[..|a|][0] == a[0];
      assert b[1..][..|a| - 1] == b[..|a|][1..];
    }
  }

  /** Replacing the table at `a` changes what is found below `a`, and no
      scalar elsewhere. */
  lemma {:induction false} LeavesOfSetIn(v: Value, a: Address, t: Entries, b: Address, x: Value)
    requires Find(v, a).Some? && Find(v, a).value.Table? && Scalar(x)
    ensures Leaf(SetIn(v, a, t), b, x) <==> if Below(b, a) then Leaf(Table(t), b[|a|..], x) else Leaf(v, b, x)
    decreases |a|
  {
    if a == [] {
      assert b[..0] == [] && b[0..] == b;
    } else if b != [] {
      BelowStep(b, a);
      match a[0]
      case Key(k) =>
        LeavesOfSetIn(v.entries[k], a[1..], t, b[1..], x);
        FindUnderKey(v.entries, k, SetIn(v.entries[k], a[1..], t), b);
      case Index(i) =>
        LeavesOfSetIn(v.items[i], a[1..], t, b[1..], x);
    }
  }

  lemma {:induction false} FindInSet(v: Value, a: Address, t: Entries)
    requires Find(v, a).Some? && Find(v, a).value.Table?
    ensures Find(SetIn(v, a, t), a) == Some(Table(t))
    decreases |a|
  {
    if a != [] {
      match a[0]
      case Key(k) => FindInSet(v.entries[k], a[1..], t);
      case Index(i) => FindInSet(v.items[i], a[1..], t);
    }
  }

  // ------------------------------------------------------------ inserting

  lemma KeysStep(path: seq<string>)
    requires path != []
    ensures Keys(path)[0] == Key(path[0]) && Keys(path)[1..] == Keys(path[1..])
  {
  }

  /** The scalar `x` at `b` belongs to a value placed at `a`. */
  predicate Within(value: Value, a: Address, b: Address, x: Value) {
    Below(b, a) && Leaf(value, b[|a|..], x)
  }

  lemma WithinStep(value: Value, a: Address, b: Address, x: Value)
    requires a != []
    ensures Within(value, a, b, x) <==> b != [] && b[0] == a[0] && Within(value, a[1..], b[1..], x)
  {
    if b != [] {
      BelowStep(b, a);
      if b[0] == a[0] && Below(b[1..], a[1..]) {
        assert a == [a[0]] + a[1..] && b[..|a|] == [b[0]] + b[1..][..|a| - 1];
      }
    }
  }

  /** One insertion keeps every scalar where it was and adds those of the new
      value under its key, and no other. */
  lemma {:induction false} InsertLosesNothing(t: Entries, key: seq<string>, value: Value, b: Address, x: Value)
    requires Insert(t, key, value).Ok?
    ensures Leaf(Table(Insert(t, key, value).value), b, x) <==> Leaf(Table(t), b, x) || Within(value, Keys(key), b, x)
    decreases |key|
  {
    if b != [] {
      KeysStep(key);
      WithinStep(value, Keys(key), b, x);
      if |key| == 1 {
        InsertHere(t, key, value, b, x);
      } else {
        InsertLosesNothing(Under(t, key[0]).entries, key[1..], value, b[1..], x);
        InsertDeeper(t, key, value, b, x);
      }
    }
  }

  lemma InsertHere(t: Entries, key: seq<string>, value: Value, b: Address, x: Value)
    requires |key| == 1 && key[0] !in t && b != []
    ensures Leaf(Table(t[key[0] := value]), b, x) <==> Leaf(Table(t), b, x) || Within(value, Keys(key), b, x)
  {
    LeafUnderKey(t, key[0], value, b, x);
    BelowStep(b, Keys(key));
    assert Keys(key)[1..] == [];
    if b[0] == Key(key[0]) {
      assert b[1..][..0] == [] && b[1..][0..] == b[1..];
      WithinStep(value, Keys(key), b, x);
    }
  }

  lemma InsertDeeper(t: Entries, key: seq<string>, value: Value, b: Address, x: Value)
    requires |key| > 1 && Insert(t, key, value).Ok? && b != []
    ensures var inner := Insert(Under(t, key[0]).entries, key[1..], value).value;
      Leaf(Table(Insert(t, key, value).value), b, x) <==>
      if b[0] == Key(key[0]) then Leaf(Table(inner), b[1..], x) else Leaf(Table(t), b, x)
    ensures b[0] == Key(key[0]) ==> (Leaf(Table(t), b, x) <==> Leaf(Under(t, key[0]), b[1..], x))
  {
    var inner := Insert(Under(t, key[0]).entries, key[1..], value).value;
    LeafUnderKey(t, key[0], Table(inner), b, x);
    LeafOfKey(t, key[0], b, x);
  }

  lemma LeafUnderKey(t: Entries, k: string, v: Value, b: Address, x: Value)
    requires b != []
    ensures Leaf(Table(t[k := v]), b, x) <==> if b[0] == Key(k) then Leaf(v, b[1..], x) else Leaf(Table(t), b, x)
  {
    FindUnderKey(t, k, v, b);
  }

  lemma LeafOfKey(t: Entries, k: string, b: Address, x: Value)
    requires b != []
    ensures b[0] == Key(k) ==> (Leaf(Table(t), b, x) <==> Leaf(Under(t, k), b[1..], x))
  {
    if Scalar(x) { NothingInside(b[1..], x); }
  }

  lemma NothingInside(b: Address, x: Value)
    requires Scalar(x)
    ensures !Leaf(Table(map[]), b, x)
  {
  }

  /** Nothing, or a table, lies where the key passes through. */
  predicate Passable(t: Entries, a: Address) {
    var found := Find(Table(t), a);
    found.None? || found.value.Table?
  }

  /** A key set twice is refused, and so is one that passes through anything
      but a table; nothing else is. */
  lemma {:induction false} InsertIsRefusedIff(t: Entries, key: seq<string>, value: Value)
    ensures Insert(t, key, value).Ok? <==>
      && key != []
      && Find(Table(t), Keys(key)).None?
      && forall n :: 0 < n < |key| ==> Passable(t, Keys(key)[..n])
    decreases |key|
  {
    if key != [] {
      KeysStep(key);
      if |key| == 1 {
        assert Keys(key)[1..] == [];
        assert Find(Table(t), Keys(key)).Some? <==> key[0] in t;
      } else {
        var next := Under(t, key[0]);
        assert Keys(key)[..1] == [Key(key[0])];
        PassableFirst(t, key[0]);
        if next.Table? {
          InsertIsRefusedIff(next.entries, key[1..], value);
          forall n | 0 < n < |key| ensures Passable(t, Keys(key)[..n]) <==> n == 1 || Passable(next.entries, Keys(key[1..])[..n - 1]) {
            PassableNext(t, Keys(key)[..n]);
            assert Keys(key)[..n][1..] == Keys(key[1..])[..n - 1];
          }
          forall n | 0 < n < |key| - 1 ensures Passable(next.entries, Keys(key[1..])[..n]) <==> Passable(t, Keys(key)[..n + 1]) {
            assert n + 1 - 1 == n;
          }
        }
      }
    }
  }

  lemma PassableFirst(t: Entries, k: string)
    ensures Passable(t, [Key(k)]) <==> Under(t, k).Table?
  {
    assert [Key(k)][1..] == [];
    assert Find(Table(t), [Key(k)]) == if k in t then Some(t[k]) else None;
  }

  lemma PassableNext(t: Entries, a: Address)
    requires a != [] && a[0].Key? && Under(t, a[0].name).Table?
    ensures Passable(t, a) <==> Passable(Under(t, a[0].name).entries, a[1..])
  {
  }

  // -------------------------------------------------------------- opening

  /** Opening a table moves no scalar. */
  lemma {:induction false} OpenLosesNothing(t: Entries, path: seq<string>, many: bool, b: Address, x: Value)
    requires Open(t, path, many).Ok? && Scalar(x)
    ensures Leaf(Table(Open(t, path, many).value.0), b, x) <==> Leaf(Table(t), b, x)
    decreases |path|
  {
    if path != [] && b != [] {
      var part := path[0];
      var after := Open(t, path, many).value.0;
      FindUnderKey(t, part, after[part], b);
      assert after == t[part := after[part]];
      if b[0] == Key(part) {
        if |path| == 1 && many {
          NewItemIsEmpty(if part in t then t[part].items else [], b[1..], x);
        } else {
          var entry := Under(t, part);
          if entry.Table? {
            OpenLosesNothing(entry.entries, path[1..], many, b[1..], x);
            NothingInside(b[1..], x);
          } else {
            var n := |entry.items| - 1;
            LeafOfItem(entry.items, n, Table(Open(entry.items[n].entries, path[1..], many).value.0), b[1..], x);
            if |b| > 1 {
              OpenLosesNothing(entry.items[n].entries, path[1..], many, b[1..][1..], x);
            }
          }
        }
      }
    }
  }

  lemma LeafOfItem(items: seq<Value>, i: nat, v: Value, b: Address, x: Value)
    requires i < |items| && Scalar(x)
    ensures Leaf(Array(items[i := v]), b, x) <==>
      if b != [] && b[0] == Index(i) then Leaf(v, b[1..], x) else Leaf(Array(items), b, x)
    ensures b != [] && b[0] == Index(i) ==> (Leaf(Array(items), b, x) <==> Leaf(items[i], b[1..], x))
  {
  }

  lemma NewItemIsEmpty(items: seq<Value>, b: Address, x: Value)
    requires Scalar(x)
    ensures Leaf(Array(items + [Table(map[])]), b, x) <==> Leaf(Array(items), b, x)
  {
    if b != [] && b[0].Index? && b[0].position == |items| { NothingInside(b[1..], x); }
  }

  function Last(items: seq<Value>): Value
    requires items != []
  {
    items[|items| - 1]
  }

  /** The first steps of an opened address. */
  lemma FindOpened(t: Entries, path: seq<string>, many: bool)
    requires Open(t, path, many).Ok? && path != [] && !(|path| == 1 && many)
    ensures var (after, a) := Open(t, path, many).value;
      var entry := Under(t, path[0]);
      var inner := if entry.Table? then entry.entries else entry.items[|entry.items| - 1].entries;
      && Open(inner, path[1..], many).Ok?
      && var (inner', more) := Open(inner, path[1..], many).value;
      && Find(Table(after), a) == Find(Table(inner'), more)
      && (Find(Table(t), a) == Find(Table(inner), more) || (path[0] !in t && Find(Table(t), a).None? && inner == map[]))
  {
    var part := path[0];
    var entry := Under(t, part);
    var (after, a) := Open(t, path, many).value;
    FindUnderKey(t, part, after[part], a);
    if entry.Table? {
      var (inner', more) := Open(entry.entries, path[1..], many).value;
      assert a == [Key(part)] + more && a[1..] == more;
    } else {
      var n := |entry.items| - 1;
      var (inner', more) := Open(entry.items[n].entries, path[1..], many).value;
      assert a == [Key(part), Index(n)] + more && a[1..] == [Index(n)] + more && a[1..][1..] == more;
    }
  }

  /** Opening gives the table that was there, or a new empty one; a table of
      an array is always new. */
  lemma {:induction false} OpenFindsATable(t: Entries, path: seq<string>, many: bool)
    requires Open(t, path, many).Ok?
    ensures var (after, a) := Open(t, path, many).value;
      && HasTable(after, a)
      && (many && path != [] ==> Find(Table(t), a).None? && TableAt(after, a) == map[])
      && (!many ==> if Find(Table(t), a).None? then TableAt(after, a) == map[] else Find(Table(after), a) == Find(Table(t), a))
    decreases |path|
  {
    var (after, a) := Open(t, path, many).value;
    if path == [] {
    } else if |path| == 1 && many {
      var entry := if path[0] in t then t[path[0]] else Array([]);
      assert a[1..] == [Index(|entry.items|)] && a[1..][1..] == [];
      assert after[path[0]] == Array(entry.items + [Table(map[])]);
      assert Find(Table(after), a) == Find(after[path[0]], a[1..]);
      assert Find(after[path[0]], a[1..]) == Find(after[path[0]].items[|entry.items|], []);
    } else {
      FindOpened(t, path, many);
      var entry := Under(t, path[0]);
      var inner := if entry.Table? then entry.entries else entry.items[|entry.items| - 1].entries;
      OpenFindsATable(inner, path[1..], many);
    }
  }

  /** An opened table is opened again as it is. */
  lemma {:induction false} OpenAgain(t: Entries, path: seq<string>, many: bool)
    requires Open(t, path, many).Ok?
    ensures var (after, a) := Open(t, path, many).value; Open(after, path, false) == Ok((after, a))
    decreases |path|
  {
    if path != [] {
      var entry := Under(t, path[0]);
      if |path| == 1 && many {
        NewItemIsOpened(t, path[0]);
        assert path == [path[0]];
      } else if entry.Table? {
        var (inner, more) := Open(entry.entries, path[1..], many).value;
        OpenAgain(entry.entries, path[1..], many);
        OpenUnderKey(t[path[0] := Table(inner)], path, more);
      } else {
        var n := |entry.items| - 1;
        var (inner, more) := Open(entry.items[n].entries, path[1..], many).value;
        OpenAgain(entry.items[n].entries, path[1..], many);
        OpenInItem(t[path[0] := Array(entry.items[n := Table(inner)])], path, more);
      }
    }
  }

  lemma NewItemIsOpened(t: Entries, part: string)
    requires Open(t, [part], true).Ok?
    ensures var (after, a) := Open(t, [part], true).value; Open(after, [part], false) == Ok((after, a))
  {
    var (after, a) := Open(t, [part], true).value;
    assert Open(map[], [part][1..], false) == Ok((map[], []));
    assert Last(after[part].items) == Table(map[]);
    OpenInItem(after, [part], []);
    assert a == [Key(part), Index(|after[part].items| - 1)] + [];
  }

  lemma OpenUnderKey(t: Entries, path: seq<string>, more: Address)
    requires path != [] && path[0] in t && t[path[0]].Table?
    requires Open(t[path[0]].entries, path[1..], false) == Ok((t[path[0]].entries, more))
    ensures Open(t, path, false) == Ok((t, [Key(path[0])] + more))
  {
    assert t[path[0] := t[path[0]]] == t;
  }

  lemma OpenInItem(t: Entries, path: seq<string>, more: Address)
    requires path != [] && path[0] in t && t[path[0]].Array? && t[path[0]].items != [] && Last(t[path[0]].items).Table?
    requires Open(Last(t[path[0]].items).entries, path[1..], false) == Ok((Last(t[path[0]].items).entries, more))
    ensures Open(t, path, false) == Ok((t, [Key(path[0]), Index(|t[path[0]].items| - 1)] + more))
  {
    var items := t[path[0]].items;
    assert items[|items| - 1 := Last(items)] == items;
    assert t[path[0] := t[path[0]]] == t;
  }

  /** Whatever replaces an opened table, the same path opens it. */
  lemma {:induction false} OpenAfterChange(t: Entries, path: seq<string>, a: Address, u: Entries)
    requires Open(t, path, false) == Ok((t, a)) && HasTable(t, a)
    ensures Open(SetAt(t, a, u), path, false) == Ok((SetAt(t, a, u), a))
    decreases |path|
  {
    if path != [] {
      var entry := Under(t, path[0]);
      FindOpened(t, path, false);
      if entry.Table? {
        var (inner, more) := Open(entry.entries, path[1..], false).value;
        assert a == [Key(path[0])] + more && t[path[0]] == Table(inner);
        OpenAfterChange(inner, path[1..], more, u);
        ChangeUnderKey(t, path, more, u);
      } else {
        var (inner, more) := Open(entry.items[|entry.items| - 1].entries, path[1..], false).value;
        assert a == [Key(path[0]), Index(|entry.items| - 1)] + more;
        assert t[path[0]] == Array(entry.items[|entry.items| - 1 := Table(inner)]);
        OpenAfterChange(inner, path[1..], more, u);
        ChangeInItem(t, path, more, u);
      }
    }
  }

  lemma ChangeUnderKey(t: Entries, path: seq<string>, more: Address, u: Entries)
    requires path != [] && path[0] in t && t[path[0]].Table? && HasTable(t[path[0]].entries, more)
    requires var t' := SetAt(t[path[0]].entries, more, u); Open(t', path[1..], false) == Ok((t', more))
    ensures HasTable(t, [Key(path[0])] + more)
    ensures var t' := SetAt(t, [Key(path[0])] + more, u); Open(t', path, false) == Ok((t', [Key(path[0])] + more))
  {
    var part, a := path[0], [Key(path[0])] + more;
    assert a[1..] == more;
    assert Find(Table(t), a) == Find(t[part], more);
    var t' := SetAt(t, a, u);
    assert t' == t[part := Table(SetAt(t[part].entries, more, u))];
    OpenUnderKey(t', path, more);
  }

  lemma ChangeInItem(t: Entries, path: seq<string>, more: Address, u: Entries)
    requires path != [] && path[0] in t && t[path[0]].Array? && t[path[0]].items != []
    requires Last(t[path[0]].items).Table? && HasTable(Last(t[path[0]].items).entries, more)
    requires var t' := SetAt(Last(t[path[0]].items).entries, more, u); Open(t', path[1..], false) == Ok((t', more))
    ensures var a := [Key(path[0]), Index(|t[path[0]].items| - 1)] + more;
      HasTable(t, a) && var t' := SetAt(t, a, u); Open(t', path, false) == Ok((t', a))
  {
    var part, items := path[0], t[path[0]].items;
    var n := |items| - 1;
    var a := [Key(part), Index(n)] + more;
    assert a[1..] == [Index(n)] + more && a[1..][1..] == more;
    assert Find(Table(t), a) == Find(t[part], a[1..]) == Find(items[n], more);
    var t' := SetAt(t, a, u);
    var items' := items[n := Table(SetAt(items[n].entries, more, u))];
    assert SetIn(t[part], a[1..], u) == Array(items');
    assert t' == t[part := Array(items')];
    OpenInItem(t', path, more);
  }

  // ------------------------------------------------------------ documents

  datatype Statement = Header(path: seq<string>, many: bool) | Line(key: seq<string>, value: Value)

  /** The tables so far, and the path of the table last opened. */
  datatype State = State(root: Entries, current: seq<string>)

  /** What the path of an array's table ends with. */
  const MARK := "\0last"

  /** The path without marks: where the keys of a line go. */
  function Shown(current: seq<string>): seq<string> {
    if current == [] then []
    else (if current[0] == MARK then [] else [current[0]]) + Shown(current[1..])
  }

  function Apply(s: State, statement: Statement): (r: Result<State, Trouble>)
  {
    match statement
    case Header(path, many) =>
      (match Open(s.root, path, many)
       case Err(why) => Err(why)
       case Ok((root, _)) => Ok(State(root, path + if many then [MARK] else [])))
    case Line(key, value) =>
      (match Open(s.root, Shown(s.current), false)
       case Err(why) => Err(why)
       case Ok((root, a)) =>
         OpenFindsATable(s.root, Shown(s.current), false);
         (match InsertAt(root, a, key, value)
          case Err(why) => Err(why)
          case Ok(root') => Ok(State(root', s.current))))
  }

  function ApplyAll(s: State, statements: seq<Statement>): Result<State, Trouble>
    decreases |statements|
  {
    if statements == [] then Ok(s)
    else match Apply(s, statements[0])
      case Err(why) => Err(why)
      case Ok(s') => ApplyAll(s', statements[1..])
  }

  /** Where a line's value goes. */
  function Place(s: State, key: seq<string>): Address
    requires Open(s.root, Shown(s.current), false).Ok?
  {
    Open(s.root, Shown(s.current), false).value.1 + Keys(key)
  }

  datatype Placement = Placement(address: Address, value: Value)

  /** Every value the statements place, in order. */
  function Placements(s: State, statements: seq<Statement>): seq<Placement>
    requires ApplyAll(s, statements).Ok?
    decreases |statements|
  {
    if statements == [] then []
    else
      (if statements[0].Line? then [Placement(Place(s, statements[0].key), statements[0].value)] else []) +
      Placements(Apply(s, statements[0]).value, statements[1..])
  }

  lemma BelowSum(b: Address, a: Address, more: Address)
    ensures Below(b, a + more) <==> Below(b, a) && Below(b[|a|..], more)
    ensures Below(b, a + more) ==> b[|a + more|..] == b[|a|..][|more|..]
  {
    if Below(b, a + more) {
      assert b[..|a|] == b[..|a + more|][..|a|] == a;
      assert b[|a|..][..|more|] == b[..|a + more|][|a|..] == more;
    }
    if |a + more| <= |b| && Below(b, a) && Below(b[|a|..], more) {
      assert b[..|a + more|] == b[..|a|] + b[|a|..][..|more|];
    }
  }

  lemma InsertAtLosesNothing(root: Entries, a: Address, key: seq<string>, value: Value, b: Address, x: Value)
    requires HasTable(root, a) && InsertAt(root, a, key, value).Ok? && Scalar(x)
    ensures Leaf(Table(InsertAt(root, a, key, value).value), b, x) <==>
      Leaf(Table(root), b, x) || Within(value, a + Keys(key), b, x)
  {
    var t := TableAt(root, a);
    LeavesOfSetIn(Table(root), a, Insert(t, key, value).value, b, x);
    BelowSum(b, a, Keys(key));
    if Below(b, a) {
      var rest := b[|a|..];
      InsertLosesNothing(t, key, value, rest, x);
      FindThenFind(Table(root), a, rest);
      assert a + rest == b;
    }
  }

  /** One line adds the scalars of its value at its place, and keeps every
      other. */
  lemma LineLosesNothing(s: State, key: seq<string>, value: Value, b: Address, x: Value)
    requires Apply(s, Line(key, value)).Ok? && Scalar(x)
    ensures Leaf(Table(Apply(s, Line(key, value)).value.root), b, x) <==>
      Leaf(Table(s.root), b, x) || Within(value, Place(s, key), b, x)
  {
    var path := Shown(s.current);
    OpenFindsATable(s.root, path, false);
    OpenLosesNothing(s.root, path, false, b, x);
    var (root, a) := Open(s.root, path, false).value;
    InsertAtLosesNothing(root, a, key, value, b, x);
  }

  /** A document loses nothing: every scalar of what it builds was there
      before or was placed by a line, and every such one is there. */
  lemma {:induction false} DocumentLosesNothing(s: State, statements: seq<Statement>, b: Address, x: Value)
    requires ApplyAll(s, statements).Ok? && Scalar(x)
    ensures Leaf(Table(ApplyAll(s, statements).value.root), b, x) <==>
      Leaf(Table(s.root), b, x) || exists p :: p in Placements(s, statements) && Within(p.value, p.address, b, x)
    decreases |statements|
  {
    if statements != [] {
      var s' := Apply(s, statements[0]).value;
      DocumentLosesNothing(s', statements[1..], b, x);
      var later := Placements(s', statements[1..]);
      match statements[0]
      case Header(path, many) =>
        OpenLosesNothing(s.root, path, many, b, x);
        assert Placements(s, statements) == later;
      case Line(key, value) =>
        LineLosesNothing(s, key, value, b, x);
        var first := Placement(Place(s, key), value);
        assert Placements(s, statements) == [first] + later;
        assert first in Placements(s, statements);
        assert forall p :: p in Placements(s, statements) <==> p == first || p in later;
    }
  }

  // ---------------------------------------------------- what lines go into

  lemma {:induction false} ShownOfMarked(path: seq<string>)
    ensures Shown(path + [MARK]) == Shown(path)
    ensures |Shown(path)| <= |path| && (|Shown(path)| == |path| <==> MARK !in path)
    ensures MARK !in path ==> Shown(path) == path
  {
    if path == [] {
      assert path + [MARK] == [MARK];
    } else {
      ShownOfMarked(path[1..]);
      assert (path + [MARK])[0] == path[0] && (path + [MARK])[1..] == path[1..] + [MARK];
    }
  }

  function KeySteps(a: Address): nat {
    if a == [] then 0 else (if a[0].Key? then 1 else 0) + KeySteps(a[1..])
  }

  lemma {:induction false} OpenTakesEachPart(t: Entries, path: seq<string>, many: bool)
    requires Open(t, path, many).Ok?
    ensures KeySteps(Open(t, path, many).value.1) == |path|
    decreases |path|
  {
    if path != [] {
      var part := path[0];
      var entry := Under(t, part);
      var a := Open(t, path, many).value.1;
      if |path| == 1 && many {
        assert a[1..][1..] == [];
        assert KeySteps(a[1..]) == KeySteps(a[1..][1..]) == 0;
      } else if entry.Table? {
        OpenTakesEachPart(entry.entries, path[1..], many);
        assert a[1..] == Open(entry.entries, path[1..], many).value.1;
      } else {
        var inner := entry.items[|entry.items| - 1].entries;
        OpenTakesEachPart(inner, path[1..], many);
        assert a[1..][1..] == Open(inner, path[1..], many).value.1;
      }
    }
  }

  /** The table a state's lines go into is the one at `a`. */
  predicate Current(s: State, a: Address) {
    Open(s.root, Shown(s.current), false) == Ok((s.root, a))
  }

  /** After a header, lines go into the table it opened, unless a part of its
      path is the mark the reader uses for itself: then they never do. */
  lemma LinesGoWhereTheHeaderOpenedIff(s: State, path: seq<string>, many: bool)
    requires Open(s.root, path, many).Ok?
    ensures Current(Apply(s, Header(path, many)).value, Open(s.root, path, many).value.1) <==> MARK !in path
  {
    var s' := Apply(s, Header(path, many)).value;
    var a := Open(s.root, path, many).value.1;
    ShownOfMarked(path);
    assert path + [] == path;
    assert Shown(s'.current) == Shown(path);
    OpenTakesEachPart(s.root, path, many);
    if MARK !in path {
      OpenAgain(s.root, path, many);
    } else if Current(s', a) {
      OpenTakesEachPart(s'.root, Shown(s'.current), false);
      assert false;
    }
  }

  /** A line places its value in the table its state is at, under its key, and
      the next line goes into the same table. */
  lemma LineStaysInItsTable(s: State, a: Address, key: seq<string>, value: Value)
    requires Current(s, a) && Apply(s, Line(key, value)).Ok?
    ensures Place(s, key) == a + Keys(key)
    ensures Find(Table(Apply(s, Line(key, value)).value.root), a + Keys(key)) == Some(value)
    ensures Current(Apply(s, Line(key, value)).value, a)
  {
    OpenFindsATable(s.root, Shown(s.current), false);
    var t := TableAt(s.root, a);
    var t' := Insert(t, key, value).value;
    OpenAfterChange(s.root, Shown(s.current), a, t');
    var root := SetAt(s.root, a, t');
    FindInSet(Table(s.root), a, t');
    FindThenFind(Table(root), a, Keys(key));
    InsertedIsFound(t, key, value);
  }

  lemma {:induction false} InsertedIsFound(t: Entries, key: seq<string>, value: Value)
    requires Insert(t, key, value).Ok?
    ensures Find(Table(Insert(t, key, value).value), Keys(key)) == Some(value)
    decreases |key|
  {
    KeysStep(key);
    var t' := Insert(t, key, value).value;
    assert Find(Table(t'), Keys(key)) == Find(t'[key[0]], Keys(key[1..]));
    if |key| > 1 { InsertedIsFound(Under(t, key[0]).entries, key[1..], value); }
  }

  // ------------------------------------------------ nothing is set twice

  predicate Present(t: Entries, b: Address) { Find(Table(t), b).Some? }

  lemma {:induction false} InsertKeepsPresence(t: Entries, key: seq<string>, value: Value, b: Address)
    requires Insert(t, key, value).Ok? && Present(t, b)
    ensures Present(Insert(t, key, value).value, b)
    decreases |key|
  {
    if b != [] && |key| > 1 && b[0] == Key(key[0]) {
      InsertKeepsPresence(Under(t, key[0]).entries, key[1..], value, b[1..]);
    }
  }

  lemma {:induction false} SetKeepsPresence(v: Value, a: Address, t: Entries, b: Address)
    requires Find(v, a).Some? && Find(v, a).value.Table? && Find(v, b).Some?
    requires Below(b, a) ==> Find(Table(t), b[|a|..]).Some?
    ensures Find(SetIn(v, a, t), b).Some?
    decreases |a|
  {
    if a == [] {
      assert b[..0] == [] && b[0..] == b;
    } else if b != [] {
      BelowStep(b, a);
      if b[0] == a[0] {
        if Below(b[1..], a[1..]) {
          assert a == [a[0]] + a[1..] && b[..|a|] == [b[0]] + b[1..][..|a| - 1];
        }
        match a[0]
        case Key(k) => SetKeepsPresence(v.entries[k], a[1..], t, b[1..]);
        case Index(i) => SetKeepsPresence(v.items[i], a[1..], t, b[1..]);
      }
    }
  }

  lemma {:induction false} OpenKeepsPresence(t: Entries, path: seq<string>, many: bool, b: Address)
    requires Open(t, path, many).Ok? && Present(t, b)
    ensures Present(Open(t, path, many).value.0, b)
    decreases |path|
  {
    if path != [] && b != [] && b[0] == Key(path[0]) {
      var entry := Under(t, path[0]);
      if |path| == 1 && many {
        MorePresence(entry.items, Table(map[]), b[1..]);
      } else if entry.Table? {
        OpenKeepsPresence(entry.entries, path[1..], many, b[1..]);
      } else {
        var n := |entry.items| - 1;
        assert Find(t[path[0]], b[1..]).Some?;
        if |b| > 1 && b[1] == Index(n) {
          assert Find(entry.items[n], b[1..][1..]).Some?;
          OpenKeepsPresence(entry.items[n].entries, path[1..], many, b[1..][1..]);
        }
        PresenceInItems(entry.items, n, Table(Open(entry.items[n].entries, path[1..], many).value.0), b[1..]);
      }
    }
  }

  lemma PresenceInItems(items: seq<Value>, i: nat, v: Value, b: Address)
    requires i < |items| && Find(Array(items), b).Some?
    requires b != [] && b[0] == Index(i) ==> Find(v, b[1..]).Some?
    ensures Find(Array(items[i := v]), b).Some?
  {
  }

  lemma MorePresence(items: seq<Value>, v: Value, b: Address)
    requires Find(Array(items), b).Some?
    ensures Find(Array(items + [v]), b).Some?
  {
  }

  lemma ApplyKeepsPresence(s: State, statement: Statement, b: Address)
    requires Apply(s, statement).Ok? && Present(s.root, b)
    ensures Present(Apply(s, statement).value.root, b)
  {
    match statement
    case Header(path, many) => OpenKeepsPresence(s.root, path, many, b);
    case Line(key, value) =>
      var path := Shown(s.current);
      OpenFindsATable(s.root, path, false);
      OpenKeepsPresence(s.root, path, false, b);
      var (root, a) := Open(s.root, path, false).value;
      if Below(b, a) {
        FindThenFind(Table(root), a, b[|a|..]);
        assert a + b[|a|..] == b;
        InsertKeepsPresence(TableAt(root, a), key, value, b[|a|..]);
      }
      SetKeepsPresence(Table(root), a, Insert(TableAt(root, a), key, value).value, b);
  }

  /** A line finds its place free, and takes it. */
  lemma LineTakesAFreePlace(s: State, key: seq<string>, value: Value)
    requires Apply(s, Line(key, value)).Ok?
    ensures !Present(s.root, Place(s, key))
    ensures Find(Table(Apply(s, Line(key, value)).value.root), Place(s, key)) == Some(value)
  {
    var path := Shown(s.current);
    OpenFindsATable(s.root, path, false);
    var (root, a) := Open(s.root, path, false).value;
    var t := TableAt(root, a);
    var t' := Insert(t, key, value).value;
    FindThenFind(Table(root), a, Keys(key));
    InsertIsRefusedIff(t, key, value);
    if Present(s.root, a + Keys(key)) { OpenKeepsPresence(s.root, path, false, a + Keys(key)); }
    FindInSet(Table(root), a, t');
    FindThenFind(Table(SetAt(root, a, t')), a, Keys(key));
    InsertedIsFound(t, key, value);
  }

  /** No two lines of a document place a value at the same address, nor at
      one that was taken before. */
  lemma {:induction false} NoPlaceIsTakenTwice(s: State, statements: seq<Statement>)
    requires ApplyAll(s, statements).Ok?
    ensures forall p :: p in Placements(s, statements) ==> !Present(s.root, p.address)
    ensures forall i, j :: 0 <= i < j < |Placements(s, statements)| ==>
      Placements(s, statements)[i].address != Placements(s, statements)[j].address
    decreases |statements|
  {
    if statements != [] {
      var s' := Apply(s, statements[0]).value;
      var later := Placements(s', statements[1..]);
      NoPlaceIsTakenTwice(s', statements[1..]);
      forall p | p in later ensures !Present(s.root, p.address) {
        if Present(s.root, p.address) { ApplyKeepsPresence(s, statements[0], p.address); }
      }
      if statements[0].Line? {
        LineTakesAFreePlace(s, statements[0].key, statements[0].value);
      }
    }
  }
}
