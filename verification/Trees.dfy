/** Tables changed in place (kompilator/src/toml.rs, `insert` and `open`). The
    table a step works on is the one at an address under the root. */
module Trees {
  import opened Common
  import opened Tables

  lemma {:induction false} SetBelow(v: Value, a: Address, b: Address, t: Entries)
    requires Find(v, a).Some? && Find(v, a).value.Table?
    requires Find(Find(v, a).value, b).Some? && Find(Find(v, a).value, b).value.Table?
    ensures Find(v, a + b) == Find(Find(v, a).value, b)
    ensures SetIn(v, a + b, t) == SetIn(v, a, SetIn(Find(v, a).value, b, t).entries)
    decreases |a|
  {
    FindThenFind(v, a, b);
    if a == [] {
      assert a + b == b;
    } else {
      assert (a + b)[0] == a[0] && (a + b)[1..] == a[1..] + b;
      match a[0]
      case Key(k) => SetBelow(v.entries[k], a[1..], b, t);
      case Index(i) => SetBelow(v.items[i], a[1..], b, t);
    }
  }

  lemma {:induction false} SetTwice(v: Value, a: Address, t: Entries, u: Entries)
    requires Find(v, a).Some? && Find(v, a).value.Table?
    ensures Find(SetIn(v, a, t), a) == Some(Table(t))
    ensures SetIn(SetIn(v, a, t), a, u) == SetIn(v, a, u)
    decreases |a|
  {
    FindInSet(v, a, t);
    if a != [] {
      match a[0]
      case Key(k) => SetTwice(v.entries[k], a[1..], t, u);
      case Index(i) => SetTwice(v.items[i], a[1..], t, u);
    }
  }

  /** Changing a table below `here` is changing the one at `here`. */
  lemma SetAtBelow(root: Entries, here: Address, b: Address, u: Entries)
    requires HasTable(root, here) && HasTable(TableAt(root, here), b)
    ensures HasTable(root, here + b) && TableAt(root, here + b) == TableAt(TableAt(root, here), b)
    ensures SetAt(root, here + b, u) == SetAt(root, here, SetAt(TableAt(root, here), b, u))
  {
    SetBelow(Table(root), here, b, u);
  }

  lemma SetAtTwice(root: Entries, here: Address, t: Entries, u: Entries)
    requires HasTable(root, here)
    ensures HasTable(SetAt(root, here, t), here) && TableAt(SetAt(root, here, t), here) == t
    ensures SetAt(SetAt(root, here, t), here, u) == SetAt(root, here, u)
  {
    SetTwice(Table(root), here, t, u);
  }

  lemma {:induction false} SetSame(v: Value, a: Address)
    requires Find(v, a).Some? && Find(v, a).value.Table?
    ensures SetIn(v, a, Find(v, a).value.entries) == v
    decreases |a|
  {
    if a != [] {
      match a[0]
      case Key(k) =>
        SetSame(v.entries[k], a[1..]);
        assert v.entries[k := v.entries[k]] == v.entries;
      case Index(i) =>
        SetSame(v.items[i], a[1..]);
        assert v.items[i := v.items[i]] == v.items;
    }
  }

  lemma SetAtSame(root: Entries, here: Address)
    requires HasTable(root, here)
    ensures SetAt(root, here, TableAt(root, here)) == root
  {
    SetSame(Table(root), here);
  }

  /** What a key or an index is under a table. */
  lemma SetUnderKey(t: Entries, part: string, u: Entries)
    requires part in t && t[part].Table?
    ensures HasTable(t, [Key(part)]) && TableAt(t, [Key(part)]) == t[part].entries
    ensures SetAt(t, [Key(part)], u) == t[part := Table(u)]
  {
    var a := [Key(part)];
    assert a[1..] == [];
    assert Find(Table(t), a) == Find(t[part], []);
    assert SetIn(t[part], [], u) == Table(u);
    assert SetIn(Table(t), a, u) == Table(t[part := SetIn(t[part], [], u)]);
  }

  lemma SetUnderItem(t: Entries, part: string, i: nat, u: Entries)
    requires part in t && t[part].Array? && i < |t[part].items| && t[part].items[i].Table?
    ensures HasTable(t, [Key(part), Index(i)]) && TableAt(t, [Key(part), Index(i)]) == t[part].items[i].entries
    ensures SetAt(t, [Key(part), Index(i)], u) == t[part := Array(t[part].items[i := Table(u)])]
  {
    var a := [Key(part), Index(i)];
    assert a[1..] == [Index(i)] && [Index(i)][1..] == [];
    assert Find(Table(t), a) == Find(t[part], [Index(i)]) == Find(t[part].items[i], []);
    assert SetIn(t[part].items[i], [], u) == Table(u);
    assert SetIn(t[part], [Index(i)], u) == Array(t[part].items[i := Table(u)]);
    assert SetIn(Table(t), a, u) == Table(t[part := SetIn(t[part], [Index(i)], u)]);
  }

  /** The root with an empty table under `part` of the table at `here`, when
      nothing is there. */
  function Entered(root: Entries, here: Address, part: string): Entries
    requires HasTable(root, here)
  {
    var t := TableAt(root, here);
    if part in t then root else SetAt(root, here, t[part := Table(map[])])
  }

  lemma EnteredTable(root: Entries, here: Address, part: string, u: Entries)
    requires HasTable(root, here) && Under(TableAt(root, here), part).Table?
    ensures var root' := Entered(root, here, part);
      && HasTable(root', here + [Key(part)])
      && TableAt(root', here + [Key(part)]) == Under(TableAt(root, here), part).entries
      && SetAt(root', here + [Key(part)], u) == SetAt(root, here, TableAt(root, here)[part := Table(u)])
  {
    var t := TableAt(root, here);
    var t' := t[part := Under(t, part)];
    if part in t { assert t' == t; SetAtSame(root, here); }
    var root' := Entered(root, here, part);
    assert root' == SetAt(root, here, t');
    SetAtTwice(root, here, t', t'[part := Table(u)]);
    SetUnderKey(t', part, u);
    SetAtBelow(root', here, [Key(part)], u);
    assert t'[part := Table(u)] == t[part := Table(u)];
  }

  /** One step of an insertion into the table at `here`. */
  lemma InsertStep(root: Entries, here: Address, key: seq<string>, value: Value)
    requires HasTable(root, here) && |key| > 1
    ensures var next := Under(TableAt(root, here), key[0]);
      if next.Table? then
        && HasTable(Entered(root, here, key[0]), here + [Key(key[0])])
        && InsertAt(root, here, key, value) == InsertAt(Entered(root, here, key[0]), here + [Key(key[0])], key[1..], value)
      else InsertAt(root, here, key, value) == Err(NotATable(key[0]))
  {
    var t := TableAt(root, here);
    var next := Under(t, key[0]);
    if next.Table? {
      EnteredTable(root, here, key[0], map[]);
      var inner := Insert(next.entries, key[1..], value);
      if inner.Ok? { EnteredTable(root, here, key[0], inner.value); }
    }
  }

  /** Opening below the table at `here`. */
  function OpenFrom(root: Entries, here: Address, path: seq<string>, many: bool): Result<(Entries, Address), Trouble>
    requires HasTable(root, here)
  {
    match Open(TableAt(root, here), path, many)
    case Err(why) => Err(why)
    case Ok((t, more)) => Ok((SetAt(root, here, t), here + more))
  }

  lemma OpenStepTable(root: Entries, here: Address, path: seq<string>, many: bool)
    requires HasTable(root, here) && path != [] && !(|path| == 1 && many)
    requires Under(TableAt(root, here), path[0]).Table?
    ensures HasTable(Entered(root, here, path[0]), here + [Key(path[0])])
    ensures OpenFrom(root, here, path, many) == OpenFrom(Entered(root, here, path[0]), here + [Key(path[0])], path[1..], many)
  {
    var t, part := TableAt(root, here), path[0];
    EnteredTable(root, here, part, map[]);
    var inner := Open(Under(t, part).entries, path[1..], many);
    if inner.Ok? {
      EnteredTable(root, here, part, inner.value.0);
      assert here + ([Key(part)] + inner.value.1) == here + [Key(part)] + inner.value.1;
    }
  }

  lemma OpenStepItem(root: Entries, here: Address, path: seq<string>, many: bool)
    requires HasTable(root, here) && path != [] && !(|path| == 1 && many) && path[0] in TableAt(root, here)
    requires var entry := TableAt(root, here)[path[0]]; entry.Array? && entry.items != [] && Last(entry.items).Table?
    ensures var a := here + [Key(path[0]), Index(|TableAt(root, here)[path[0]].items| - 1)];
      HasTable(root, a) && OpenFrom(root, here, path, many) == OpenFrom(root, a, path[1..], many)
  {
    var t, part := TableAt(root, here), path[0];
    var n := |t[part].items| - 1;
    var b := [Key(part), Index(n)];
    SetUnderItem(t, part, n, map[]);
    SetAtBelow(root, here, b, map[]);
    var inner := Open(Last(t[part].items).entries, path[1..], many);
    if inner.Ok? {
      SetUnderItem(t, part, n, inner.value.0);
      SetAtBelow(root, here, b, inner.value.0);
      assert here + (b + inner.value.1) == here + b + inner.value.1;
    }
  }

  lemma OpenFromRoot(root: Entries, path: seq<string>, many: bool)
    ensures HasTable(root, []) && OpenFrom(root, [], path, many) == Open(root, path, many)
  {
    var r := Open(root, path, many);
    if r.Ok? { assert [] + r.value.1 == r.value.1; }
  }

  lemma OpenFromEnd(root: Entries, here: Address)
    requires HasTable(root, here)
    ensures OpenFrom(root, here, [], false) == OpenFrom(root, here, [], true) == Ok((root, here))
  {
    SetAtSame(root, here);
    assert here + [] == here;
  }

  /** A document's tables. */
  class Tree {
    var root: Entries

    constructor ()
      ensures root == map[]
    {
      root := map[];
    }

    /** Descends from the table at `from`, one address at a time. */
    method Insert(from: Address, key: seq<string>, value: Value) returns (failure: Option<Trouble>)
      requires HasTable(root, from)
      modifies this
      ensures var r := InsertAt(old(root), from, key, value);
        if failure.None? then r == Ok(root) else r == Err(failure.value)
    {
      if key == [] { return Some(EmptyKey); }
      var here := from;
      for i := 0 to |key| - 1
        invariant HasTable(root, here)
        invariant InsertAt(root, here, key[i..], value) == InsertAt(old(root), from, key, value)
      {
        InsertStep(root, here, key[i..], value);
        var t := TableAt(root, here);
        if key[i] !in t { root := SetAt(root, here, t[key[i] := Table(map[])]); }
        if key[i] in t && !t[key[i]].Table? { return Some(NotATable(key[i])); }
        here := here + [Key(key[i])];
        assert key[i..][1..] == key[i + 1..];
      }
      var last := key[|key| - 1];
      assert key[|key| - 1..] == [last];
      var t := TableAt(root, here);
      if last in t { return Some(DefinedTwice(last)); }
      root := SetAt(root, here, t[last := value]);
      return None;
    }

    /** Descends from the root and leaves the address of the table opened. */
    method Open(path: seq<string>, many: bool) returns (r: Result<Address, Trouble>)
      modifies this
      ensures var was := Tables.Open(old(root), path, many);
        if r.Ok? then was == Ok((root, r.value)) else was == Err(r.error)
    {
      var here: Address := [];
      OpenFromRoot(root, path, many);
      assert path[0..] == path;
      for i := 0 to |path|
        invariant HasTable(root, here)
        invariant OpenFrom(root, here, path[i..], many) == Tables.Open(old(root), path, many)
      {
        var part, t := path[i], TableAt(root, here);
        assert path[i..][1..] == path[i + 1..];
        if i + 1 == |path| && many {
          var entry := if part in t then t[part] else Array([]);
          if !entry.Array? { return Err(NotAnArray(part)); }
          root := SetAt(root, here, t[part := Array(entry.items + [Table(map[])])]);
          return Ok(here + [Key(part), Index(|entry.items|)]);
        }
        if part !in t {
          OpenStepTable(root, here, path[i..], many);
          root := SetAt(root, here, t[part := Table(map[])]);
          here := here + [Key(part)];
        } else if t[part].Table? {
          OpenStepTable(root, here, path[i..], many);
          here := here + [Key(part)];
        } else if t[part].Array? {
          var items := t[part].items;
          if items == [] || !Last(items).Table? { return Err(HoldsNoTable(part)); }
          OpenStepItem(root, here, path[i..], many);
          here := here + [Key(part), Index(|items| - 1)];
        } else {
          return Err(NotATable(part));
        }
      }
      OpenFromEnd(root, here);
      return Ok(here);
    }
  }
}
