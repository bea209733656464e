/** The names units are kept under, and what two equal names tell
    (kompilator/src/compile.rs, `identities`). */
module Identities {
  import opened Common
  import opened Manifests
  import opened Features
  import opened Ordering

  datatype Settings = Settings(profile: string, incremental: bool, compiler: string, triple: string)

  /** A locked package: its identifier, its source (none for a path package),
      and the files under its directory with their contents. */
  datatype Package = Package(id: string, source: Option<string>, files: seq<(string, Option<string>)>)

  datatype Setup = Setup(units: Units, packages: seq<Package>, settings: Settings) {
    ghost predicate Valid() {
      && (forall u :: u in units ==> u.node < |packages|)
      && (forall i, j :: 0 <= i < j < |packages| ==> packages[i].id != packages[j].id)
    }
  }

  /** A unit's own share of what is hashed: the files of its package only for a
      path package that is not the root. */
  datatype Local = Local(
    id: string,
    source: Option<string>,
    host: bool,
    features: set<string>,
    settings: Settings,
    files: Option<seq<(string, Option<string>)>>)

  /** What is hashed. The sorted list of edges stands for a multiset. */
  datatype Content = Content(local: Local, edges: multiset<(string, Kind, string)>)

  function LocalOf(s: Setup, u: Unit): Local
    requires u in s.units && u.node < |s.packages|
  {
    var package := s.packages[u.node];
    Local(package.id, package.source, u.host, s.units[u].features, s.settings,
          if package.source.None? && u != ROOT then Some(package.files) else None)
  }

  /** The identity of a unit, or the empty text when it has none yet. */
  function IdOf(ids: map<Unit, string>, u: Unit): string {
    if u in ids then ids[u] else ""
  }

  function EdgeIds(edges: seq<Edge>, ids: map<Unit, string>): (named: seq<(string, Kind, string)>)
    ensures |named| == |edges|
    ensures forall i :: 0 <= i < |edges| ==> named[i] == (edges[i].alias, edges[i].kind, IdOf(ids, edges[i].to))
  {
    seq(|edges|, i requires 0 <= i < |edges| => (edges[i].alias, edges[i].kind, IdOf(ids, edges[i].to)))
  }

  function ContentOf(s: Setup, ids: map<Unit, string>, u: Unit): Content
    requires u in s.units && u.node < |s.packages|
  {
    Content(LocalOf(s, u), multiset(EdgeIds(s.units[u].edges, ids)))
  }

  ghost predicate Injective(hash: Content -> string) {
    forall a, b :: hash(a) == hash(b) ==> a == b
  }

  /** Every unit is named after its content and the names under it, and no
      name under it is missing. */
  ghost predicate Named(s: Setup, hash: Content -> string, ids: map<Unit, string>) {
    && s.Valid() && ids.Keys == s.units.Keys
    && (forall u :: u in s.units ==> ids[u] == hash(ContentOf(s, ids, u)))
    && (forall u, e :: u in s.units && e in s.units[u].edges ==> e.to in ids)
  }

  /** The units' identities. */
  method Identities(s: Setup, hash: Content -> string, order: seq<Unit>) returns (ids: map<Unit, string>)
    requires s.Valid() && Topological(s.units, order)
    ensures Named(s, hash, ids)
  {
    ids := map[];
    for i := 0 to |order|
      invariant ids.Keys == set u | u in order[..i]
      invariant forall u :: u in ids ==> NamedIn(s, hash, ids, u)
    {
      var unit := order[i];
      assert unit in order;
      forall e | e in s.units[unit].edges ensures e.to in ids {
        assert e in EdgesOf(s.units, order[i]);
      }
      ghost var before := ids;
      ids := ids[unit := hash(ContentOf(s, ids, unit))];
      assert order[..i + 1] == order[..i] + [unit];
      assert unit !in before;
      forall u | u in ids ensures NamedIn(s, hash, ids, u) {
        SameNames(s, before, ids, u);
      }
    }
    assert order[..|order|] == order;
    forall u | u in s.units ensures NamedIn(s, hash, ids, u) {
      assert u in order;
    }
  }

  ghost predicate NamedIn(s: Setup, hash: Content -> string, ids: map<Unit, string>, u: Unit) {
    && u in s.units && u in ids && u.node < |s.packages|
    && ids[u] == hash(ContentOf(s, ids, u))
    && forall e :: e in s.units[u].edges ==> e.to in ids
  }

  lemma SameNames(s: Setup, ids: map<Unit, string>, ids': map<Unit, string>, u: Unit)
    requires u in s.units && u.node < |s.packages|
    requires forall e :: e in s.units[u].edges ==> e.to in ids && e.to in ids' && ids[e.to] == ids'[e.to]
    ensures ContentOf(s, ids, u) == ContentOf(s, ids', u)
  {
    assert EdgeIds(s.units[u].edges, ids) == EdgeIds(s.units[u].edges, ids');
  }

  // ---------------------------------------------------- what a name pins

  /** `u` and `u'` agree on everything that decides their outputs, down to
      `depth` edges below them. */
  ghost predicate Alike(s: Setup, u: Unit, s': Setup, u': Unit, depth: nat)
    requires Closed(s) && Closed(s') && u in s.units && u' in s'.units
    decreases depth, 0
  {
    depth == 0 || AlikeBelow(s, u, s', u', depth - 1)
  }

  ghost predicate AlikeBelow(s: Setup, u: Unit, s': Setup, u': Unit, depth: nat)
    requires Closed(s) && Closed(s') && u in s.units && u' in s'.units
    decreases depth, 2
  {
    && LocalOf(s, u) == LocalOf(s', u')
    && (forall e :: e in s.units[u].edges ==> HasLike(s, e, s', u', depth))
    && (forall e' :: e' in s'.units[u'].edges ==> IsLike(s, u, s', e', depth))
  }

  ghost predicate Closed(s: Setup) {
    s.Valid() && forall v, e :: v in s.units && e in s.units[v].edges ==> e.to in s.units
  }

  /** Edge `e` has its like among the edges of `u'`. */
  ghost predicate HasLike(s: Setup, e: Edge, s': Setup, u': Unit, depth: nat)
    requires Closed(s) && Closed(s') && e.to in s.units && u' in s'.units
    decreases depth, 1
  {
    exists e' :: e' in s'.units[u'].edges && e'.alias == e.alias && e'.kind == e.kind && Alike(s, e.to, s', e'.to, depth)
  }

  /** Edge `e'` is like one of the edges of `u`. */
  ghost predicate IsLike(s: Setup, u: Unit, s': Setup, e': Edge, depth: nat)
    requires Closed(s) && Closed(s') && u in s.units && e'.to in s'.units
    decreases depth, 1
  {
    exists e :: e in s.units[u].edges && e'.alias == e.alias && e'.kind == e.kind && Alike(s, e.to, s', e'.to, depth)
  }

  /** An edge of one of two contents that are the same has its like in the other. */
  lemma MatchingEdge(edges: seq<Edge>, ids: map<Unit, string>, edges': seq<Edge>, ids': map<Unit, string>, e: Edge)
    requires multiset(EdgeIds(edges, ids)) == multiset(EdgeIds(edges', ids')) && e in edges
    ensures exists e' :: e' in edges' && e'.alias == e.alias && e'.kind == e.kind && IdOf(ids, e.to) == IdOf(ids', e'.to)
  {
    var i :| 0 <= i < |edges| && edges[i] == e;
    var x := EdgeIds(edges, ids)[i];
    assert x in multiset(EdgeIds(edges, ids));
    assert x in EdgeIds(edges', ids');
    var j :| 0 <= j < |edges'| && EdgeIds(edges', ids')[j] == x;
    assert edges'[j] in edges';
  }

  /** Equal names mean equal inputs all the way down, for units of any two builds. */
  lemma {:induction false} EqualNamesAreAlike(
    s: Setup, ids: map<Unit, string>, u: Unit, s': Setup, ids': map<Unit, string>, u': Unit,
    hash: Content -> string, depth: nat)
    requires Injective(hash) && Named(s, hash, ids) && Named(s', hash, ids')
    requires u in s.units && u' in s'.units && ids[u] == ids'[u']
    ensures Alike(s, u, s', u', depth)
    decreases depth, 0
  {
    if depth == 0 {
      AtNoDepth(s, u, s', u', depth);
    } else {
      AlikeDeeper(s, ids, u, s', ids', u', hash, depth, depth - 1);
    }
  }

  lemma {:induction false} AlikeDeeper(
    s: Setup, ids: map<Unit, string>, u: Unit, s': Setup, ids': map<Unit, string>, u': Unit,
    hash: Content -> string, depth: nat, d: nat)
    requires Injective(hash) && Named(s, hash, ids) && Named(s', hash, ids')
    requires u in s.units && u' in s'.units && ids[u] == ids'[u'] && depth == d + 1
    ensures Alike(s, u, s', u', depth)
    decreases d, 2
  {
    assert ContentOf(s, ids, u) == ContentOf(s', ids', u');
    forall e | e in s.units[u].edges ensures HasLike(s, e, s', u', d) {
      EdgeIsAlike(s, ids, u, s', ids', u', hash, d, e);
    }
    forall e' | e' in s'.units[u'].edges ensures IsLike(s, u, s', e', d) {
      EdgeBackIsAlike(s, ids, u, s', ids', u', hash, d, e');
    }
    OneDeeper(s, u, s', u', depth, d);
  }

  lemma AtNoDepth(s: Setup, u: Unit, s': Setup, u': Unit, depth: nat)
    requires Closed(s) && Closed(s') && u in s.units && u' in s'.units && depth == 0
    ensures Alike(s, u, s', u', depth)
  {
  }

  lemma OneDeeper(s: Setup, u: Unit, s': Setup, u': Unit, depth: nat, d: nat)
    requires Closed(s) && Closed(s') && u in s.units && u' in s'.units
    requires depth == d + 1 && AlikeBelow(s, u, s', u', d)
    ensures Alike(s, u, s', u', depth)
  {
  }

  lemma {:induction false} EdgeIsAlike(
    s: Setup, ids: map<Unit, string>, u: Unit, s': Setup, ids': map<Unit, string>, u': Unit,
    hash: Content -> string, depth: nat, e: Edge)
    requires Injective(hash) && Named(s, hash, ids) && Named(s', hash, ids') && u in s.units && u' in s'.units
    requires ContentOf(s, ids, u) == ContentOf(s', ids', u') && e in s.units[u].edges
    ensures HasLike(s, e, s', u', depth)
    decreases depth, 1
  {
    MatchingEdge(s.units[u].edges, ids, s'.units[u'].edges, ids', e);
    var e' :| e' in s'.units[u'].edges && e'.alias == e.alias && e'.kind == e.kind && IdOf(ids, e.to) == IdOf(ids', e'.to);
    EqualNamesAreAlike(s, ids, e.to, s', ids', e'.to, hash, depth);
  }

  lemma {:induction false} EdgeBackIsAlike(
    s: Setup, ids: map<Unit, string>, u: Unit, s': Setup, ids': map<Unit, string>, u': Unit,
    hash: Content -> string, depth: nat, e': Edge)
    requires Injective(hash) && Named(s, hash, ids) && Named(s', hash, ids') && u in s.units && u' in s'.units
    requires ContentOf(s, ids, u) == ContentOf(s', ids', u') && e' in s'.units[u'].edges
    ensures IsLike(s, u, s', e', depth)
    decreases depth, 1
  {
    MatchingEdge(s'.units[u'].edges, ids', s.units[u].edges, ids, e');
    var e :| e in s.units[u].edges && e'.alias == e.alias && e'.kind == e.kind && IdOf(ids, e.to) == IdOf(ids', e'.to);
    EqualNamesAreAlike(s, ids, e.to, s', ids', e'.to, hash, depth);
  }

  // --------------------------------------------- a change, seen from above

  ghost predicate EdgeClosed(w: Units, T: set<Unit>) {
    forall u, e :: u in T && e in EdgesOf(w, u) ==> e.to in T
  }

  /** `v` is `u` or under it. */
  ghost predicate Below(w: Units, u: Unit, v: Unit) {
    forall T :: EdgeClosed(w, T) && u in T ==> v in T
  }

  lemma BelowAnEdge(w: Units, u: Unit, e: Edge, v: Unit)
    requires e in EdgesOf(w, u) && Below(w, e.to, v)
    ensures Below(w, u, v)
  {
  }

  lemma BelowByAnEdge(w: Units, u: Unit, v: Unit)
    requires u in w && (forall t, e :: t in w && e in w[t].edges ==> e.to in w) && Below(w, u, v) && v != u
    ensures exists e :: e in w[u].edges && Below(w, e.to, v)
  {
    var T := {u} + set t, e | e in w[u].edges && t in w && Below(w, e.to, t) :: t;
    forall t, f | t in T && f in EdgesOf(w, t) ensures f.to in T {
      if t == u {
        assert Below(w, f.to, f.to);
      } else {
        var e :| e in w[u].edges && Below(w, e.to, t);
        BelowTransitive(w, e.to, t, f);
      }
    }
    assert EdgeClosed(w, T);
  }

  lemma BelowTransitive(w: Units, u: Unit, v: Unit, e: Edge)
    requires Below(w, u, v) && e in EdgesOf(w, v)
    ensures Below(w, u, e.to)
  {
    forall T | EdgeClosed(w, T) && u in T ensures e.to in T {
      assert v in T;
    }
  }

  /** The same packages and the same edges; everything else may differ. */
  ghost predicate SameGraph(s: Setup, s': Setup) {
    && s.units.Keys == s'.units.Keys && (forall u :: u in s.units ==> s.units[u].edges == s'.units[u].edges)
    && |s.packages| == |s'.packages| && forall i :: 0 <= i < |s.packages| ==> s.packages[i].id == s'.packages[i].id
  }

  ghost predicate SameBelow(s: Setup, s': Setup, u: Unit)
    requires s.Valid() && s'.Valid() && s.units.Keys == s'.units.Keys
  {
    forall v :: v in s.units && Below(s.units, u, v) ==> LocalOf(s, v) == LocalOf(s', v)
  }

  lemma {:induction false} KeptNameIsUnchanged(
    s: Setup, ids: map<Unit, string>, s': Setup, ids': map<Unit, string>, hash: Content -> string, u: Unit, rank: map<Unit, nat>)
    requires Injective(hash) && Named(s, hash, ids) && Named(s', hash, ids') && SameGraph(s, s')
    requires Ranks(s.units, rank) && u in s.units && ids[u] == ids'[u]
    ensures SameBelow(s, s', u)
    decreases if u in rank then rank[u] else 0
  {
    assert ContentOf(s, ids, u) == ContentOf(s', ids', u);
    forall v | v in s.units && Below(s.units, u, v) ensures LocalOf(s, v) == LocalOf(s', v) {
      if v != u {
        BelowByAnEdge(s.units, u, v);
        var e :| e in s.units[u].edges && Below(s.units, e.to, v);
        ChildKeepsName(s, ids, s', ids', hash, u, e);
        KeptNameIsUnchanged(s, ids, s', ids', hash, e.to, rank);
      }
    }
  }

  lemma {:induction false} UnchangedKeepsName(
    s: Setup, ids: map<Unit, string>, s': Setup, ids': map<Unit, string>, hash: Content -> string, u: Unit, rank: map<Unit, nat>)
    requires Named(s, hash, ids) && Named(s', hash, ids') && SameGraph(s, s')
    requires Ranks(s.units, rank) && u in s.units && SameBelow(s, s', u)
    ensures ids[u] == ids'[u]
    decreases if u in rank then rank[u] else 0
  {
    var edges := s.units[u].edges;
    forall e | e in edges ensures ids[e.to] == ids'[e.to] {
      forall v | v in s.units && Below(s.units, e.to, v) ensures LocalOf(s, v) == LocalOf(s', v) {
        BelowAnEdge(s.units, u, e, v);
      }
      UnchangedKeepsName(s, ids, s', ids', hash, e.to, rank);
    }
    assert Below(s.units, u, u);
    assert EdgeIds(edges, ids) == EdgeIds(edges, ids');
  }

  /** A unit keeps its name exactly while nothing that decides it or a unit
      under it changes; so any change renames every unit above it. */
  lemma RenamedIffChangedBelow(
    s: Setup, ids: map<Unit, string>, s': Setup, ids': map<Unit, string>, hash: Content -> string, u: Unit)
    requires Injective(hash) && Named(s, hash, ids) && Named(s', hash, ids') && SameGraph(s, s')
    requires Acyclic(s.units) && u in s.units
    ensures ids[u] == ids'[u] <==> SameBelow(s, s', u)
  {
    var rank :| Ranks(s.units, rank);
    if ids[u] == ids'[u] {
      KeptNameIsUnchanged(s, ids, s', ids', hash, u, rank);
    }
    if SameBelow(s, s', u) {
      UnchangedKeepsName(s, ids, s', ids', hash, u, rank);
    }
  }

  /** The dependency found under the same name is the same dependency. */
  lemma ChildKeepsName(
    s: Setup, ids: map<Unit, string>, s': Setup, ids': map<Unit, string>, hash: Content -> string, u: Unit, e: Edge)
    requires Injective(hash) && Named(s, hash, ids) && Named(s', hash, ids') && SameGraph(s, s')
    requires u in s.units && e in s.units[u].edges && ContentOf(s, ids, u) == ContentOf(s', ids', u)
    ensures ids[e.to] == ids'[e.to]
  {
    var edges := s.units[u].edges;
    MatchingEdge(edges, ids, edges, ids', e);
    var e' :| e' in edges && e'.alias == e.alias && e'.kind == e.kind && IdOf(ids, e.to) == IdOf(ids', e'.to);
    assert ContentOf(s, ids, e.to) == ContentOf(s', ids', e'.to);
    assert LocalOf(s, e.to) == LocalOf(s', e'.to);
    assert e.to.node == e'.to.node && e.to.host == e'.to.host;
  }
}
