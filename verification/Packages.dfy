/** Reading the locked packages a build needs, each once
    (kompilator/src/resolve.rs, `Graph::build`; kompilator/src/lock.rs). */
module Packages {
  import opened Common
  import opened Manifests
  import opened Features
  import Cfgs

  datatype Package = Package(name: string, version: string, source: Option<string>, dependencies: seq<string>)

  function Id(p: Package): string { p.name + " " + p.version }

  // ------------------------------------------------------------- the lock

  /** How many characters `text` starts with before a space, or spaces. */
  function Leading(text: string, spaces: bool): (n: nat)
    ensures n <= |text|
    ensures n > 0 <==> text != "" && IsWhite(text[0]) == spaces
  {
    if text != "" && IsWhite(text[0]) == spaces then 1 + Leading(text[1..], spaces) else 0
  }

  function Words(text: string): seq<string>
    decreases |text|
  {
    var start := Leading(text, true);
    var rest := text[start..];
    var n := Leading(rest, false);
    if n == 0 then [] else [rest[..n]] + Words(rest[n..])
  }

  /** Whether a lock line names the package. */
  predicate Names(words: seq<string>, p: Package)
    requires words != []
  {
    p.name == words[0] && (|words| > 1 ==> p.version == words[1])
  }

  function Named(packages: seq<Package>, words: seq<string>): (found: seq<Package>)
    requires words != []
    ensures forall p :: p in found <==> p in packages && Names(words, p)
  {
    if packages == [] then []
    else (if Names(words, packages[0]) then [packages[0]] else []) + Named(packages[1..], words)
  }

  /** The package at `i` is the only one the words name. */
  predicate OnlyNamed(packages: seq<Package>, words: seq<string>, i: nat)
    requires words != []
  {
    i < |packages| && Names(words, packages[i]) && forall j :: 0 <= j < |packages| && Names(words, packages[j]) ==> j == i
  }

  lemma {:induction false} OnlyNamedIff(packages: seq<Package>, words: seq<string>)
    requires words != []
    ensures |Named(packages, words)| == 1 <==> exists i :: 0 <= i < |packages| && OnlyNamed(packages, words, i)
    ensures forall i :: 0 <= i < |packages| && OnlyNamed(packages, words, i) ==> Named(packages, words) == [packages[i]]
  {
    if packages != [] {
      var rest := packages[1..];
      OnlyNamedIff(rest, words);
      NoneNamed(rest, words);
      if Names(words, packages[0]) {
        if Named(rest, words) == [] {
          assert OnlyNamed(packages, words, 0);
        } else {
          var q := Named(rest, words)[0];
          assert q in rest && Names(words, q);
        }
      } else {
        forall i | 0 < i < |packages| ensures OnlyNamed(packages, words, i) <==> OnlyNamed(rest, words, i - 1) {
          assert forall j :: 0 < j < |packages| ==> packages[j] == rest[j - 1];
          assert forall j :: 0 <= j < |rest| ==> rest[j] == packages[j + 1];
        }
        forall i | 0 <= i < |rest| ensures OnlyNamed(rest, words, i) <==> OnlyNamed(packages, words, i + 1) {
          assert i + 1 - 1 == i;
        }
      }
    }
  }

  lemma NoneNamed(packages: seq<Package>, words: seq<string>)
    requires words != []
    ensures Named(packages, words) == [] <==> forall p :: p in packages ==> !Names(words, p)
  {
    if Named(packages, words) != [] { assert Named(packages, words)[0] in Named(packages, words); }
  }

  /** The one locked package a line names; none when none or several are. */
  function LockedAs(packages: seq<Package>, line: string): (p: Option<Package>)
    ensures p.Some? <==> Words(line) != [] && exists i :: 0 <= i < |packages| && OnlyNamed(packages, Words(line), i)
    ensures p.Some? ==> p.value in packages && Names(Words(line), p.value)
    ensures p.Some? ==> forall q :: q in packages && Names(Words(line), q) ==> q == p.value
  {
    var words := Words(line);
    if words == [] then None
    else
      OnlyNamedIff(packages, words);
      var found := Named(packages, words);
      if |found| == 1 then
        assert found[0] in found;
        Some(found[0])
      else None
  }

  // ---------------------------------------------------------- the choice

  function SkipToDigit(text: string): string {
    if text == "" || '0' <= text[0] <= '9' then text else SkipToDigit(text[1..])
  }

  function DigitsAndDots(text: string): string {
    if text != "" && ('0' <= text[0] <= '9' || text[0] == '.') then [text[0]] + DigitsAndDots(text[1..]) else ""
  }

  /** The part up to the first dot, and the rest. */
  function Part(text: string): (string, Option<string>) {
    match SplitOnce(text, '.')
    case None => (text, None)
    case Some((part, rest)) => (part, Some(rest))
  }

  /** Versions with the same line count as compatible. */
  function VersionLine(version: string): string {
    var (major, rest) := Part(DigitsAndDots(SkipToDigit(version)));
    if major != "0" then major
    else "0." + if rest.Some? then Part(rest.value).0 else "0"
  }

  /** The locked packages a dependency may be. */
  function Candidates(packages: seq<Package>, lines: seq<string>, d: Dependency): (found: seq<Package>)
    ensures forall p :: p in found <==> p.name == d.package && exists line :: line in lines && LockedAs(packages, line) == Some(p)
  {
    if lines == [] then []
    else
      var p := LockedAs(packages, lines[0]);
      (if p.Some? && p.value.name == d.package then [p.value] else []) + Candidates(packages, lines[1..], d)
  }

  function OfLine(found: seq<Package>, line: Option<string>): (p: Option<Package>)
    ensures p.Some? ==> p.value in found && line == Some(VersionLine(p.value.version))
    ensures p.None? ==> forall q :: q in found ==> line != Some(VersionLine(q.version))
  {
    if found == [] then None
    else if line == Some(VersionLine(found[0].version)) then Some(found[0])
    else OfLine(found[1..], line)
  }

  datatype Trouble =
    | Platform(package: string, why: Cfgs.Error)
    | NoSuchPackage(package: string, dependency: string)
    | NoSuchVersion(package: string, dependency: string)
    | NoManifest(package: string)
    | NoRoot

  /** A line of the lock entry of `p` names `q`, and `q` bears the name `d` asks for. */
  predicate MayBe(packages: seq<Package>, p: Package, d: Dependency, q: Package) {
    q.name == d.package && exists line :: line in p.dependencies && LockedAs(packages, line) == Some(q)
  }

  function OnPlatform(target: Cfgs.Target, d: Dependency): Result<bool, Cfgs.Error> {
    if d.platform.Some? then Cfgs.Applies(target, d.platform.value) else Ok(true)
  }

  /** The package a dependency line is; none when it does not apply. */
  function Chosen(target: Cfgs.Target, packages: seq<Package>, p: Package, d: Dependency): (r: Result<Option<Package>, Trouble>)
    ensures r == Ok(None) <==>
      OnPlatform(target, d) == Ok(false) ||
      (OnPlatform(target, d) == Ok(true) && d.optional && forall q :: q in packages ==> !MayBe(packages, p, d, q))
    ensures r.Ok? && r.value.Some? ==> OnPlatform(target, d) == Ok(true) && r.value.value in packages && MayBe(packages, p, d, r.value.value)
    ensures r.Ok? && r.value.Some? && |Candidates(packages, p.dependencies, d)| > 1 ==>
      d.requirement.Some? && VersionLine(r.value.value.version) == VersionLine(d.requirement.value)
    ensures r.Err? ==> match r.error
      case Platform(_, why) => OnPlatform(target, d) == Err(why)
      case NoSuchPackage(_, _) => !d.optional && forall q :: q in packages ==> !MayBe(packages, p, d, q)
      case NoSuchVersion(_, _) => forall q :: q in packages && MayBe(packages, p, d, q) ==>
        d.requirement.None? || VersionLine(q.version) != VersionLine(d.requirement.value)
      case _ => false
  {
    var applies := OnPlatform(target, d);
    if applies.Err? then Err(Platform(p.name, applies.error))
    else if !applies.value then Ok(None)
    else
      var found := Candidates(packages, p.dependencies, d);
      assert forall q :: q in found <==> MayBe(packages, p, d, q);
      if |found| == 0 then (if d.optional then Ok(None) else Err(NoSuchPackage(Id(p), d.package)))
      else
        assert found[0] in found && MayBe(packages, p, d, found[0]);
        if |found| == 1 then Ok(Some(found[0]))
        else
          var line := if d.requirement.Some? then Some(VersionLine(d.requirement.value)) else None;
          match OfLine(found, line)
          case None => Err(NoSuchVersion(Id(p), d.package))
          case Some(chosen) => Ok(Some(chosen))
  }

  // -------------------------------------------------------- the worklist

  datatype Node = Node(package: Package, manifest: Manifest)

  /** The identifiers of the lock. */
  function Ids(packages: seq<Package>): (ids: set<string>)
    ensures forall p :: p in packages ==> Id(p) in ids
  {
    set p | p in packages :: Id(p)
  }

  /** Identifiers and positions are in bijection. */
  ghost predicate Indexed(nodes: seq<Node>, index: map<string, nat>) {
    && |index| == |nodes|
    && (forall i :: 0 <= i < |nodes| ==> Id(nodes[i].package) in index && index[Id(nodes[i].package)] == i)
    && (forall id :: id in index ==> index[id] < |nodes| && Id(nodes[index[id]].package) == id)
  }

  /** The target of one line: the node of the package it is. */
  ghost predicate RightTarget(target: Cfgs.Target, packages: seq<Package>, nodes: seq<Node>, node: Node, d: Dependency,
                              entry: Option<nat>) {
    var chosen := Chosen(target, packages, node.package, d);
    && chosen.Ok?
    && (entry.None? <==> chosen.value.None?)
    && (entry.Some? ==> entry.value < |nodes| && Id(nodes[entry.value].package) == Id(chosen.value.value))
  }

  ghost predicate RightRow(target: Cfgs.Target, packages: seq<Package>, nodes: seq<Node>, node: Node, row: seq<Option<nat>>) {
    && |row| <= |node.manifest.dependencies|
    && forall p :: 0 <= p < |row| ==> RightTarget(target, packages, nodes, node, node.manifest.dependencies[p], row[p])
  }

  lemma RightRowStays(target: Cfgs.Target, packages: seq<Package>, nodes: seq<Node>, nodes': seq<Node>, node: Node,
                      row: seq<Option<nat>>)
    requires nodes <= nodes' && RightRow(target, packages, nodes, node, row)
    ensures RightRow(target, packages, nodes', node, row)
  {
    forall p | 0 <= p < |row| ensures RightTarget(target, packages, nodes', node, node.manifest.dependencies[p], row[p]) {
      assert RightTarget(target, packages, nodes, node, node.manifest.dependencies[p], row[p]);
    }
  }

  lemma RightRowGrows(target: Cfgs.Target, packages: seq<Package>, nodes: seq<Node>, node: Node,
                      row: seq<Option<nat>>, entry: Option<nat>)
    requires RightRow(target, packages, nodes, node, row) && |row| < |node.manifest.dependencies|
    requires RightTarget(target, packages, nodes, node, node.manifest.dependencies[|row|], entry)
    ensures RightRow(target, packages, nodes, node, row + [entry])
  {
  }

  lemma {:induction false} SubsetCount(a: set<string>, b: set<string>)
    requires a <= b
    ensures |a| <= |b|
  {
    if a != {} {
      var x :| x in a;
      SubsetCount(a - {x}, b - {x});
    }
  }

  /** There are no more nodes than identifiers in the lock. */
  lemma NodesAreBounded(packages: seq<Package>, nodes: seq<Node>, index: map<string, nat>)
    requires Indexed(nodes, index) && forall i :: 0 <= i < |nodes| ==> nodes[i].package in packages
    ensures |nodes| <= |Ids(packages)|
  {
    forall id | id in index.Keys ensures id in Ids(packages) {
      assert nodes[index[id]].package in packages;
    }
    SubsetCount(index.Keys, Ids(packages));
    assert |index.Keys| == |index|;
  }

  /** What the worklist ends with. */
  ghost predicate Complete(target: Cfgs.Target, packages: seq<Package>, nodes: seq<Node>, targets: seq<seq<Option<nat>>>) {
    && |targets| == |nodes|
    && forall n :: 0 <= n < |nodes| ==>
         |targets[n]| == |nodes[n].manifest.dependencies| && RightRow(target, packages, nodes, nodes[n], targets[n])
  }

  function ManifestsOf(nodes: seq<Node>): (manifests: seq<Manifest>)
    ensures |manifests| == |nodes| && forall n :: 0 <= n < |nodes| ==> manifests[n] == nodes[n].manifest
  {
    seq(|nodes|, n requires 0 <= n < |nodes| => nodes[n].manifest)
  }

  /** Every index the feature resolver uses is then in range. */
  lemma CompleteIsValid(target: Cfgs.Target, packages: seq<Package>, nodes: seq<Node>, targets: seq<seq<Option<nat>>>)
    requires Complete(target, packages, nodes, targets) && nodes != []
    ensures Locked(ManifestsOf(nodes), targets).Valid()
  {
    var g := Locked(ManifestsOf(nodes), targets);
    forall n, p | 0 <= n < |g.manifests| && 0 <= p < |g.targets[n]| && g.targets[n][p].Some?
      ensures g.targets[n][p].value < |g.manifests|
    {
      assert RightTarget(target, packages, nodes, nodes[n], nodes[n].manifest.dependencies[p], targets[n][p]);
    }
  }

  ghost predicate Sane(packages: seq<Package>, nodes: seq<Node>, index: map<string, nat>) {
    Indexed(nodes, index) && forall i :: 0 <= i < |nodes| ==> nodes[i].package in packages
  }

  /** The node of `chosen`, read when it has none yet. `manifest` is what
      reading the manifest of a package gives, as a dependency names it. */
  method Place(packages: seq<Package>, manifest: (Package, Dependency) -> Option<Manifest>, chosen: Package, d: Dependency,
               nodes: seq<Node>, index: map<string, nat>)
    returns (ok: bool, position: nat, nodes': seq<Node>, index': map<string, nat>)
    requires Sane(packages, nodes, index) && chosen in packages
    ensures ok ==> Sane(packages, nodes', index') && nodes <= nodes'
    ensures ok ==> position < |nodes'| && Id(nodes'[position].package) == Id(chosen)
    ensures ok ==> nodes' == nodes || (position == |nodes| && |nodes'| == |nodes| + 1)
    ensures ok <==> Id(chosen) in index || manifest(chosen, d).Some?
  {
    var id := Id(chosen);
    if id in index { return true, index[id], nodes, index; }
    var m := manifest(chosen, d);
    if m.None? { return false, 0, nodes, index; }
    nodes' := nodes + [Node(chosen, m.value)];
    index' := index[id := |nodes|];
    return true, |nodes|, nodes', index';
  }

  /** Some dependency line is the node at `i`. */
  ghost predicate Pointed(targets: seq<seq<Option<nat>>>, i: nat) {
    exists n, p :: 0 <= n < |targets| && 0 <= p < |targets[n]| && targets[n][p] == Some(i)
  }

  /** A locked package has a dependency line that fails this way. */
  ghost predicate Blamed(packages: seq<Package>, target: Cfgs.Target, manifest: (Package, Dependency) -> Option<Manifest>,
                         why: Trouble) {
    exists p, d :: p in packages && BlamedFor(packages, target, manifest, why, p, d)
  }

  ghost predicate BlamedFor(packages: seq<Package>, target: Cfgs.Target, manifest: (Package, Dependency) -> Option<Manifest>,
                            why: Trouble, p: Package, d: Dependency) {
    var chosen := Chosen(target, packages, p, d);
    if chosen.Err? then why == chosen.error
    else chosen.value.Some? && manifest(chosen.value.value, d).None? && why == NoManifest(Id(chosen.value.value))
  }

  lemma PointedStays(targets: seq<seq<Option<nat>>>, row: seq<Option<nat>>, entry: Option<nat>, i: nat)
    requires Pointed(targets + [row], i) || entry == Some(i)
    ensures Pointed(targets + [row + [entry]], i)
  {
    var after := targets + [row + [entry]];
    if Pointed(targets + [row], i) {
      var n, p :| 0 <= n < |targets + [row]| && 0 <= p < |(targets + [row])[n]| && (targets + [row])[n][p] == Some(i);
      assert after[n][p] == Some(i);
    } else {
      assert after[|targets|][|row|] == Some(i);
    }
  }

  lemma PointedAgain(targets: seq<seq<Option<nat>>>, i: nat)
    ensures Pointed(targets, i) ==> Pointed(targets + [[]], i)
  {
    if Pointed(targets, i) {
      var n, p :| 0 <= n < |targets| && 0 <= p < |targets[n]| && targets[n][p] == Some(i);
      assert (targets + [[]])[n][p] == Some(i);
    }
  }

  ghost predicate AllPointed(targets: seq<seq<Option<nat>>>, count: nat) {
    forall i :: 0 < i < count ==> Pointed(targets, i)
  }

  lemma AllPointedStays(targets: seq<seq<Option<nat>>>, row: seq<Option<nat>>, entry: Option<nat>, was: nat, now: nat)
    requires AllPointed(targets + [row], was)
    requires now == was || (now == was + 1 && entry == Some(was))
    ensures AllPointed(targets + [row + [entry]], now)
  {
    forall i: nat | 0 < i < now ensures Pointed(targets + [row + [entry]], i) { PointedStays(targets, row, entry, i); }
  }

  /** What the worklist ends with: the root first, each package once, a full
      row for each, and nothing that no dependency line is. */
  ghost predicate Collected(packages: seq<Package>, target: Cfgs.Target, first: Node,
                            nodes: seq<Node>, targets: seq<seq<Option<nat>>>) {
    && nodes != [] && nodes[0] == first
    && Complete(target, packages, nodes, targets)
    && (forall i, j :: 0 <= i < j < |nodes| ==> Id(nodes[i].package) != Id(nodes[j].package))
    && AllPointed(targets, |nodes|)
    && |nodes| <= |Ids(packages)|
  }

  /** The row of one node: what each of its dependency lines is, reading
      the packages not read yet. */
  method Row(packages: seq<Package>, target: Cfgs.Target, manifest: (Package, Dependency) -> Option<Manifest>, node: Node,
             before: seq<Node>, index: map<string, nat>, ghost targets: seq<seq<Option<nat>>>)
    returns (failure: Option<Trouble>, row: seq<Option<nat>>, nodes: seq<Node>, index': map<string, nat>)
    requires Sane(packages, before, index) && node.package in packages && AllPointed(targets, |before|)
    ensures failure.None? ==> before <= nodes && Sane(packages, nodes, index') && AllPointed(targets + [row], |nodes|)
    ensures failure.None? ==> |row| == |node.manifest.dependencies| && RightRow(target, packages, nodes, node, row)
    ensures failure.Some? ==> Blamed(packages, target, manifest, failure.value)
  {
    failure, row, nodes, index' := None, [], before, index;
    var dependencies := node.manifest.dependencies;
    forall i: nat | 0 < i < |nodes| ensures Pointed(targets + [row], i) { PointedAgain(targets, i); }
    for i := 0 to |dependencies|
      invariant |row| == i && before <= nodes && Sane(packages, nodes, index') && failure.None?
      invariant AllPointed(targets + [row], |nodes|)
      invariant RightRow(target, packages, nodes, node, row)
    {
      var chosen := Chosen(target, packages, node.package, dependencies[i]);
      if chosen.Err? {
        assert BlamedFor(packages, target, manifest, chosen.error, node.package, dependencies[i]);
        failure := Some(chosen.error);
        return;
      }
      ghost var was, line := nodes, row;
      if chosen.value.None? {
        row := row + [None];
        assert RightTarget(target, packages, nodes, node, dependencies[i], None);
      } else {
        var ok, position, nodes', next := Place(packages, manifest, chosen.value.value, dependencies[i], nodes, index');
        if !ok {
          failure := Some(NoManifest(Id(chosen.value.value)));
          assert BlamedFor(packages, target, manifest, failure.value, node.package, dependencies[i]);
          return;
        }
        nodes, index' := nodes', next;
        RightRowStays(target, packages, was, nodes, node, row);
        row := row + [Some(position)];
        assert RightTarget(target, packages, nodes, node, dependencies[i], Some(position));
      }
      AllPointedStays(targets, line, row[i], |was|, |nodes|);
      RightRowGrows(target, packages, nodes, node, line, row[i]);
      assert row == line + [row[i]];
    }
  }

  ghost predicate Rows(target: Cfgs.Target, packages: seq<Package>, nodes: seq<Node>, targets: seq<seq<Option<nat>>>) {
    && |targets| <= |nodes|
    && forall n :: 0 <= n < |targets| ==>
         |targets[n]| == |nodes[n].manifest.dependencies| && RightRow(target, packages, nodes, nodes[n], targets[n])
  }

  lemma RowsStay(target: Cfgs.Target, packages: seq<Package>, nodes: seq<Node>, nodes': seq<Node>,
                 targets: seq<seq<Option<nat>>>)
    requires nodes <= nodes' && Rows(target, packages, nodes, targets)
    ensures Rows(target, packages, nodes', targets)
  {
    forall n | 0 <= n < |targets| ensures RightRow(target, packages, nodes', nodes'[n], targets[n]) {
      RightRowStays(target, packages, nodes, nodes', nodes[n], targets[n]);
    }
  }

  /** Every package the root needs, each read once, and what each dependency
      line is. */
  method Collect(packages: seq<Package>, target: Cfgs.Target, root: Package, rootManifest: Manifest,
                 manifest: (Package, Dependency) -> Option<Manifest>)
    returns (result: Result<(seq<Node>, seq<seq<Option<nat>>>), Trouble>)
    requires root in packages
    ensures result.Ok? ==> Collected(packages, target, Node(root, rootManifest), result.value.0, result.value.1)
    ensures result.Ok? ==> Locked(ManifestsOf(result.value.0), result.value.1).Valid()
    ensures result.Err? ==> Blamed(packages, target, manifest, result.error)
  {
    var nodes := [Node(root, rootManifest)];
    var index: map<string, nat> := map[Id(root) := 0];
    var targets: seq<seq<Option<nat>>> := [];
    var at := 0;
    while at < |nodes|
      invariant at <= |nodes| && |targets| == at && |nodes| > 0 && nodes[0] == Node(root, rootManifest)
      invariant Sane(packages, nodes, index) && AllPointed(targets, |nodes|) && Rows(target, packages, nodes, targets)
      decreases |Ids(packages)| - at
    {
      NodesAreBounded(packages, nodes, index);
      var failure, row, nodes', index' := Row(packages, target, manifest, nodes[at], nodes, index, targets);
      if failure.Some? { return Err(failure.value); }
      RowsStay(target, packages, nodes, nodes', targets);
      nodes, index, targets := nodes', index', targets + [row];
      at := at + 1;
    }
    NodesAreBounded(packages, nodes, index);
    CompleteIsValid(target, packages, nodes, targets);
    return Ok((nodes, targets));
  }
}
