/** When a compiled unit is reused (kompilator/src/compile.rs, `compile`,
    `Built::changed`), against what compiling it again would give. */
module Caching {
  import opened Common
  import opened Records
  import opened Identities
  import Manifests
  import opened Features
  import opened Ordering

  // -------------------------------------------------------------- compiling

  /** What a compilation reads: a file, a variable, or the output kept under
      the identity of a unit below. */
  datatype Query = File(path: string) | Var(name: string) | Output(id: string)

  type History = seq<(Query, Option<string>)>

  datatype Action = Ask(query: Query) | Finish(output: string)

  /** A deterministic compiler that may decide what to read by what it read. */
  type Compiler = History -> Action

  /** The files that can be read and the variables that are set. */
  datatype World = World(files: map<string, string>, variables: map<string, string>)

  /** What is kept under one identity: the content it was compiled from, what
      the compilation read, and its output. */
  datatype Entry = Entry(content: Content, log: History, output: string)

  type Store = map<string, Entry>

  function Lookup(m: map<string, string>, key: string): Option<string> {
    if key in m then Some(m[key]) else None
  }

  function Answer(w: World, store: Store, q: Query): Option<string> {
    match q
    case File(path) => Lookup(w.files, path)
    case Var(name) => Lookup(w.variables, name)
    case Output(id) => KeptOutput(store, id)
  }

  function KeptOutput(store: Store, id: string): Option<string> {
    if id in store then Some(store[id].output) else None
  }

  /** Each output the log read is what is kept. */
  ghost predicate OutputsAsKept(store: Store, log: History) {
    forall i :: 0 <= i < |log| && log[i].0.Output? ==> log[i].1 == KeptOutput(store, log[i].0.id)
  }

  /** `log` is what the compiler reads, and `output` what it makes of it. */
  ghost predicate IsRun(c: Compiler, w: World, store: Store, log: History, output: string) {
    && (forall i :: 0 <= i < |log| ==> c(log[..i]) == Ask(log[i].0) && log[i].1 == Answer(w, store, log[i].0))
    && c(log) == Finish(output)
  }

  /** A compilation reads one thing after the other in one way only. */
  lemma {:induction false} OneRun(c: Compiler, w: World, store: Store, w': World, store': Store,
                                  log: History, output: string, log': History, output': string, k: nat)
    requires IsRun(c, w, store, log, output) && IsRun(c, w', store', log', output')
    requires forall i :: 0 <= i < |log| ==> Answer(w', store', log[i].0) == log[i].1
    requires k <= |log| && k <= |log'| && log[..k] == log'[..k]
    ensures log == log' && output == output'
    decreases |log| - k
  {
    assert k == |log| ==> log[..k] == log;
    assert k == |log'| ==> log'[..k] == log';
    assert k < |log| <==> c(log[..k]).Ask?;
    assert k < |log'| <==> c(log'[..k]).Ask?;
    if k < |log| {
      assert log[..k + 1] == log[..k] + [log[k]] && log'[..k + 1] == log'[..k] + [log'[k]];
      OneRun(c, w, store, w', store', log, output, log', output', k + 1);
    }
  }

  // ---------------------------------------------------------- the record

  const UNSET := "\0unset"

  /** The reads a record drops: files under `produced` and variables in `own`. */
  datatype Policy = Policy(produced: set<string>, own: set<string>)

  predicate Drops(policy: Policy, q: Query) {
    match q
    case File(path) => path in policy.produced
    case Var(name) => name in policy.own
    case Output(_) => false
  }

  /** No record keeps an output, or a file that could not be read. */
  predicate Kept(policy: Policy, q: Query, answer: Option<string>) {
    !Drops(policy, q) && !q.Output? && (q.File? ==> answer.Some?)
  }

  function Shown(answer: Option<string>): string {
    if answer.Some? then answer.value else UNSET
  }

  /** The files with their digests, as a record keeps them. */
  function KeptFiles(policy: Policy, digest: string -> string, log: History): (files: seq<(string, string)>)
    ensures forall x :: x in files <==>
      exists i :: 0 <= i < |log| && log[i].0.File? && Kept(policy, log[i].0, log[i].1)
                  && x == (digest(log[i].1.value), log[i].0.path)
  {
    if log == [] then []
    else
      var rest := KeptFiles(policy, digest, log[1..]);
      assert forall i :: 1 <= i < |log| ==> log[i] == log[1..][i - 1];
      assert forall i :: 0 <= i < |log[1..]| ==> log[1..][i] == log[i + 1];
      var (q, answer) := log[0];
      if q.File? && Kept(policy, q, answer) then [(digest(answer.value), q.path)] + rest else rest
  }

  function KeptVariables(policy: Policy, log: History): (env: seq<(string, string)>)
    ensures forall x :: x in env <==>
      exists i :: 0 <= i < |log| && log[i].0.Var? && Kept(policy, log[i].0, log[i].1)
                  && x == (log[i].0.name, Shown(log[i].1))
  {
    if log == [] then []
    else
      var rest := KeptVariables(policy, log[1..]);
      assert forall i :: 1 <= i < |log| ==> log[i] == log[1..][i - 1];
      assert forall i :: 0 <= i < |log[1..]| ==> log[1..][i] == log[i + 1];
      var (q, answer) := log[0];
      if q.Var? && Kept(policy, q, answer) then [(q.name, Shown(answer))] + rest else rest
  }

  datatype Difference = Changed(path: string) | Unreadable(path: string) | Variable(name: string)

  ghost predicate SameFile(w: World, digest: string -> string, file: (string, string)) {
    file.1 in w.files && digest(w.files[file.1]) == file.0
  }

  ghost predicate SameVariable(w: World, v: (string, string)) {
    Shown(Lookup(w.variables, v.0)) == v.1
  }

  /** Every recorded file and variable is what it was. */
  ghost predicate Unchanged(w: World, digest: string -> string, files: seq<(string, string)>, env: seq<(string, string)>) {
    && (forall x :: x in files ==> SameFile(w, digest, x))
    && (forall x :: x in env ==> SameVariable(w, x))
  }

  /** Compares the record with `w`, files before variables, and stops at the
      first difference. */
  method FirstChange(w: World, digest: string -> string, b: Built) returns (why: Option<Difference>)
    ensures why.None? <==> Unchanged(w, digest, b.files, b.env)
    ensures why.Some? && why.value.Variable? ==> forall x :: x in b.files ==> SameFile(w, digest, x)
    ensures why.Some? && why.value.Unreadable? ==> why.value.path !in w.files && exists x :: x in b.files && x.1 == why.value.path
    ensures why.Some? && why.value.Changed? ==>
      why.value.path in w.files && exists x :: x in b.files && x.1 == why.value.path && digest(w.files[x.1]) != x.0
  {
    for i := 0 to |b.files|
      invariant forall j :: 0 <= j < i ==> SameFile(w, digest, b.files[j])
    {
      var (was, path) := b.files[i];
      assert b.files[i] in b.files;
      if path !in w.files { return Some(Unreadable(path)); }
      if digest(w.files[path]) != was { return Some(Changed(path)); }
    }
    for i := 0 to |b.env|
      invariant forall j :: 0 <= j < i ==> SameVariable(w, b.env[j])
    {
      var (name, value) := b.env[i];
      assert b.env[i] in b.env;
      if Shown(Lookup(w.variables, name)) != value { return Some(Variable(name)); }
    }
    return None;
  }

  ghost predicate Distinguishes(digest: string -> string) {
    forall a, b :: digest(a) == digest(b) ==> a == b
  }

  /** No variable holds the marker of an unset one. */
  ghost predicate Unmarked(w: World) {
    forall name :: name in w.variables ==> w.variables[name] != UNSET
  }

  ghost predicate LogUnmarked(log: History) {
    forall i :: 0 <= i < |log| ==> log[i].1 != Some(UNSET) || !log[i].0.Var?
  }

  /** What was kept is answered as it was. */
  ghost predicate KeptAgree(policy: Policy, w: World, log: History) {
    forall i :: 0 <= i < |log| && Kept(policy, log[i].0, log[i].1) ==> Answer(w, map[], log[i].0) == log[i].1
  }

  /** The record shows no change exactly when every kept read is answered as
      it was. */
  lemma UnchangedIsKeptAgree(policy: Policy, digest: string -> string, w: World, log: History)
    requires Distinguishes(digest) && Unmarked(w) && LogUnmarked(log)
    ensures Unchanged(w, digest, KeptFiles(policy, digest, log), KeptVariables(policy, log)) <==> KeptAgree(policy, w, log)
  {
    var files, env := KeptFiles(policy, digest, log), KeptVariables(policy, log);
    if Unchanged(w, digest, files, env) {
      forall i | 0 <= i < |log| && Kept(policy, log[i].0, log[i].1) ensures Answer(w, map[], log[i].0) == log[i].1 {
        var (q, answer) := log[i];
        if q.File? {
          assert (digest(answer.value), q.path) in files;
          assert SameFile(w, digest, (digest(answer.value), q.path));
        } else {
          assert (q.name, Shown(answer)) in env;
          assert SameVariable(w, (q.name, Shown(answer)));
        }
      }
    }
    if KeptAgree(policy, w, log) {
      forall x | x in files ensures SameFile(w, digest, x) {
        var i :| 0 <= i < |log| && log[i].0.File? && Kept(policy, log[i].0, log[i].1)
                 && x == (digest(log[i].1.value), log[i].0.path);
      }
      forall x | x in env ensures SameVariable(w, x) {
        var i :| 0 <= i < |log| && log[i].0.Var? && Kept(policy, log[i].0, log[i].1) && x == (log[i].0.name, Shown(log[i].1));
      }
    }
  }

  /** The reads the record does not keep are answered as they were. */
  ghost predicate DroppedAgree(policy: Policy, w: World, store: Store, log: History) {
    forall i :: 0 <= i < |log| && !Kept(policy, log[i].0, log[i].1) ==> Answer(w, store, log[i].0) == log[i].1
  }

  // ------------------------------------------------------------ whole builds

  /** The compiler of each content, what the identity pins of the files, and
      what the record of a compilation drops, which its build script decides. */
  datatype Toolchain = Toolchain(
    hash: Content -> string,
    compiler: Content -> Compiler,
    pins: Local -> map<string, Option<string>>,
    policy: (Content, History) -> Policy)

  /** Whatever is read, a compilation ends. */
  ghost predicate Finishes(c: Compiler) {
    forall w, store :: Ends(c, w, store)
  }

  ghost predicate Ends(c: Compiler, w: World, store: Store) {
    exists log, output :: IsRun(c, w, store, log, output)
  }

  ghost function Compiled(t: Toolchain, w: World, store: Store, c: Content): (e: Entry)
    requires Ends(t.compiler(c), w, store)
    ensures e.content == c && IsRun(t.compiler(c), w, store, e.log, e.output)
  {
    var log, output :| IsRun(t.compiler(c), w, store, log, output);
    Entry(c, log, output)
  }

  /** The record kept of `c` shows no change. */
  ghost predicate Unmoved(t: Toolchain, w: World, store: Store, c: Content)
    requires t.hash(c) in store
  {
    KeptAgree(t.policy(c, store[t.hash(c)].log), w, store[t.hash(c)].log)
  }

  /** What is kept under the identity of `c` is reused when `c` is of a locked
      source or its record shows no change. */
  ghost predicate Reused(t: Toolchain, w: World, store: Store, c: Content) {
    t.hash(c) in store && (c.local.source.Some? || Unmoved(t, w, store, c))
  }

  /** What a compilation of `c` that read `log` writes: the files and variables
      for a path package only. `b` is the rest of it, for those that link it. */
  function RecordOf(t: Toolchain, digest: string -> string, c: Content, log: History, b: Built): Built {
    if c.local.source.Some? then b.(files := [], env := [])
    else b.(files := KeptFiles(t.policy(c, log), digest, log), env := KeptVariables(t.policy(c, log), log))
  }

  /** What the source asks of the text of a record: it is read, and it is of a
      locked source or nothing in it changed. */
  ghost predicate TextReused(w: World, digest: string -> string, present: set<string>, c: Content, text: string) {
    var r := ReadLines(present, NONE, Lines(text));
    r.Some? && (c.local.source.Some? || Unchanged(w, digest, r.value.files, r.value.env))
  }

  /** A unit is reused exactly when the text of its record, read back, says so:
      for a legible record whose library is there. */
  lemma ReusedAsRecorded(t: Toolchain, digest: string -> string, w: World, present: set<string>, store: Store, c: Content, b: Built)
    requires Distinguishes(digest) && Unmarked(w)
    requires t.hash(c) in store && LogUnmarked(store[t.hash(c)].log)
    requires var record := RecordOf(t, digest, c, store[t.hash(c)].log, b);
      Legible(record) && Trimmed(record) == record && (record.lib.Some? ==> record.lib.value.1 in present)
    ensures TextReused(w, digest, present, c, Text(Rows(RecordOf(t, digest, c, store[t.hash(c)].log, b)))) <==> Reused(t, w, store, c)
  {
    var log := store[t.hash(c)].log;
    ReadUndoesWrite(present, RecordOf(t, digest, c, log, b));
    UnchangedIsKeptAgree(t.policy(c, log), digest, w, log);
  }

  /** One unit: reuse what is kept, or compile it. */
  ghost function BuildUnit(t: Toolchain, w: World, store: Store, c: Content): Store
    requires Finishes(t.compiler(c))
  {
    if Reused(t, w, store, c) then store
    else
      assert Ends(t.compiler(c), w, store);
      store[t.hash(c) := Compiled(t, w, store, c)]
  }

  ghost predicate Terminates(t: Toolchain, cs: seq<Content>) {
    forall c :: c in cs ==> Finishes(t.compiler(c))
  }

  ghost function BuildAll(t: Toolchain, w: World, store: Store, cs: seq<Content>): Store
    requires Terminates(t, cs)
    decreases |cs|
  {
    if cs == [] then store
    else
      assert cs[|cs| - 1] in cs && forall c :: c in cs[..|cs| - 1] ==> c in cs;
      BuildUnit(t, w, BuildAll(t, w, store, cs[..|cs| - 1]), cs[|cs| - 1])
  }

  /** The store the unit at `k` of a build meets. */
  ghost function Before(t: Toolchain, w: World, store: Store, cs: seq<Content>, k: nat): Store
    requires Terminates(t, cs) && k <= |cs|
  {
    assert forall c :: c in cs[..k] ==> c in cs;
    BuildAll(t, w, store, cs[..k])
  }

  // ------------------------------------------------------- the conditions

  /** A compilation that reads only files its identity pins, and outputs of
      units below. What the build sets itself for the compiler, like the
      package's version, follows from the content and is not a read. */
  ghost predicate Contained(t: Toolchain, c: Content) {
    forall log, q :: t.compiler(c)(log) == Ask(q) ==> q.Output? || (q.File? && q.path in t.pins(c.local))
  }

  ghost predicate NameIn(t: Toolchain, S: iset<Content>, id: string) {
    exists b :: b in S && t.hash(b) == id
  }

  /** All of `S` are contained and ask for outputs of `S` only. */
  ghost predicate Held(t: Toolchain, S: iset<Content>) {
    forall c :: c in S ==>
      Contained(t, c) && forall log, id :: t.compiler(c)(log) == Ask(Output(id)) ==> NameIn(t, S, id)
  }

  /** The identity pins all that decides the output, down to the bottom. */
  ghost predicate Pinned(t: Toolchain, c: Content) {
    exists S: iset<Content> :: c in S && Held(t, S)
  }

  ghost predicate PinnedName(t: Toolchain, id: string) {
    exists b :: Pinned(t, b) && t.hash(b) == id
  }

  ghost predicate AsksPinned(t: Toolchain, c: Content) {
    forall log, id :: t.compiler(c)(log) == Ask(Output(id)) ==> PinnedName(t, id)
  }

  /** A path package that reads nothing its record drops but outputs, those of
      pinned units. */
  ghost predicate Watched(t: Toolchain, c: Content) {
    c.local.source.None? && Open(t, c) && AsksPinned(t, c)
  }

  ghost predicate Open(t: Toolchain, c: Content) {
    forall log: History, i :: 0 <= i < |log| && t.compiler(c)(log[..i]) == Ask(log[i].0) ==> !Drops(t.policy(c, log), log[i].0)
  }

  /** Every file a compilation in `w` reads can be read. */
  ghost predicate Readable(t: Toolchain, w: World, c: Content) {
    forall store, log: History, output :: IsRun(t.compiler(c), w, store, log, output) ==>
      forall i :: 0 <= i < |log| && log[i].0.File? ==> log[i].1.Some?
  }

  /** The files a content pins are what it says. */
  ghost predicate Fits(t: Toolchain, w: World, c: Content) {
    forall path :: path in t.pins(c.local) ==> Lookup(w.files, path) == t.pins(c.local)[path]
  }

  ghost function Names(t: Toolchain, cs: seq<Content>): set<string> {
    set c | c in cs :: t.hash(c)
  }

  /** Each content once, after every content whose output it may ask for. */
  ghost predicate Ordered(t: Toolchain, cs: seq<Content>) {
    && (forall i, j :: 0 <= i < j < |cs| ==> cs[i] != cs[j])
    && (forall k, log, id :: 0 <= k < |cs| && t.compiler(cs[k])(log) == Ask(Output(id)) ==> id in Names(t, cs[..k]))
  }

  /** A build of `cs` in `w`: no compilation fails, and what an identity pins
      is what the build sees. Nothing is said of what the others read. */
  ghost predicate IsBuild(t: Toolchain, w: World, cs: seq<Content>) {
    && Ordered(t, cs)
    && Terminates(t, cs)
    && (forall k :: 0 <= k < |cs| && Pinned(t, cs[k]) ==> Fits(t, w, cs[k]))
  }

  lemma PinnedAsks(t: Toolchain, c: Content)
    requires Pinned(t, c)
    ensures Contained(t, c) && AsksPinned(t, c)
  {
    var S: iset<Content> :| c in S && Held(t, S);
    forall log, id | t.compiler(c)(log) == Ask(Output(id)) ensures PinnedName(t, id) {
      assert NameIn(t, S, id);
      var b :| b in S && t.hash(b) == id;
      assert Pinned(t, b);
    }
  }

  // -------------------------------------------------------- the invariant

  ghost predicate OutputIs(store: Store, id: string, answer: Option<string>) {
    id in store && answer == Some(store[id].output)
  }

  /** What is kept under `id` is a log its compiler may leave. */
  ghost predicate LoggedAt(t: Toolchain, store: Store, id: string)
    requires id in store
  {
    var e := store[id];
    && t.hash(e.content) == id
    && t.compiler(e.content)(e.log) == Finish(e.output)
    && (forall i :: 0 <= i < |e.log| ==> t.compiler(e.content)(e.log[..i]) == Ask(e.log[i].0))
  }

  ghost predicate Logged(t: Toolchain, store: Store) {
    forall id :: id in store ==> LoggedAt(t, store, id)
  }

  /** Pinned files were what the identity says, and outputs of pinned units
      what is kept now. */
  ghost predicate Faithful(t: Toolchain, store: Store, id: string)
    requires id in store
  {
    var e := store[id];
    && LoggedAt(t, store, id)
    && (Pinned(t, e.content) ==> forall i :: 0 <= i < |e.log| && e.log[i].0.File? ==>
          e.log[i].0.path in t.pins(e.content.local) && e.log[i].1 == t.pins(e.content.local)[e.log[i].0.path])
    && (AsksPinned(t, e.content) ==>
          forall i :: 0 <= i < |e.log| && e.log[i].0.Output? ==> OutputIs(store, e.log[i].0.id, e.log[i].1))
  }

  ghost predicate Consistent(t: Toolchain, store: Store) {
    forall id :: id in store ==> Faithful(t, store, id)
  }

  /** What is kept of `c` is what compiling it now reads and gives. */
  ghost predicate ReplaysNow(t: Toolchain, w: World, store: Store, c: Content)
    requires t.hash(c) in store
  {
    IsRun(t.compiler(c), w, store, store[t.hash(c)].log, store[t.hash(c)].output)
  }

  /** Compiling `c` again now gives what is kept. */
  ghost predicate Fresh(t: Toolchain, w: World, store: Store, c: Content) {
    t.hash(c) in store && exists log :: IsRun(t.compiler(c), w, store, log, store[t.hash(c)].output)
  }

  /** What is kept of pinned units stays. */
  ghost predicate Keeps(t: Toolchain, store: Store, store': Store) {
    forall id :: id in store && Pinned(t, store[id].content) ==> id in store' && store'[id] == store[id]
  }

  ghost predicate Recorded(policy: Policy, log: History) {
    forall i :: 0 <= i < |log| && !log[i].0.Output? ==> Kept(policy, log[i].0, log[i].1)
  }

  /** The record of `c`, if there is one, dropped nothing but outputs. */
  ghost predicate RecordIsFull(t: Toolchain, store: Store, c: Content) {
    t.hash(c) in store ==> Recorded(t.policy(c, store[t.hash(c)].log), store[t.hash(c)].log)
  }

  lemma ContentOfName(t: Toolchain, store: Store, c: Content)
    requires Injective(t.hash) && t.hash(c) in store && LoggedAt(t, store, t.hash(c))
    ensures store[t.hash(c)].content == c
  {
  }

  lemma FaithfulStays(t: Toolchain, store: Store, store': Store, id: string)
    requires Injective(t.hash) && Consistent(t, store) && id in store && id in store' && store[id] == store'[id]
    requires Keeps(t, store, store')
    ensures Faithful(t, store', id)
  {
    var e := store[id];
    assert Faithful(t, store, id);
    if AsksPinned(t, e.content) {
      forall i | 0 <= i < |e.log| && e.log[i].0.Output? ensures OutputIs(store', e.log[i].0.id, e.log[i].1) {
        assert t.compiler(e.content)(e.log[..i]) == Ask(Output(e.log[i].0.id));
        PinnedNameIsKept(t, store, store', e.log[i].0.id);
      }
    }
  }

  lemma PinnedNameIsKept(t: Toolchain, store: Store, store': Store, id: string)
    requires Injective(t.hash) && Consistent(t, store) && PinnedName(t, id) && Keeps(t, store, store')
    ensures id in store ==> Pinned(t, store[id].content) && id in store' && store'[id] == store[id]
  {
    if id in store {
      assert Faithful(t, store, id);
      var b :| Pinned(t, b) && t.hash(b) == id;
      assert store[id].content == b;
    }
  }

  /** The record of a pinned unit never shows a change. */
  lemma PinnedIsUnchanged(t: Toolchain, w: World, store: Store, c: Content)
    requires Injective(t.hash) && t.hash(c) in store && Faithful(t, store, t.hash(c))
    requires Pinned(t, c) && Fits(t, w, c)
    ensures Unmoved(t, w, store, c)
  {
    var e := store[t.hash(c)];
    PinnedAsks(t, c);
    forall i | 0 <= i < |e.log| && Kept(t.policy(c, e.log), e.log[i].0, e.log[i].1) ensures Answer(w, map[], e.log[i].0) == e.log[i].1 {
      assert t.compiler(c)(e.log[..i]) == Ask(e.log[i].0);
    }
  }

  /** A kept log replays: the files a pinned unit read fit, a full record
      shows no change, and outputs of pinned units are what they were. */
  lemma Replays(t: Toolchain, w: World, store: Store, c: Content)
    requires Injective(t.hash) && t.hash(c) in store && Faithful(t, store, t.hash(c)) && AsksPinned(t, c)
    requires (Pinned(t, c) && Fits(t, w, c)) ||
      (RecordIsFull(t, store, c) && Unmoved(t, w, store, c))
    ensures ReplaysNow(t, w, store, c)
  {
    var e := store[t.hash(c)];
    if Pinned(t, c) { PinnedAsks(t, c); }
    forall i | 0 <= i < |e.log| ensures e.log[i].1 == Answer(w, store, e.log[i].0) {
      assert t.compiler(c)(e.log[..i]) == Ask(e.log[i].0);
      if !e.log[i].0.Output? && !(Pinned(t, c) && Fits(t, w, c)) {
        assert Kept(t.policy(c, e.log), e.log[i].0, e.log[i].1);
        assert Answer(w, map[], e.log[i].0) == e.log[i].1;
      }
    }
  }

  /** What a compilation asks of the store is there, under other names. */
  ghost predicate Supplied(t: Toolchain, store: Store, c: Content) {
    forall log, id :: t.compiler(c)(log) == Ask(Output(id)) ==> id in store && id != t.hash(c)
  }

  ghost predicate Compilable(t: Toolchain, w: World, store: Store, c: Content) {
    && Injective(t.hash) && Consistent(t, store) && Finishes(t.compiler(c)) && Supplied(t, store, c)
    && (Pinned(t, c) ==> Fits(t, w, c))
  }

  lemma NewKeeps(t: Toolchain, w: World, store: Store, c: Content)
    requires Compilable(t, w, store, c) && !Reused(t, w, store, c) && Ends(t.compiler(c), w, store)
    ensures Keeps(t, store, store[t.hash(c) := Compiled(t, w, store, c)])
  {
    if t.hash(c) in store {
      assert Faithful(t, store, t.hash(c));
      ContentOfName(t, store, c);
      if Pinned(t, c) { PinnedIsUnchanged(t, w, store, c); }
    }
  }

  lemma NewIsFaithful(t: Toolchain, w: World, store: Store, c: Content)
    requires Compilable(t, w, store, c) && Ends(t.compiler(c), w, store)
    ensures var store' := store[t.hash(c) := Compiled(t, w, store, c)];
      Faithful(t, store', t.hash(c))
  {
    var e := Compiled(t, w, store, c);
    var store' := store[t.hash(c) := e];
    if Pinned(t, c) { PinnedAsks(t, c); }
    forall i | 0 <= i < |e.log| && e.log[i].0.Output? ensures OutputIs(store', e.log[i].0.id, e.log[i].1) {
      assert t.compiler(c)(e.log[..i]) == Ask(e.log[i].0);
    }
  }

  /** Building a unit keeps the store consistent, whatever the unit reads. */
  lemma BuildUnitIsConsistent(t: Toolchain, w: World, store: Store, c: Content)
    requires Compilable(t, w, store, c)
    ensures var store' := BuildUnit(t, w, store, c);
      Keeps(t, store, store') && Consistent(t, store') && store'.Keys == store.Keys + {t.hash(c)}
  {
    if !Reused(t, w, store, c) {
      assert Ends(t.compiler(c), w, store);
      NewKeeps(t, w, store, c);
      NewIsFaithful(t, w, store, c);
      var store' := BuildUnit(t, w, store, c);
      forall id | id in store' ensures Faithful(t, store', id) {
        if id != t.hash(c) { FaithfulStays(t, store, store', id); }
      }
    }
  }

  // -------------------------------------------------------------- theorems

  lemma PrefixIsBuild(t: Toolchain, w: World, cs: seq<Content>, k: nat)
    requires IsBuild(t, w, cs) && k <= |cs|
    ensures IsBuild(t, w, cs[..k])
  {
    var before := cs[..k];
    assert forall c :: c in before ==> c in cs;
    forall i | 0 <= i < |before| ensures before[..i] == cs[..i] && before[i] == cs[i] {}
  }

  lemma LastIsCompilable(t: Toolchain, w: World, store: Store, cs: seq<Content>)
    requires Injective(t.hash) && IsBuild(t, w, cs) && cs != []
    requires Consistent(t, store) && Names(t, cs[..|cs| - 1]) <= store.Keys
    ensures Compilable(t, w, store, cs[|cs| - 1])
  {
    var n := |cs| - 1;
    forall log, id | t.compiler(cs[n])(log) == Ask(Output(id)) ensures id in store && id != t.hash(cs[n]) {
      assert id in Names(t, cs[..n]);
      var b :| b in cs[..n] && t.hash(b) == id;
      var j :| 0 <= j < n && cs[..n][j] == b;
      assert cs[j] != cs[n];
    }
  }

  /** A build leaves a consistent store that holds all it built. */
  lemma {:induction false} BuildIsConsistent(t: Toolchain, w: World, store: Store, cs: seq<Content>)
    requires Injective(t.hash) && Consistent(t, store) && IsBuild(t, w, cs)
    ensures var store' := BuildAll(t, w, store, cs);
      Consistent(t, store') && Keeps(t, store, store') && Names(t, cs) <= store'.Keys
    decreases |cs|
  {
    if cs != [] {
      var n := |cs| - 1;
      PrefixIsBuild(t, w, cs, n);
      BuildIsConsistent(t, w, store, cs[..n]);
      var mid := BuildAll(t, w, store, cs[..n]);
      LastIsCompilable(t, w, mid, cs);
      BuildUnitIsConsistent(t, w, mid, cs[n]);
      assert cs == cs[..n] + [cs[n]];
    }
  }

  /** Building `c` never drops a read of it, when it is open and what it reads
      can be read. */
  lemma {:induction false} BuildKeepsRecord(t: Toolchain, w: World, store: Store, cs: seq<Content>, c: Content)
    requires Injective(t.hash) && Terminates(t, cs)
    requires Open(t, c) && (c in cs ==> Readable(t, w, c)) && RecordIsFull(t, store, c)
    ensures RecordIsFull(t, BuildAll(t, w, store, cs), c)
    decreases |cs|
  {
    if cs != [] {
      var n := |cs| - 1;
      BuildKeepsRecord(t, w, store, cs[..n], c);
      var mid := BuildAll(t, w, store, cs[..n]);
      if cs[n] == c && !Reused(t, w, mid, c) {
        assert Ends(t.compiler(c), w, mid);
        CompiledRecord(t, w, mid, c);
      }
    }
  }

  lemma CompiledRecord(t: Toolchain, w: World, store: Store, c: Content)
    requires Open(t, c) && Readable(t, w, c) && Ends(t.compiler(c), w, store)
    ensures var e := Compiled(t, w, store, c); Recorded(t.policy(c, e.log), e.log)
  {
    var e := Compiled(t, w, store, c);
    forall i | 0 <= i < |e.log| && !e.log[i].0.Output? ensures Kept(t.policy(c, e.log), e.log[i].0, e.log[i].1) {
      assert t.compiler(c)(e.log[..i]) == Ask(e.log[i].0);
    }
  }

  /** One build of a run: the files and variables it sees, and what it builds. */
  datatype Step = Step(w: World, cs: seq<Content>)

  ghost predicate IsHistory(t: Toolchain, steps: seq<Step>) {
    forall i :: 0 <= i < |steps| ==> IsBuild(t, steps[i].w, steps[i].cs)
  }

  /** What is kept after builds and edits between them, from nothing. */
  ghost function After(t: Toolchain, steps: seq<Step>): Store
    requires IsHistory(t, steps)
    decreases |steps|
  {
    if steps == [] then map[]
    else
      var last := steps[|steps| - 1];
      assert Terminates(t, last.cs);
      BuildAll(t, last.w, After(t, steps[..|steps| - 1]), last.cs)
  }

  lemma {:induction false} AfterIsConsistent(t: Toolchain, steps: seq<Step>)
    requires Injective(t.hash) && IsHistory(t, steps)
    ensures Consistent(t, After(t, steps))
    decreases |steps|
  {
    if steps != [] {
      var last := steps[|steps| - 1];
      AfterIsConsistent(t, steps[..|steps| - 1]);
      BuildIsConsistent(t, last.w, After(t, steps[..|steps| - 1]), last.cs);
    }
  }

  /** Whenever `c` was built, it could read the files it reads. */
  ghost predicate AlwaysReadable(t: Toolchain, steps: seq<Step>, c: Content) {
    forall i :: 0 <= i < |steps| && c in steps[i].cs ==> Readable(t, steps[i].w, c)
  }

  lemma {:induction false} AfterHoldsFullRecords(t: Toolchain, steps: seq<Step>, c: Content)
    requires Injective(t.hash) && IsHistory(t, steps) && Open(t, c) && AlwaysReadable(t, steps, c)
    ensures RecordIsFull(t, After(t, steps), c)
    decreases |steps|
  {
    if steps != [] {
      var last := steps[|steps| - 1];
      AfterHoldsFullRecords(t, steps[..|steps| - 1], c);
      assert Terminates(t, last.cs);
      BuildKeepsRecord(t, last.w, After(t, steps[..|steps| - 1]), last.cs, c);
    }
  }

  /** A unit whose reads the cache follows: its identity pins them all, or it
      is a path package whose record holds them all but outputs of such units. */
  ghost predicate Followed(t: Toolchain, steps: seq<Step>, c: Content) {
    Pinned(t, c) || (Watched(t, c) && AlwaysReadable(t, steps, c))
  }

  // ---------------------------------------------------- one unit of a build

  lemma {:induction false} BuildKeepsOthers(t: Toolchain, w: World, store: Store, cs: seq<Content>, k: nat, id: string)
    requires k <= |cs| && Terminates(t, cs) && forall i :: k <= i < |cs| ==> t.hash(cs[i]) != id
    ensures var before, after := Before(t, w, store, cs, k), BuildAll(t, w, store, cs);
      (id in before <==> id in after) && (id in before ==> after[id] == before[id])
    decreases |cs|
  {
    if k == |cs| {
      assert cs[..k] == cs;
    } else {
      var n := |cs| - 1;
      assert cs[..n][..k] == cs[..k] && forall c :: c in cs[..n] ==> c in cs;
      BuildKeepsOthers(t, w, store, cs[..n], k, id);
    }
  }

  lemma {:induction false} BuildAddsNames(t: Toolchain, w: World, store: Store, cs: seq<Content>)
    requires Terminates(t, cs)
    ensures BuildAll(t, w, store, cs).Keys == store.Keys + Names(t, cs)
    decreases |cs|
  {
    if cs != [] {
      var n := |cs| - 1;
      assert cs == cs[..n] + [cs[n]];
      BuildAddsNames(t, w, store, cs[..n]);
    }
  }

  /** What a unit may ask for does not change after it. */
  lemma EarlierStays(t: Toolchain, w: World, store: Store, cs: seq<Content>, k: nat, id: string)
    requires Injective(t.hash) && Ordered(t, cs) && Terminates(t, cs) && k <= |cs| && id in Names(t, cs[..k])
    ensures KeptOutput(Before(t, w, store, cs, k), id) == KeptOutput(BuildAll(t, w, store, cs), id)
  {
    var b :| b in cs[..k] && t.hash(b) == id;
    var j :| 0 <= j < k && cs[..k][j] == b;
    forall i | k <= i < |cs| ensures t.hash(cs[i]) != id {
      assert cs[j] != cs[i];
    }
    BuildKeepsOthers(t, w, store, cs, k, id);
  }

  /** The names a run asks for. */
  ghost predicate AsksOnly(log: History, names: iset<string>) {
    forall i :: 0 <= i < |log| && log[i].0.Output? ==> log[i].0.id in names
  }

  /** A run is one in every store that keeps the outputs it asks for. */
  lemma RunMoves(c: Compiler, w: World, store: Store, store': Store, log: History, output: string, names: iset<string>)
    requires IsRun(c, w, store, log, output) && AsksOnly(log, names)
    requires forall id :: id in names ==> KeptOutput(store, id) == KeptOutput(store', id)
    ensures IsRun(c, w, store', log, output)
  {
  }

  lemma RunStays(t: Toolchain, w: World, store: Store, cs: seq<Content>, k: nat, log: History, output: string)
    requires Injective(t.hash) && Ordered(t, cs) && Terminates(t, cs) && k < |cs|
    ensures IsRun(t.compiler(cs[k]), w, Before(t, w, store, cs, k), log, output) <==>
      IsRun(t.compiler(cs[k]), w, BuildAll(t, w, store, cs), log, output)
  {
    var before, after := Before(t, w, store, cs, k), BuildAll(t, w, store, cs);
    var names := iset id | id in Names(t, cs[..k]);
    forall id | id in names ensures KeptOutput(before, id) == KeptOutput(after, id) {
      EarlierStays(t, w, store, cs, k, id);
    }
    if forall i :: 0 <= i < |log| ==> t.compiler(cs[k])(log[..i]) == Ask(log[i].0) {
      forall i | 0 <= i < |log| && log[i].0.Output? ensures log[i].0.id in names {
        assert t.compiler(cs[k])(log[..i]) == Ask(Output(log[i].0.id));
      }
      if IsRun(t.compiler(cs[k]), w, before, log, output) {
        RunMoves(t.compiler(cs[k]), w, before, after, log, output, names);
      }
      if IsRun(t.compiler(cs[k]), w, after, log, output) {
        RunMoves(t.compiler(cs[k]), w, after, before, log, output, names);
      }
    }
  }

  /** What a build leaves of a unit: if it was reused, what was kept, and else
      what replays. */
  lemma UnitOfBuild(t: Toolchain, w: World, store: Store, cs: seq<Content>, k: nat)
    requires Injective(t.hash) && Ordered(t, cs) && Terminates(t, cs) && k < |cs|
    ensures var before, after := Before(t, w, store, cs, k), BuildAll(t, w, store, cs); var id := t.hash(cs[k]);
      && id in after
      && (Reused(t, w, before, cs[k]) ==>
            && after[id] == before[id]
            && (ReplaysNow(t, w, before, cs[k]) <==> ReplaysNow(t, w, after, cs[k]))
            && (Fresh(t, w, before, cs[k]) <==> Fresh(t, w, after, cs[k])))
      && (!Reused(t, w, before, cs[k]) ==> ReplaysNow(t, w, after, cs[k]))
  {
    var before, after := Before(t, w, store, cs, k), BuildAll(t, w, store, cs);
    EntryOfUnit(t, w, store, cs, k);
    if Reused(t, w, before, cs[k]) {
      forall log ensures IsRun(t.compiler(cs[k]), w, before, log, before[t.hash(cs[k])].output) <==>
                         IsRun(t.compiler(cs[k]), w, after, log, after[t.hash(cs[k])].output)
      {
        RunStays(t, w, store, cs, k, log, before[t.hash(cs[k])].output);
      }
    } else {
      RunStays(t, w, store, cs, k, after[t.hash(cs[k])].log, after[t.hash(cs[k])].output);
    }
  }

  lemma LastUnit(t: Toolchain, w: World, store: Store, cs: seq<Content>)
    requires cs != [] && Terminates(t, cs)
    ensures Finishes(t.compiler(cs[|cs| - 1])) && Terminates(t, cs[..|cs| - 1])
    ensures BuildAll(t, w, store, cs) == BuildUnit(t, w, BuildAll(t, w, store, cs[..|cs| - 1]), cs[|cs| - 1])
  {
    assert cs[|cs| - 1] in cs;
  }

  lemma EntryOfUnit(t: Toolchain, w: World, store: Store, cs: seq<Content>, k: nat)
    requires Injective(t.hash) && Ordered(t, cs) && Terminates(t, cs) && k < |cs| && Finishes(t.compiler(cs[k]))
    ensures var before, after := Before(t, w, store, cs, k), BuildAll(t, w, store, cs); var id := t.hash(cs[k]);
      && id in after && after[id] == BuildUnit(t, w, before, cs[k])[id]
  {
    var next := cs[..k + 1];
    assert forall b :: b in next ==> b in cs;
    assert |next| == k + 1 && next[..k] == cs[..k] && next[k] == cs[k];
    LastUnit(t, w, store, next);
    forall i | k + 1 <= i < |cs| ensures t.hash(cs[i]) != t.hash(cs[k]) {
      assert cs[k] != cs[i];
    }
    BuildKeepsOthers(t, w, store, cs, k + 1, t.hash(cs[k]));
  }

  /** A build from nothing reuses nothing, so all it leaves replays. */
  lemma CleanReplays(t: Toolchain, w: World, cs: seq<Content>, k: nat)
    requires Injective(t.hash) && Ordered(t, cs) && Terminates(t, cs) && k < |cs|
    ensures t.hash(cs[k]) in BuildAll(t, w, map[], cs) && ReplaysNow(t, w, BuildAll(t, w, map[], cs), cs[k])
  {
    assert forall c :: c in cs[..k] ==> c in cs;
    BuildAddsNames(t, w, map[], cs[..k]);
    forall b | b in cs[..k] ensures t.hash(b) != t.hash(cs[k]) {
      var j :| 0 <= j < k && cs[..k][j] == b;
      assert cs[j] != cs[k];
    }
    UnitOfBuild(t, w, map[], cs, k);
  }

  lemma {:induction false} BuildIsLogged(t: Toolchain, w: World, store: Store, cs: seq<Content>)
    requires Logged(t, store) && Terminates(t, cs)
    ensures Logged(t, BuildAll(t, w, store, cs))
    decreases |cs|
  {
    if cs != [] {
      var n := |cs| - 1;
      assert forall c :: c in cs[..n] ==> c in cs;
      BuildIsLogged(t, w, store, cs[..n]);
      var mid, after := BuildAll(t, w, store, cs[..n]), BuildAll(t, w, store, cs);
      forall id | id in after ensures LoggedAt(t, after, id) {
        assert id in mid && after[id] == mid[id] ==> LoggedAt(t, mid, id);
      }
    }
  }

  /** Whether what is kept of `c` replays: its record shows no change and the
      reads it drops are answered as they were, which for a full record are the
      outputs; and then compiling gives nothing else. */
  ghost predicate ReplaysIff(t: Toolchain, w: World, store: Store, c: Content)
    requires t.hash(c) in store
  {
    var e := store[t.hash(c)];
    && (ReplaysNow(t, w, store, c) <==> Unmoved(t, w, store, c) && DroppedAgree(t.policy(c, e.log), w, store, e.log))
    && (RecordIsFull(t, store, c) ==> (ReplaysNow(t, w, store, c) <==> Unmoved(t, w, store, c) && OutputsAsKept(store, e.log)))
    && (ReplaysNow(t, w, store, c) ==>
          forall log, output :: IsRun(t.compiler(c), w, store, log, output) ==> log == e.log && output == e.output)
  }

  lemma LogReplaysIff(t: Toolchain, w: World, store: Store, c: Content)
    requires Injective(t.hash) && t.hash(c) in store && LoggedAt(t, store, t.hash(c))
    ensures ReplaysIff(t, w, store, c)
  {
    var e := store[t.hash(c)];
    var policy := t.policy(c, e.log);
    if Unmoved(t, w, store, c) {
      forall i | 0 <= i < |e.log| && Kept(policy, e.log[i].0, e.log[i].1) ensures Answer(w, store, e.log[i].0) == e.log[i].1 {
        assert Answer(w, map[], e.log[i].0) == e.log[i].1;
      }
    }
    if ReplaysNow(t, w, store, c) {
      forall log, output | IsRun(t.compiler(c), w, store, log, output) ensures log == e.log && output == e.output {
        assert e.log[..0] == log[..0];
        OneRun(t.compiler(c), w, store, w, store, e.log, e.output, log, output, 0);
      }
    }
  }

  /** The test of one reuse, in the store the unit meets: which reads decide
      whether what is kept replays. Nothing built later changes the answer. */
  lemma ReusedReplaysIff(t: Toolchain, w: World, store: Store, cs: seq<Content>, k: nat)
    requires Injective(t.hash) && Logged(t, store) && Ordered(t, cs) && Terminates(t, cs) && k < |cs|
    requires Reused(t, w, Before(t, w, store, cs, k), cs[k])
    ensures ReplaysIff(t, w, Before(t, w, store, cs, k), cs[k])
    ensures var after := BuildAll(t, w, store, cs);
      && t.hash(cs[k]) in after && after[t.hash(cs[k])] == Before(t, w, store, cs, k)[t.hash(cs[k])]
      && (ReplaysNow(t, w, after, cs[k]) <==> ReplaysNow(t, w, Before(t, w, store, cs, k), cs[k]))
  {
    assert forall c :: c in cs[..k] ==> c in cs;
    BuildIsLogged(t, w, store, cs[..k]);
    LogReplaysIff(t, w, Before(t, w, store, cs, k), cs[k]);
    UnitOfBuild(t, w, store, cs, k);
  }

  // ----------------------------------------- when a build is as from nothing

  /** `D` holds whatever its units may ask for. */
  ghost predicate ClosedBelow(t: Toolchain, D: iset<Content>) {
    forall c, b, log :: c in D && t.compiler(c)(log) == Ask(Output(t.hash(b))) ==> b in D
  }

  ghost predicate SameOutput(a: Store, b: Store, id: string) {
    id in a && id in b && a[id].output == b[id].output
  }

  ghost predicate SameEntry(a: Store, b: Store, id: string) {
    id in a && id in b && a[id] == b[id]
  }

  /** The outputs of the units of `D` before `k` are the same in both stores. */
  ghost predicate SameBelow(t: Toolchain, cs: seq<Content>, D: iset<Content>, k: nat, a: Store, b: Store)
    requires k <= |cs|
  {
    forall j :: 0 <= j < k && cs[j] in D ==> SameOutput(a, b, t.hash(cs[j]))
  }

  /** A run of a unit of `D` is one in each of the stores. */
  lemma RunIsShared(t: Toolchain, w: World, cs: seq<Content>, D: iset<Content>, k: nat, a: Store, b: Store,
                    log: History, output: string)
    requires Ordered(t, cs) && ClosedBelow(t, D) && k < |cs| && cs[k] in D && SameBelow(t, cs, D, k, a, b)
    requires IsRun(t.compiler(cs[k]), w, a, log, output)
    ensures IsRun(t.compiler(cs[k]), w, b, log, output)
  {
    var names := iset id | KeptOutput(a, id) == KeptOutput(b, id);
    forall i | 0 <= i < |log| && log[i].0.Output? ensures log[i].0.id in names {
      var id := log[i].0.id;
      assert t.compiler(cs[k])(log[..i]) == Ask(Output(id));
      assert id in Names(t, cs[..k]);
      var c :| c in cs[..k] && t.hash(c) == id;
      var j :| 0 <= j < k && cs[..k][j] == c;
      assert SameOutput(a, b, t.hash(cs[j]));
    }
    RunMoves(t.compiler(cs[k]), w, a, b, log, output, names);
  }

  /** Compiling the unit at `k` again, if it is reused, gives what is kept. */
  ghost predicate FreshAt(t: Toolchain, w: World, store: Store, cs: seq<Content>, k: nat)
    requires Terminates(t, cs) && k < |cs|
  {
    var before := Before(t, w, store, cs, k);
    Reused(t, w, before, cs[k]) ==> Fresh(t, w, before, cs[k])
  }

  /** The unit at `k`, if it is reused, replays. */
  ghost predicate StandsAt(t: Toolchain, w: World, store: Store, cs: seq<Content>, k: nat)
    requires Terminates(t, cs) && k < |cs|
  {
    var before := Before(t, w, store, cs, k);
    Reused(t, w, before, cs[k]) ==> ReplaysNow(t, w, before, cs[k])
  }

  lemma {:induction false} FreshIsClean(t: Toolchain, w: World, store: Store, cs: seq<Content>, D: iset<Content>, k: nat)
    requires Injective(t.hash) && Ordered(t, cs) && Terminates(t, cs) && ClosedBelow(t, D) && k < |cs| && cs[k] in D
    requires forall j :: 0 <= j <= k && cs[j] in D ==> FreshAt(t, w, store, cs, j)
    ensures SameOutput(BuildAll(t, w, store, cs), BuildAll(t, w, map[], cs), t.hash(cs[k]))
    decreases k
  {
    var a, b, c := BuildAll(t, w, store, cs), BuildAll(t, w, map[], cs), cs[k];
    forall j | 0 <= j < k && cs[j] in D ensures SameOutput(a, b, t.hash(cs[j])) {
      FreshIsClean(t, w, store, cs, D, j);
    }
    UnitOfBuild(t, w, store, cs, k);
    assert FreshAt(t, w, store, cs, k) && Fresh(t, w, a, c);
    var log: History :| IsRun(t.compiler(c), w, a, log, a[t.hash(c)].output);
    RunIsShared(t, w, cs, D, k, a, b, log, a[t.hash(c)].output);
    CleanReplays(t, w, cs, k);
    OnlyRun(t, w, b, c, log, a[t.hash(c)].output);
  }

  /** What replays is the one run there is. */
  lemma OnlyRun(t: Toolchain, w: World, store: Store, c: Content, log: History, output: string)
    requires t.hash(c) in store && ReplaysNow(t, w, store, c) && IsRun(t.compiler(c), w, store, log, output)
    ensures store[t.hash(c)].log == log && store[t.hash(c)].output == output
  {
    var e := store[t.hash(c)];
    assert e.log[..0] == log[..0];
    OneRun(t.compiler(c), w, store, w, store, e.log, e.output, log, output, 0);
  }

  /** A run from nothing gives what is kept, when the outputs are the same. */
  lemma CleanIsShared(t: Toolchain, w: World, store: Store, cs: seq<Content>, D: iset<Content>, k: nat)
    requires Injective(t.hash) && Ordered(t, cs) && Terminates(t, cs) && ClosedBelow(t, D) && k < |cs| && cs[k] in D
    requires SameBelow(t, cs, D, |cs|, BuildAll(t, w, store, cs), BuildAll(t, w, map[], cs))
    ensures var a, b := BuildAll(t, w, store, cs), BuildAll(t, w, map[], cs); var id := t.hash(cs[k]);
      && SameOutput(a, b, id)
      && IsRun(t.compiler(cs[k]), w, a, b[id].log, a[id].output)
  {
    var a, b := BuildAll(t, w, store, cs), BuildAll(t, w, map[], cs);
    assert SameOutput(b, a, t.hash(cs[k])) && SameBelow(t, cs, D, k, b, a);
    CleanReplays(t, w, cs, k);
    RunIsShared(t, w, cs, D, k, b, a, b[t.hash(cs[k])].log, b[t.hash(cs[k])].output);
  }

  /** Exactly when a build over any store of logs leaves the outputs that one
      from nothing leaves, for any units and all they may ask for: each of them
      that is reused would be compiled to what is kept. */
  lemma SameOutputsIff(t: Toolchain, w: World, store: Store, cs: seq<Content>, D: iset<Content>)
    requires Injective(t.hash) && Ordered(t, cs) && Terminates(t, cs) && ClosedBelow(t, D)
    ensures (forall k :: 0 <= k < |cs| && cs[k] in D ==>
               SameOutput(BuildAll(t, w, store, cs), BuildAll(t, w, map[], cs), t.hash(cs[k]))) <==>
            (forall k :: 0 <= k < |cs| && cs[k] in D ==> FreshAt(t, w, store, cs, k))
  {
    var a, b := BuildAll(t, w, store, cs), BuildAll(t, w, map[], cs);
    if forall k :: 0 <= k < |cs| && cs[k] in D ==> FreshAt(t, w, store, cs, k) {
      forall k | 0 <= k < |cs| && cs[k] in D ensures SameOutput(a, b, t.hash(cs[k])) {
        FreshIsClean(t, w, store, cs, D, k);
      }
    }
    if SameBelow(t, cs, D, |cs|, a, b) {
      forall k | 0 <= k < |cs| && cs[k] in D ensures FreshAt(t, w, store, cs, k) {
        CleanIsShared(t, w, store, cs, D, k);
        UnitOfBuild(t, w, store, cs, k);
      }
    }
  }

  lemma StandingIsFresh(t: Toolchain, w: World, store: Store, cs: seq<Content>, k: nat)
    requires Terminates(t, cs) && k < |cs| && StandsAt(t, w, store, cs, k)
    ensures FreshAt(t, w, store, cs, k)
  {
  }

  /** The same of all that is kept, what was read and the output: each reused
      unit replays, which `ReusedReplaysIff` says of its reads. */
  lemma SameEntriesIff(t: Toolchain, w: World, store: Store, cs: seq<Content>, D: iset<Content>)
    requires Injective(t.hash) && Logged(t, store) && Ordered(t, cs) && Terminates(t, cs) && ClosedBelow(t, D)
    ensures (forall k :: 0 <= k < |cs| && cs[k] in D ==>
               SameEntry(BuildAll(t, w, store, cs), BuildAll(t, w, map[], cs), t.hash(cs[k]))) <==>
            (forall k :: 0 <= k < |cs| && cs[k] in D ==> StandsAt(t, w, store, cs, k))
  {
    var a, b := BuildAll(t, w, store, cs), BuildAll(t, w, map[], cs);
    if forall k :: 0 <= k < |cs| && cs[k] in D ==> StandsAt(t, w, store, cs, k) {
      forall k | 0 <= k < |cs| && cs[k] in D ensures FreshAt(t, w, store, cs, k) {
        StandingIsFresh(t, w, store, cs, k);
      }
      SameOutputsIff(t, w, store, cs, D);
      forall k | 0 <= k < |cs| && cs[k] in D ensures SameEntry(a, b, t.hash(cs[k])) {
        StandingIsClean(t, w, store, cs, D, k);
      }
    }
    if forall k :: 0 <= k < |cs| && cs[k] in D ==> SameEntry(a, b, t.hash(cs[k])) {
      forall k | 0 <= k < |cs| && cs[k] in D ensures StandsAt(t, w, store, cs, k) {
        assert SameEntry(a, b, t.hash(cs[k]));
        CleanIsShared(t, w, store, cs, D, k);
        UnitOfBuild(t, w, store, cs, k);
      }
    }
  }

  lemma StandingIsClean(t: Toolchain, w: World, store: Store, cs: seq<Content>, D: iset<Content>, k: nat)
    requires Injective(t.hash) && Logged(t, store) && Ordered(t, cs) && Terminates(t, cs) && ClosedBelow(t, D)
    requires k < |cs| && cs[k] in D && StandsAt(t, w, store, cs, k)
    requires SameBelow(t, cs, D, |cs|, BuildAll(t, w, store, cs), BuildAll(t, w, map[], cs))
    ensures SameEntry(BuildAll(t, w, store, cs), BuildAll(t, w, map[], cs), t.hash(cs[k]))
  {
    var a, b := BuildAll(t, w, store, cs), BuildAll(t, w, map[], cs);
    CleanIsShared(t, w, store, cs, D, k);
    UnitOfBuild(t, w, store, cs, k);
    OnlyRun(t, w, a, cs[k], b[t.hash(cs[k])].log, a[t.hash(cs[k])].output);
    BuildIsLogged(t, w, store, cs);
    BuildIsLogged(t, w, map[], cs);
    ContentOfName(t, a, cs[k]);
    ContentOfName(t, b, cs[k]);
  }

  // --------------------------------------------- units whose reads are followed

  /** The builder vouches for `c`: its identity pins all, or its record does. */
  ghost predicate Vouched(t: Toolchain, store: Store, c: Content) {
    Pinned(t, c) || (Watched(t, c) && RecordIsFull(t, store, c))
  }

  lemma VouchedStands(t: Toolchain, w: World, store: Store, cs: seq<Content>, k: nat)
    requires Injective(t.hash) && Consistent(t, store) && IsBuild(t, w, cs) && k < |cs| && Vouched(t, store, cs[k])
    ensures StandsAt(t, w, store, cs, k)
  {
    var before := Before(t, w, store, cs, k);
    if Reused(t, w, before, cs[k]) {
      PrefixIsBuild(t, w, cs, k);
      BuildIsConsistent(t, w, store, cs[..k]);
      if Pinned(t, cs[k]) {
        PinnedAsks(t, cs[k]);
      } else {
        assert cs[..k][..0] == [];
        BuildKeepsOthers(t, w, store, cs[..k], 0, t.hash(cs[k]));
      }
      Replays(t, w, before, cs[k]);
    }
  }

  /** After a build from any consistent store a unit is what compiling it now
      reads and gives, if it was compiled or the builder vouches for it. */
  lemma BuildIsFresh(t: Toolchain, w: World, store: Store, cs: seq<Content>, k: nat)
    requires Injective(t.hash) && Consistent(t, store) && IsBuild(t, w, cs) && k < |cs|
    requires Reused(t, w, Before(t, w, store, cs, k), cs[k]) ==> Vouched(t, store, cs[k])
    ensures t.hash(cs[k]) in BuildAll(t, w, store, cs) && ReplaysNow(t, w, BuildAll(t, w, store, cs), cs[k])
  {
    UnitOfBuild(t, w, store, cs, k);
    if Reused(t, w, Before(t, w, store, cs, k), cs[k]) { VouchedStands(t, w, store, cs, k); }
  }

  lemma FollowedStands(t: Toolchain, steps: seq<Step>, w: World, cs: seq<Content>, k: nat)
    requires Injective(t.hash) && IsHistory(t, steps) && IsBuild(t, w, cs) && k < |cs| && Followed(t, steps, cs[k])
    ensures StandsAt(t, w, After(t, steps), cs, k)
  {
    AfterIsConsistent(t, steps);
    if !Pinned(t, cs[k]) { AfterHoldsFullRecords(t, steps, cs[k]); }
    VouchedStands(t, w, After(t, steps), cs, k);
  }

  /** Exactly when the cache is invisible: over every run of edits and builds,
      of one package or several that share the cache, and for any units and all
      they may ask for, what a build leaves is what one from nothing leaves if
      and only if each reused unit whose reads the cache does not follow
      replays; and the outputs are the same if and only if each would be
      compiled to what is kept. */
  lemma CacheIsInvisibleIff(t: Toolchain, steps: seq<Step>, w: World, cs: seq<Content>, D: iset<Content>)
    requires Injective(t.hash) && IsHistory(t, steps) && IsBuild(t, w, cs) && ClosedBelow(t, D)
    ensures var cached, clean := BuildAll(t, w, After(t, steps), cs), BuildAll(t, w, map[], cs);
      && ((forall k :: 0 <= k < |cs| && cs[k] in D ==> SameEntry(cached, clean, t.hash(cs[k]))) <==>
          (forall k :: 0 <= k < |cs| && cs[k] in D && !Followed(t, steps, cs[k]) ==> StandsAt(t, w, After(t, steps), cs, k)))
      && ((forall k :: 0 <= k < |cs| && cs[k] in D ==> SameOutput(cached, clean, t.hash(cs[k]))) <==>
          (forall k :: 0 <= k < |cs| && cs[k] in D && !Followed(t, steps, cs[k]) ==> FreshAt(t, w, After(t, steps), cs, k)))
  {
    var kept := After(t, steps);
    forall k | 0 <= k < |cs| && Followed(t, steps, cs[k])
      ensures StandsAt(t, w, kept, cs, k) && FreshAt(t, w, kept, cs, k)
    {
      FollowedStands(t, steps, w, cs, k);
      StandingIsFresh(t, w, kept, cs, k);
    }
    AfterIsConsistent(t, steps);
    SameEntriesIff(t, w, kept, cs, D);
    SameOutputsIff(t, w, kept, cs, D);
  }

  /** What a user can tell before any build: a unit whose reads the cache
      follows is what a build from nothing leaves, whatever the others read. */
  lemma CacheIsInvisible(t: Toolchain, steps: seq<Step>, w: World, cs: seq<Content>, c: Content)
    requires Injective(t.hash) && IsHistory(t, steps) && IsBuild(t, w, cs) && c in cs && Followed(t, steps, c)
    ensures SameEntry(BuildAll(t, w, After(t, steps), cs), BuildAll(t, w, map[], cs), t.hash(c))
  {
    var D := iset b | Pinned(t, b) || b == c;
    forall d, b, log | d in D && t.compiler(d)(log) == Ask(Output(t.hash(b))) ensures b in D {
      if Pinned(t, d) { PinnedAsks(t, d); }
      assert PinnedName(t, t.hash(b));
    }
    CacheIsInvisibleIff(t, steps, w, cs, D);
    var k :| 0 <= k < |cs| && cs[k] == c;
    assert cs[k] in D;
  }

  // --------------------------------------------------- the builds there are

  /** The contents of the units, in their order. */
  function Contents(s: Setup, ids: map<Unit, string>, order: seq<Unit>): (cs: seq<Content>)
    requires forall u :: u in order ==> u in s.units && u.node < |s.packages|
    ensures |cs| == |order| && forall i :: 0 <= i < |cs| ==> order[i] in order && cs[i] == ContentOf(s, ids, order[i])
  {
    seq(|order|, i requires 0 <= i < |order| => ContentOf(s, ids, order[i]))
  }

  ghost predicate AsksItsEdges(t: Toolchain, c: Content) {
    forall log, id :: t.compiler(c)(log) == Ask(Output(id)) ==> exists alias, kind :: (alias, kind, id) in c.edges
  }

  /** What the identities name, in the order the units are compiled, is in the
      order a build needs, when a compilation asks for what its edges name. */
  lemma NamedContentsAreOrdered(s: Setup, ids: map<Unit, string>, t: Toolchain, order: seq<Unit>)
    requires Named(s, t.hash, ids) && Topological(s.units, order) && Injective(t.hash)
    requires forall u :: u in order ==> AsksItsEdges(t, ContentOf(s, ids, u))
    ensures Ordered(t, Contents(s, ids, order))
  {
    var cs := Contents(s, ids, order);
    forall i, j | 0 <= i < j < |cs| ensures cs[i] != cs[j] {
      assert order[i] != order[j];
      DifferentUnits(s, ids, order[i], order[j]);
    }
    forall k, log, id | 0 <= k < |cs| && t.compiler(cs[k])(log) == Ask(Output(id)) ensures id in Names(t, cs[..k]) {
      assert AsksItsEdges(t, ContentOf(s, ids, order[k]));
      var alias, kind :| (alias, kind, id) in cs[k].edges;
      EdgeIsEarlier(s, ids, t, order, k, alias, kind, id);
    }
  }

  lemma EdgeIsEarlier(s: Setup, ids: map<Unit, string>, t: Toolchain, order: seq<Unit>, k: nat,
                      alias: string, kind: Manifests.Kind, id: string)
    requires Named(s, t.hash, ids) && Topological(s.units, order) && k < |order|
    requires order[k] in order && (alias, kind, id) in ContentOf(s, ids, order[k]).edges
    ensures id in Names(t, Contents(s, ids, order)[..k])
  {
    var e := EdgeOfName(s, ids, order[k], alias, kind, id);
    assert e in EdgesOf(s.units, order[k]);
    assert e.to in order[..k];
    var j :| 0 <= j < k && order[..k][j] == e.to;
    NameOfUnit(s, ids, t, order, j);
    NameOfContent(t, Contents(s, ids, order)[..k], j);
  }

  lemma NameOfUnit(s: Setup, ids: map<Unit, string>, t: Toolchain, order: seq<Unit>, j: nat)
    requires Named(s, t.hash, ids) && Topological(s.units, order) && j < |order|
    ensures t.hash(Contents(s, ids, order)[j]) == ids[order[j]]
  {
    assert order[j] in order;
  }

  lemma NameOfContent(t: Toolchain, cs: seq<Content>, j: nat)
    requires j < |cs|
    ensures t.hash(cs[j]) in Names(t, cs)
  {
    assert cs[j] in cs;
  }

  lemma DifferentUnits(s: Setup, ids: map<Unit, string>, u: Unit, v: Unit)
    requires s.Valid() && u in s.units && v in s.units && u != v
    ensures ContentOf(s, ids, u) != ContentOf(s, ids, v)
  {
    if u.node != v.node {
      assert s.packages[u.node].id != s.packages[v.node].id;
    }
  }

  lemma EdgeOfName(s: Setup, ids: map<Unit, string>, u: Unit, alias: string, kind: Manifests.Kind, id: string) returns (e: Edge)
    requires s.Valid() && u in s.units && (forall e :: e in s.units[u].edges ==> e.to in ids)
    requires (alias, kind, id) in ContentOf(s, ids, u).edges
    ensures e in s.units[u].edges && ids[e.to] == id
  {
    var named := EdgeIds(s.units[u].edges, ids);
    assert (alias, kind, id) in named;
    var i :| 0 <= i < |named| && named[i] == (alias, kind, id);
    e := s.units[u].edges[i];
  }

  // ------------------------------------------- without containment it is not

  /** A compiler that reads one thing and repeats it. */
  function Echo(q: Query): Compiler {
    (log: History) => if log == [] then Ask(q) else Finish(Shown(log[0].1))
  }

  lemma EchoRuns(q: Query, w: World, store: Store)
    ensures Finishes(Echo(q))
    ensures forall log, output :: IsRun(Echo(q), w, store, log, output) <==>
      log == [(q, Answer(w, store, q))] && output == Shown(Answer(w, store, q))
  {
    forall v, kept ensures Ends(Echo(q), v, kept) {
      var log := [(q, Answer(v, kept, q))];
      assert log[..0] == [];
      assert IsRun(Echo(q), v, kept, log, Shown(log[0].1));
    }
    forall log, output | IsRun(Echo(q), w, store, log, output)
      ensures log == [(q, Answer(w, store, q))] && output == Shown(Answer(w, store, q))
    {
      assert log != [];
      assert log[..0] == [];
      var first := if |log| > 1 then log[..1] else log;
      assert first != [] && Echo(q)(first).Finish?;
      assert |log| == 1;
    }
    var log := [(q, Answer(w, store, q))];
    assert log[..0] == [];
  }

  const SETTINGS := Settings("dev", false, "1", "host")

  /** A path package at the bottom. */
  const LIBRARY := Content(Local("b 1", None, false, {}, SETTINGS, Some([])), multiset{})

  /** One above it. */
  function Middle(hash: Content -> string): Content {
    Content(Local("m 1", None, false, {}, SETTINGS, Some([])), multiset{("b", Manifests.Normal, hash(LIBRARY))})
  }

  /** The root, above `below`; its files are not part of its identity. */
  function Root(hash: Content -> string, below: Content): Content {
    Content(Local("a 1", None, false, {}, SETTINGS, None), multiset{("b", Manifests.Normal, hash(below))})
  }

  /** Each unit repeats the one thing it reads: the library the variable `X`,
      one above it the library, and the root what it stands on. */
  function Asked(hash: Content -> string, below: Content, c: Content): Query {
    if c == Root(hash, below) then Output(hash(below))
    else if c == Middle(hash) then Output(hash(LIBRARY))
    else Var("X")
  }

  function Repeating(hash: Content -> string, below: Content): Toolchain {
    Toolchain(
      hash, (c: Content) => Echo(Asked(hash, below, c)), (l: Local) => map[], (c: Content, log: History) => Policy({}, {}))
  }

  function Setting(x: string): World { World(map[], map["X" := x]) }

  /** What is kept of `c` after it repeated `x`. */
  function Repeated(hash: Content -> string, below: Content, c: Content, x: string): Entry {
    Entry(c, [(Asked(hash, below, c), Some(x))], x)
  }

  lemma RepeatingEnds(hash: Content -> string, below: Content, cs: seq<Content>)
    ensures Terminates(Repeating(hash, below), cs)
  {
    forall c | c in cs ensures Finishes(Repeating(hash, below).compiler(c)) {
      EchoRuns(Asked(hash, below, c), Setting(""), map[]);
    }
  }

  /** A unit that was never compiled, or whose variable changed. */
  lemma IsCompiled(hash: Content -> string, below: Content, x: string, x': string, store: Store, c: Content)
    requires c.local.source.None? && Answer(Setting(x), store, Asked(hash, below, c)) == Some(x)
    requires hash(c) in store ==> store[hash(c)].log == [(Var("X"), Some(x'))] && x != x'
    ensures Finishes(Repeating(hash, below).compiler(c))
    ensures BuildUnit(Repeating(hash, below), Setting(x), store, c) == store[hash(c) := Repeated(hash, below, c, x)]
  {
    EchoRuns(Asked(hash, below, c), Setting(x), store);
    if hash(c) in store {
      var log := store[hash(c)].log;
      assert Kept(Policy({}, {}), log[0].0, log[0].1) && Answer(Setting(x), map[], log[0].0) == Some(x);
    }
  }

  /** A unit that repeated another, whose record holds nothing. */
  lemma IsReused(hash: Content -> string, below: Content, x: string, x': string, store: Store, c: Content)
    requires Asked(hash, below, c).Output? && hash(c) in store && store[hash(c)] == Repeated(hash, below, c, x')
    ensures Finishes(Repeating(hash, below).compiler(c)) && Reused(Repeating(hash, below), Setting(x), store, c)
    ensures ReplaysNow(Repeating(hash, below), Setting(x), store, c) <==> KeptOutput(store, Asked(hash, below, c).id) == Some(x')
  {
    EchoRuns(Asked(hash, below, c), Setting(x), store);
  }

  /** A build of units in a row, the last one seen apart. */
  lemma LastOf(t: Toolchain, w: World, store: Store, cs: seq<Content>, c: Content)
    requires Terminates(t, cs) && Terminates(t, cs + [c])
    ensures Before(t, w, store, cs + [c], |cs|) == BuildAll(t, w, store, cs)
    ensures BuildAll(t, w, store, cs + [c]) == BuildUnit(t, w, BuildAll(t, w, store, cs), c)
  {
    assert (cs + [c])[..|cs|] == cs;
  }

  lemma LibraryFirst(hash: Content -> string, below: Content, x: string, x': string, store: Store)
    requires Injective(hash) && Asked(hash, below, LIBRARY) == Var("X")
    requires hash(LIBRARY) in store ==> store[hash(LIBRARY)] == Repeated(hash, below, LIBRARY, x') && x != x'
    ensures Terminates(Repeating(hash, below), [LIBRARY])
    ensures BuildAll(Repeating(hash, below), Setting(x), store, [LIBRARY]) ==
      store[hash(LIBRARY) := Repeated(hash, below, LIBRARY, x)]
  {
    var t := Repeating(hash, below);
    RepeatingEnds(hash, below, [LIBRARY]);
    assert [LIBRARY][..0] == [];
    assert BuildAll(t, Setting(x), store, []) == store;
    IsCompiled(hash, below, x, x', store, LIBRARY);
  }

  /** The library and the root, from nothing or again after `X` changed: the
      root is compiled the first time only. */
  lemma LibraryThenRoot(hash: Content -> string, x: string, x': string, store: Store)
    requires Injective(hash) && x != x'
    requires var root := Root(hash, LIBRARY);
      store == map[] || store == map[hash(LIBRARY) := Repeated(hash, LIBRARY, LIBRARY, x'), hash(root) := Repeated(hash, LIBRARY, root, x')]
    ensures var cs, root := [LIBRARY] + [Root(hash, LIBRARY)], Root(hash, LIBRARY);
      && Terminates(Repeating(hash, LIBRARY), cs)
      && BuildAll(Repeating(hash, LIBRARY), Setting(x), store, cs) ==
           map[hash(LIBRARY) := Repeated(hash, LIBRARY, LIBRARY, x),
               hash(root) := Repeated(hash, LIBRARY, root, if hash(root) in store then x' else x)]
  {
    var t, root := Repeating(hash, LIBRARY), Root(hash, LIBRARY);
    assert hash(LIBRARY) != hash(root) by { assert LIBRARY.local.id != root.local.id; }
    RepeatingEnds(hash, LIBRARY, [LIBRARY] + [root]);
    LibraryFirst(hash, LIBRARY, x, x', store);
    LastOf(t, Setting(x), store, [LIBRARY], root);
    var mid := store[hash(LIBRARY) := Repeated(hash, LIBRARY, LIBRARY, x)];
    if store == map[] {
      IsCompiled(hash, LIBRARY, x, x', mid, root);
    } else {
      IsReused(hash, LIBRARY, x, x', mid, root);
    }
  }

  /** A variable a library reads is in its record but not in its identity: when
      it changes, the library is compiled again, under the same name, and the
      root above it is reused as it was: it asks for the output of a unit that
      is not pinned. */
  lemma StaleAboveARecompiledLibrary(hash: Content -> string, x: string, x': string)
    requires Injective(hash) && x != x'
    ensures var t, cs, root := Repeating(hash, LIBRARY), [LIBRARY] + [Root(hash, LIBRARY)], Root(hash, LIBRARY);
      && Terminates(t, cs)
      && var cached := BuildAll(t, Setting(x'), BuildAll(t, Setting(x), map[], cs), cs);
         var clean := BuildAll(t, Setting(x'), map[], cs);
         && hash(root) in cached && cached[hash(root)].output == x
         && hash(root) in clean && clean[hash(root)].output == x'
    ensures !Pinned(Repeating(hash, LIBRARY), LIBRARY) && !AsksPinned(Repeating(hash, LIBRARY), Root(hash, LIBRARY))
  {
    LibraryThenRoot(hash, x, x', map[]);
    LibraryThenRoot(hash, x', x, map[]);
    var root := Root(hash, LIBRARY);
    var kept := BuildAll(Repeating(hash, LIBRARY), Setting(x), map[], [LIBRARY] + [root]);
    assert hash(root) in kept;
    LibraryThenRoot(hash, x', x, kept);
    LibraryIsNotPinned(hash);
  }

  lemma LibraryIsNotPinned(hash: Content -> string)
    requires Injective(hash)
    ensures !Pinned(Repeating(hash, LIBRARY), LIBRARY) && !AsksPinned(Repeating(hash, LIBRARY), Root(hash, LIBRARY))
  {
    var t, root := Repeating(hash, LIBRARY), Root(hash, LIBRARY);
    assert t.compiler(LIBRARY)([]) == Ask(Var("X"));
    if Pinned(t, LIBRARY) { PinnedAsks(t, LIBRARY); }
    assert t.compiler(root) == Echo(Output(hash(LIBRARY)));
    assert t.compiler(root)([]) == Ask(Output(hash(LIBRARY)));
  }

  /** The library, the middle and the root, each with what it last repeated. */
  function ThreeKept(hash: Content -> string, x: string, y: string): Store {
    var middle := Middle(hash);
    map[hash(LIBRARY) := Repeated(hash, middle, LIBRARY, x), hash(middle) := Repeated(hash, middle, middle, y),
        hash(Root(hash, middle)) := Repeated(hash, middle, Root(hash, middle), y)]
  }

  function Three(hash: Content -> string): seq<Content> { [LIBRARY] + [Middle(hash)] + [Root(hash, Middle(hash))] }

  lemma ThreeAreDistinct(hash: Content -> string)
    requires Injective(hash)
    ensures hash(LIBRARY) != hash(Middle(hash)) && hash(LIBRARY) != hash(Root(hash, Middle(hash)))
    ensures hash(Middle(hash)) != hash(Root(hash, Middle(hash)))
    ensures Terminates(Repeating(hash, Middle(hash)), Three(hash))
  {
    assert LIBRARY.local.id != Middle(hash).local.id && LIBRARY.local.id != Root(hash, Middle(hash)).local.id;
    assert Middle(hash).local.id != Root(hash, Middle(hash)).local.id;
    RepeatingEnds(hash, Middle(hash), Three(hash));
  }

  /** The library and the middle, and then the root. */
  lemma TwoThenRoot(hash: Content -> string, x: string, store: Store)
    requires Injective(hash)
    ensures var t, root := Repeating(hash, Middle(hash)), Root(hash, Middle(hash)); var two := [LIBRARY] + [Middle(hash)];
      && Terminates(t, Three(hash)) && Terminates(t, [LIBRARY]) && Terminates(t, two)
      && Before(t, Setting(x), store, Three(hash), 1) == BuildAll(t, Setting(x), store, [LIBRARY])
      && Before(t, Setting(x), store, Three(hash), 2) == BuildUnit(t, Setting(x), BuildAll(t, Setting(x), store, [LIBRARY]), Middle(hash))
      && BuildAll(t, Setting(x), store, Three(hash)) == BuildUnit(t, Setting(x), Before(t, Setting(x), store, Three(hash), 2), root)
  {
    var t, root := Repeating(hash, Middle(hash)), Root(hash, Middle(hash));
    RepeatingEnds(hash, Middle(hash), Three(hash));
    RepeatingEnds(hash, Middle(hash), [LIBRARY]);
    RepeatingEnds(hash, Middle(hash), [LIBRARY] + [Middle(hash)]);
    LastOf(t, Setting(x), store, [LIBRARY], Middle(hash));
    LastOf(t, Setting(x), store, [LIBRARY] + [Middle(hash)], root);
    assert Three(hash)[..1] == [LIBRARY];
  }

  lemma ThreeFromNothing(hash: Content -> string, x: string)
    requires Injective(hash)
    ensures Terminates(Repeating(hash, Middle(hash)), Three(hash))
    ensures BuildAll(Repeating(hash, Middle(hash)), Setting(x), map[], Three(hash)) == ThreeKept(hash, x, x)
  {
    var middle := Middle(hash);
    ThreeAreDistinct(hash);
    TwoThenRoot(hash, x, map[]);
    LibraryFirst(hash, middle, x, x, map[]);
    var one: Store := map[hash(LIBRARY) := Repeated(hash, middle, LIBRARY, x)];
    IsCompiled(hash, middle, x, x, one, middle);
    IsCompiled(hash, middle, x, x, one[hash(middle) := Repeated(hash, middle, middle, x)], Root(hash, middle));
  }

  /** It is not enough that a reused unit replays: above a stale unit one that
      repeats it does, and is stale as well. After `X` changed the root of
      three replays in what the build leaves and is not what a build from
      nothing leaves; it is the middle that does not stand. */
  lemma StaleUpTheChain(hash: Content -> string, x: string, x': string)
    requires Injective(hash) && x != x'
    ensures var t, cs, root := Repeating(hash, Middle(hash)), Three(hash), Root(hash, Middle(hash));
      && Terminates(t, cs)
      && var kept := BuildAll(t, Setting(x), map[], cs);
         var cached, clean := BuildAll(t, Setting(x'), kept, cs), BuildAll(t, Setting(x'), map[], cs);
         && Reused(t, Setting(x'), Before(t, Setting(x'), kept, cs, 2), root) && StandsAt(t, Setting(x'), kept, cs, 2)
         && hash(root) in cached && ReplaysNow(t, Setting(x'), cached, root) && cached[hash(root)].output == x
         && hash(root) in clean && clean[hash(root)].output == x'
         && !StandsAt(t, Setting(x'), kept, cs, 1)
  {
    var middle, root, kept := Middle(hash), Root(hash, Middle(hash)), ThreeKept(hash, x, x);
    ThreeAreDistinct(hash);
    ThreeFromNothing(hash, x);
    ThreeFromNothing(hash, x');
    TwoThenRoot(hash, x', kept);
    LibraryFirst(hash, middle, x', x, kept);
    var after := kept[hash(LIBRARY) := Repeated(hash, middle, LIBRARY, x')];
    IsReused(hash, middle, x', x, after, middle);
    IsReused(hash, middle, x', x, after, root);
    var t := Repeating(hash, middle);
    assert after[hash(root)].output == x;
    assert BuildAll(t, Setting(x'), BuildAll(t, Setting(x), map[], Three(hash)), Three(hash)) == after;
  }
}
