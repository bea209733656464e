# kompilator, verified

This project models the build engine `kompilator` and proves what it keeps. The
engine reads a lock file and manifests, resolves features over the locked
packages, orders the resulting units, compiles them concurrently with
pipelining, and reuses what an earlier build left. The model follows the code,
branch by branch; where code and documentation disagree it follows the code.

A unit is a package compiled for one side: for the target, or for the host,
where build scripts and procedural macros and everything under them run. The
parts are:

* **Features.** `Features` gives the resolver as functions of its state,
  `Resolver.Graph` as the mutating methods, each proved equal to its function.
  `FeatureRules` states the rules of features declaratively, as the least set
  of facts closed under them; `FeatureProof` and `FeatureLaws` show that the
  resolver records exactly that set, on a condition of the forced facts alone.
  `FeatureReach` and `FeatureSides` need no
  condition on the manifests: every unit made is reached from the root, and
  nothing asked on the host side changes the target side.
* **Order and schedule.** `Ordering` is the explicit-stack walk, `Waiting` what
  a unit waits for, `Scheduling` the event loop as a state machine over
  arbitrary runs of events, `Building.Loop` the loop with its variables;
  `Pipelining` is a run that shows what a link has to wait for.
* **Cache.** `Identities` are content addresses, `Records` the text of a
  record, `Caching` whole histories of edits and builds with any deterministic
  compiler that decides what to read from what it has read. Units may read
  whatever they like: `Caching.CacheIsInvisibleIff` says exactly when a build
  leaves what a build from nothing leaves.
* **Readers and arithmetic.** `Packages` reads the lock's packages into a graph,
  `Cfgs` reads and judges `cfg(...)`, `Toml*`, `Tables` and `Trees` read TOML,
  with `TomlCut` reading a text and its part before a cut escape side by side,
  `Sha256` is the digest.

Four behaviours turned out not to be what one would expect; each has a lemma
with the input that shows it.

* A feature named like an implicit optional feature may never run its table
  (`FeatureSurprises.DeclaredFeatureMayBeShadowed`), and a weak request that
  waits is applied at the first of two lines that share an alias only
  (`FeatureSurprises.WeakRequestMayMissALine`). In both the result depends on
  the order in which features are asked for.
* A variable that a library below the root reads is in its record and not in
  its identity: when it changes, the library is compiled again and the root
  above it is reused as it was (`Caching.StaleAboveARecompiledLibrary`). Above
  a stale unit a reused one replays and is stale as well
  (`Caching.StaleUpTheChain`), so the exact condition is on all that are reused
  (`Caching.SameEntriesIff`, `Caching.SameOutputsIff`).
* A TOML text that ends inside the digits of a `\u` escape in a multi-line
  string stops the program with a slice out of range
  (`TomlCrash.ShortDocumentCrashes`), instead of being refused with a line as
  the head of `toml.rs` says. `TomlCut.ParseCrashesIff` says of every text
  whether it does.
* A table header with a part spelled like the reader's own mark has its lines
  put into another table (`TomlMark.MarkedHeaderLosesItsLine`), and only such a
  header has (`Tables.LinesGoWhereTheHeaderOpenedIff`).

## Model

| member | source | states |
|---|---|---|
| Manifests.ClassifyKeepsTheEntry | kompilator/src/resolve.rs:260-286 | reading a feature entry loses nothing: writing what was read gives the entry back, so no two entries are confused |
| Manifests.LegalIsReadBack | kompilator/src/resolve.rs:260-286 | exactly the legal `dep:a`, `a/s`, `a?/s` and feature names are read back as meant |
| Features.Ensure | kompilator/src/resolve.rs:183-200 | ends on every manifest set, cyclic ones too; takes nothing back and makes the unit |
| Features.EnableLine | kompilator/src/resolve.rs:203-231 | ends although nothing remembers a line was enabled; takes nothing back, and no request starts to wait for an enabled alias |
| Features.Activate | kompilator/src/resolve.rs:251-297 | ends: units not made and known features not active strictly decrease below it; takes nothing back |
| FeatureRules.ForcedIsClosed | kompilator/src/resolve.rs:183-297 | the rules never conflict: the least set of facts obeys all of them |
| FeatureRules.ForcedIsGrounded | kompilator/src/resolve.rs:203-215 | no edge is forced but by a line whose whole demand is forced |
| FeatureProof.EnsureFaithful | kompilator/src/resolve.rs:183-200 | below any set of facts no step leaves and regular on its own facts, making a unit stays within it, each new fact processed or waiting |
| FeatureProof.EnableLineFaithful | kompilator/src/resolve.rs:203-231 | below such a set, enabling a line it allows stays within it, and no request waits for its alias |
| FeatureProof.ActivateFaithful | kompilator/src/resolve.rs:251-297 | below such a set, activating a feature of it stays within it, and fails only on a feature of it that its package lacks |
| FeatureLaws.ResolutionIsLeast | kompilator/src/resolve.rs:158-170 | a resolution fails exactly when an unknown feature is forced, and else records exactly the least fixed point, with no weak request pending for an enabled alias |
| FeatureLaws.OrderOfAskingIsInvisible | kompilator/src/resolve.rs:158-170 | neither the result nor failing depends on the order or repetition of the features asked for |
| FeatureLaws.RegularTablesResolve | kompilator/src/resolve.rs:158-170 | the resolution is the least fixed point in every order of asking when each alias a weak entry names has one line and no `x/f` has a declared implicit `x`, which is checked without resolving |
| FeatureLaws.AskingForMoreOnlyAdds | kompilator/src/resolve.rs:158-170 | if a larger request succeeds, so does a smaller one, and it records no fact the larger one does not |
| FeatureReach.EveryUnitIsReached | kompilator/src/resolve.rs:203-215 | every unit a successful resolution makes is reached from the root, on any manifests |
| FeatureReach.HostStaysHost | kompilator/src/resolve.rs:177-181 | every edge is that of a dependency line, ends in a unit that was made, and is for the host when its unit is or when it is a build edge |
| FeatureReach.ActivateLocal | kompilator/src/resolve.rs:251-297 | activating on a host unit leaves every target unit as it was; what activating makes is reached from its unit |
| FeatureSides.HostFeaturesStayOnTheHost | kompilator/src/resolve.rs:177-232 | changing the features asked by build lines and procedural-macro lines changes no target unit, feature, edge or waiting request when both resolutions succeed |
| FeatureSides.AskAlike | kompilator/src/resolve.rs:216-231 | what a line asks has the same effect on the target side of both manifest sets |
| FeatureSurprises.DeclaredFeatureMayBeShadowed | kompilator/src/resolve.rs:274-279 | a named manifest set, regular but for one declared feature, whose result depends on the order asked: a name is inserted without running its table |
| FeatureSurprises.WeakRequestMayMissALine | kompilator/src/resolve.rs:221-230 | a named manifest set, regular but for one shared alias, whose result depends on the order asked: a waiting request is drained at the first of two lines |
| Resolver.Graph.Ensure | kompilator/src/resolve.rs:183-200 | the mutating method leaves exactly the state and error of the function |
| Resolver.Graph.EnableLine | kompilator/src/resolve.rs:203-231 | the same for enabling a line |
| Resolver.Graph.Activate | kompilator/src/resolve.rs:251-297 | the same for activating a feature |
| Resolver.Graph.Build | kompilator/src/resolve.rs:158-170 | asks exactly the wanted features of the root, and when the forced facts are regular leaves exactly those |
| Packages.CompleteIsValid | kompilator/src/resolve.rs:42-48 | full rows of positions in range make every index of the feature resolver safe |
| Packages.NodesAreBounded | kompilator/src/resolve.rs:85-92 | there are never more nodes than distinct locked ids, which ends the worklist |
| Packages.Place | kompilator/src/resolve.rs:137-152 | a package has one position, kept in bijection with its id, and its manifest is read only when it has none |
| Packages.Row | kompilator/src/resolve.rs:92-155 | a row has one entry per dependency line, each the node of the package the line is, or none exactly when it does not apply |
| Packages.Collect | kompilator/src/resolve.rs:85-157 | root first, each id once, a full row for each node, no node that no line is; a failure is that of a line of a locked package |
| Packages.LockedAs | kompilator/src/lock.rs:60-74 | a lock line gives the only package of the lock it names, and none exactly when it names none or several |
| Packages.Candidates | kompilator/src/resolve.rs:104-109 | exactly the packages of the asked name that a lock line of the package means |
| Packages.Chosen | kompilator/src/resolve.rs:93-136 | a line for the platform is a package of its name that the lock line means, of the required version line when there are several; it is none exactly when the platform is another, or it is optional and nothing is meant; each error says which of these failed |
| Ordering.Order | kompilator/src/resolve.rs:300-321 | on rooted acyclic units: each unit once, each after all its edges reach, the root last |
| Ordering.EndsIffAcyclic | kompilator/src/resolve.rs:300-321 | the walk ends exactly when the units have no cycle |
| Ordering.EndIsTopological | kompilator/src/resolve.rs:300-321 | whenever the walk ends, what it put out is a topological order with the root last |
| Ordering.ResolvedIsRooted | kompilator/src/resolve.rs:158-170 | what the resolver leaves meets the conditions of the walk but for cycles |
| Waiting.LinkedClosure | kompilator/src/compile.rs:646-658 | adds exactly the libraries under the given ones over normal edges |
| Waiting.Split | kompilator/src/compile.rs:683-689 | procedural macros among normal dependencies must be finished, others need their interface only |
| Waiting.WaitsOf | kompilator/src/compile.rs:667-692 | a unit waits exactly for what its links read finished and for the interfaces it is compiled against |
| Waiting.WaitsComeBefore | kompilator/src/compile.rs:667-692 | every unit waited for comes before in the order |
| Scheduling.ReachableInv | kompilator/src/compile.rs:701-767 | the invariant of the loop holds in every reachable state |
| Scheduling.Conservation | kompilator/src/compile.rs:701-767 | in every reachable state each unit started at most once, running is started minus ended and at most the jobs, and ended tasks are counted compiled, reused or failed |
| Scheduling.NothingStartsAfterAFailure | kompilator/src/compile.rs:704 | over every run after a failure was received nothing more starts and the failure stays |
| Scheduling.StartIsComplete | kompilator/src/compile.rs:705-730 | one pass over the order leaves no ready unit behind while a job is free |
| Scheduling.NoMoreEndThanUnits | kompilator/src/compile.rs:736-760 | over every run, no more tasks end than there are units |
| Scheduling.SomethingCanEnd | kompilator/src/compile.rs:732-735 | while the loop waits, a started task has not ended yet |
| Scheduling.NoDeadlock | kompilator/src/compile.rs:701-773 | when nothing runs and nothing failed, every unit is done |
| Scheduling.Outcome | kompilator/src/compile.rs:764-773 | a finished run without failures compiled or reused every unit, so the error that others wait is out of reach |
| Scheduling.InterfacesAreClosed | kompilator/src/compile.rs:736-756 | in every reachable state the interfaced units are closed under normal edges |
| Pipelining.DoneNeedNotBeClosed | kompilator/src/compile.rs:704-759 | a legal run reaches a state with a library done and one under it not, so finished units, unlike interfaces, are not closed |
| Scheduling.LinkedLibrariesAreDone | kompilator/src/compile.rs:631-692 | when a unit that links a library started, that library and all under it are done |
| Scheduling.ExternsAreThere | kompilator/src/compile.rs:400-418 | a started unit has an entry for every edge; each library edge gives its extern, each interface named is written and each finished file is of a done unit |
| Scheduling.EveryEdgeIsLinked | kompilator/src/compile.rs:400-418 | no edge to a built library is skipped |
| Scheduling.ExternIsOfAnEdge | kompilator/src/compile.rs:400-418 | each extern is of an edge of the kind asked, and is an interface exactly when one is there and asked for |
| Building.Loop.StartReady | kompilator/src/compile.rs:704-731 | the starting pass, with its early exits, moves the variables as the state machine does |
| Building.Loop.Receive | kompilator/src/compile.rs:736-761 | taking in an event moves the variables as the state machine does |
| Building.AllWaits | kompilator/src/compile.rs:667-692 | every unit gets its right waits |
| Building.Planned | kompilator/src/compile.rs:661-697 | the order and waits of what was resolved make a valid plan |
| Building.Build | kompilator/src/compile.rs:661-774 | succeeds exactly when no task failed, with counts that add up to the number of units, and else gives the failures |
| Identities.Identities | kompilator/src/compile.rs:209-236 | in topological order each unit is named by the hash of its own content with its children's names; no child's name is ever missing |
| Identities.EqualNamesAreAlike | kompilator/src/compile.rs:209-236 | equal names in any two builds mean equal deciding inputs through the whole dependency closures |
| Identities.RenamedIffChangedBelow | kompilator/src/compile.rs:209-236 | a unit keeps its name exactly while nothing that decides it or a unit below changes |
| Records.Write | kompilator/src/compile.rs:55-76 | the loops write exactly the rows of the record |
| Records.Read | kompilator/src/compile.rs:78-99 | the loop over lines gives exactly what reading row by row gives |
| Records.ReadUndoesWrite | kompilator/src/compile.rs:55-99 | reading gives the record back exactly when its keys hold no tab or line break, no last field ends in a carriage return and its library file is there |
| Records.LegibleIsReadBack | kompilator/src/compile.rs:55-99 | a legible record is read back but for trailing carriage returns, or not at all when its library is gone |
| Records.ReadIsLegible | kompilator/src/compile.rs:78-99 | only legible records are ever read |
| Caching.OneRun | kompilator/src/compile.rs:427-600 | any deterministic adaptive compiler whose reads are answered alike reads the same and outputs the same |
| Caching.FirstChange | kompilator/src/compile.rs:103-116 | finds no change exactly when every kept file and variable is as recorded, and else names the first that is not |
| Caching.UnchangedIsKeptAgree | kompilator/src/compile.rs:103-128 | a record shows no change exactly when every kept read would be answered as it was |
| Caching.ReusedAsRecorded | kompilator/src/compile.rs:439-449 | a unit is reused exactly when reading the text of its record back and comparing it with files and variables says so, for legible records with their library there |
| Caching.ReusedReplaysIff | kompilator/src/compile.rs:439-449 | what is kept of a reused unit replays in the store it meets, and in what the build leaves, exactly when its record shows no change and the reads the record drops, outputs for a full record, are answered as they were |
| Caching.SameEntriesIff | kompilator/src/compile.rs:427-600 | over any store of logs, what a build leaves of any units and all below them is what a build from nothing leaves exactly when each of them that is reused replays in the store it meets |
| Caching.SameOutputsIff | kompilator/src/compile.rs:427-600 | the same of their outputs, exactly when compiling each reused one in the store it meets gives what is kept |
| Caching.BuildIsConsistent | kompilator/src/compile.rs:427-600 | a build of any units keeps a consistent store consistent, keeps what it held of pinned units and adds every unit |
| Caching.BuildIsFresh | kompilator/src/compile.rs:427-600 | after a build from any consistent store, each unit that was compiled, or whose identity or full record holds its reads, is what compiling it now reads and gives, whatever the other units read |
| Caching.AfterIsConsistent | kompilator/src/compile.rs:427-600 | after any history of edits and builds the store is consistent |
| Caching.CacheIsInvisibleIff | kompilator/src/compile.rs:101-128 | after any history of edits and builds, a build leaves of any units and all below them what one from nothing leaves exactly when each reused one whose reads the cache does not follow replays; and the same outputs exactly when each would be compiled to what is kept |
| Caching.CacheIsInvisible | kompilator/src/compile.rs:101-128 | so every unit whose reads its identity or its record follows is the one a build from nothing leaves, at any depth, with nothing to check of a build |
| Caching.NamedContentsAreOrdered | kompilator/src/compile.rs:209-236 | what the identities name, in topological order, is a list as the histories take: each content once, after all whose outputs it asks for |
| Caching.StaleAboveARecompiledLibrary | kompilator/src/compile.rs:209-236 | with a root that asks for the output of a unit that is not pinned, a changed variable leaves the root's output stale |
| Caching.StaleUpTheChain | kompilator/src/compile.rs:209-236 | a root above a stale unit replays in what the build leaves and is stale; the unit below it does not replay in the store it met |
| Cfgs.Tokenize | kompilator/src/cfg.rs:117-171 | the loop gives exactly the tokens, or error, of the recursive reading |
| Cfgs.Expression | kompilator/src/cfg.rs:65-104 | the evaluator with its moving cursor gives exactly the value, end or error of the recursive one |
| Cfgs.JudgeIsMeaning | kompilator/src/cfg.rs:65-104 | judging while reading gives the meaning of the expression read, or fails the same way |
| Cfgs.ParseReadsTokens | kompilator/src/cfg.rs:65-104 | every written expression is read back, with all its tokens |
| Cfgs.ParsedIsWritten | kompilator/src/cfg.rs:65-104 | only writings of expressions, commas apart, are read |
| Cfgs.LexReadsSpelled | kompilator/src/cfg.rs:117-171 | tokens spelled with any spacing are read back |
| Cfgs.Matches | kompilator/src/cfg.rs:49-63 | a platform is judged as its triple or its expression, with the errors of the source |
| Cfgs.MatchesIsMeaning | kompilator/src/cfg.rs:49-104 | a written `cfg(...)`, however spaced, matches exactly when the expression is true of the target |
| Cfgs.AcceptedHasAMeaning | kompilator/src/cfg.rs:49-104 | whatever is accepted is the writing of an expression, commas apart, and is judged by its meaning |
| Tables.InsertLosesNothing | kompilator/src/toml.rs:338-353 | one insertion keeps every scalar at its address, adds those of the value under its key, and no other |
| Tables.InsertIsRefusedIff | kompilator/src/toml.rs:338-353 | an insertion is refused exactly for an empty key, a key already set, or one that passes through anything but a table |
| Tables.OpenLosesNothing | kompilator/src/toml.rs:357-379 | opening a table moves no scalar |
| Tables.OpenFindsATable | kompilator/src/toml.rs:357-379 | opening gives the table that was there or a new empty one; a table of an array is always new |
| Tables.OpenAgain | kompilator/src/toml.rs:357-379 | an opened table is opened again as it is |
| Tables.LineLosesNothing | kompilator/src/toml.rs:408-421 | one line adds exactly the scalars of its value at its place |
| Tables.LineStaysInItsTable | kompilator/src/toml.rs:416-418 | a line's value is found in the table its state is at, under its key, and the next line goes into the same table |
| Tables.LinesGoWhereTheHeaderOpenedIff | kompilator/src/toml.rs:389-417 | after a header lines go into the table it opened exactly when no part of its path is the reader's own mark |
| Tables.LineTakesAFreePlace | kompilator/src/toml.rs:338-353 | a line finds its place free and takes it |
| Tables.DocumentLosesNothing | kompilator/src/toml.rs:382-424 | over any statements the scalars are exactly those there before and those placed by lines |
| Tables.NoPlaceIsTakenTwice | kompilator/src/toml.rs:348-350 | no two lines of a document place a value at one address |
| Trees.Tree.Insert | kompilator/src/toml.rs:338-353 | the descending loop changes the root as the recursive insertion at the address does, or fails the same way |
| Trees.Tree.Open | kompilator/src/toml.rs:357-379 | the descending loop gives the root and address of the recursive opening, or fails the same way |
| Toml.Escape | kompilator/src/toml.rs:136-164 | a read escape advances the cursor, and passes the end only over digits the end cuts short |
| Toml.ReadValue | kompilator/src/toml.rs:258-334 | a value that is read advances the cursor and ends within the text |
| Toml.ReadStatement | kompilator/src/toml.rs:389-421 | a header or line that is read advances the cursor and ends within the text, which ends the reader |
| TomlReader.Reader.ReadEscape | kompilator/src/toml.rs:136-164 | the method with its cursor gives exactly the reading of the function |
| TomlReader.Reader.ReadBasicString | kompilator/src/toml.rs:166-206 | the same for basic strings of both kinds |
| TomlReader.Reader.ReadLiteralString | kompilator/src/toml.rs:208-242 | the same for literal strings of both kinds |
| TomlReader.Reader.ReadDottedKey | kompilator/src/toml.rs:105-134 | the same for dotted keys |
| TomlReader.Reader.ReadNextValue | kompilator/src/toml.rs:258-334 | the same for values |
| TomlReader.Reader.ReadItems | kompilator/src/toml.rs:263-280 | the same for the loop over an array |
| TomlReader.Reader.ReadFields | kompilator/src/toml.rs:281-305 | the same for the loop over an inline table |
| TomlReader.ParseText | kompilator/src/toml.rs:382-424 | the loop over a document gives exactly the tables, refusal or crash of the recursive reading |
| TomlDocuments.ReadTextLosesNothing | kompilator/src/toml.rs:382-424 | the scalars of a text that is read are exactly those its lines place, each at an address of its own |
| TomlRoundTrip.StringIsRead | kompilator/src/toml.rs:166-206 | every string, escaped, is read back |
| TomlRoundTrip.NumberIsRead | kompilator/src/toml.rs:314-322 | every 64-bit integer in decimal is read back |
| TomlRoundTrip.ValueIsRead | kompilator/src/toml.rs:258-334 | every string, integer, boolean, array and nested inline table is read back from its writing |
| TomlRoundTrip.WrittenIsReadBack | kompilator/src/toml.rs:382-424 | a table written as `key = value` lines is read back, to the end of the text |
| TomlRoundTrip.EveryTableIsReadFromLines | kompilator/src/toml.rs:382-424 | every table without floats is read from some text of such lines |
| TomlCut.ParseCrashesIff | kompilator/src/toml.rs:147-188 | a text stops the program exactly when it ends inside the digits of an escape and the part before that escape is refused for a multi-line string left open |
| TomlCut.DocumentAgrees | kompilator/src/toml.rs:382-424 | from any place and state, a text cut in an escape stops the program exactly when the part before it leaves a multi-line string open |
| TomlMark.MarkedHeaderLosesItsLine | kompilator/src/toml.rs:389-417 | under a header that spells the mark as an escaped key, any written line goes into the root and the opened table stays empty |
| TomlCrash.CutStringCrashesIff | kompilator/src/toml.rs:174-188 | a multi-line string of a text cut in an escape stops the program exactly when the text before that escape leaves it open |
| TomlCrash.OpenStringCrashes | kompilator/src/toml.rs:147-188 | every document of one open multi-line string, plain up to a cut escape, stops the program |
| TomlCrash.ShortDocumentCrashes | kompilator/src/toml.rs:147-188 | a concrete such document |
| Sha256.LogicBits | kompilator/src/sha256.rs:31-41 | and, exclusive or and complement of words, bit by bit |
| Sha256.RotateRightBits | kompilator/src/sha256.rs:31-40 | a rotation moves each bit down, around the end |
| Sha256.ShiftRightBits | kompilator/src/sha256.rs:31-32 | a shift moves each bit down and fills with zeros |
| Sha256.ZerosAreLeast | kompilator/src/sha256.rs:21-23 | the padding adds the least number of zeros |
| Sha256.Padded | kompilator/src/sha256.rs:18-24 | the padded message is whole blocks of 64 bytes, so none is dropped |
| Sha256.PaddingIsInjective | kompilator/src/sha256.rs:18-24 | two messages shorter than 2^61 bytes never have the same padding |
| Sha256.Pad | kompilator/src/sha256.rs:18-24 | the padding loop gives the padded message of FIPS 180-4, section 5.1.1 |
| Sha256.Fill | kompilator/src/sha256.rs:26-34 | the array filled in place is the recursive message schedule |
| Sha256.Compress | kompilator/src/sha256.rs:35-54 | the loop over eight variables is 64 recursive rounds and the final additions |
| Sha256.Hex | kompilator/src/sha256.rs:15-57 | the digits are those of the recursive hash of FIPS 180-4, section 6.2.2 |

## Left out

- ResolutionIsLeast: assumes, of the forced facts only, that the lines of an enabled alias an active weak entry names are all enabled and one unit, and that the implicit `x` of an active `x/f` is no declared feature; each condition is shown needed by an example in `FeatureSurprises`, not by an equivalence.
- OrderOfAskingIsInvisible: the same two conditions.
- CacheIsInvisibleIff: `--bin` and `--out` stay the same (neither is in an identity), no compilation fails, no file changes during a build, and what an identity pins is what the build sees.
- EqualNamesAreAlike: takes the hash as injective; the 64-bit hasher is not modelled, and the sorted list of edges is a multiset.
- Which characters beyond ASCII count as letters or digits in `cfg(...)` is a parameter, `more` of `Cfgs.Target`; white space is the one of Unicode.
- WrittenIsReadBack: floats and dates keep their text and are not written.
- Collect: reading a manifest from disk, the registry or Git is a parameter, and so is finding the root package.
- Insert and open as such work on values; `Trees.Tree` changes one root and names the table it works on by its address instead of a reference.
- Error messages are reduced to what they are about; line numbers in them are left out.
- TOML texts are characters, not UTF-8 bytes; the source is given valid UTF-8 and never splits a character. Nesting too deep for the call stack is not modelled.
- Running `rustc`, build scripts, `git` and `curl`, the file system, the environment, locks and clocks: their results are inputs, parameters or events.
- Threads are the order of events: any order in which each started task sends interfaces and then ends once.
- Reading whole manifests, workspaces, profiles, dep-info files, compiler messages, search paths, `links` metadata and the flags of `rustc`.
- Command line, catalog tables, desktop package, `--revision` export and all of `stado-rs`.
