# Yanc, verified

A Dafny model of the core of Yanc, a control plane for software defined networks: the schema
filesystem it is built on, and the OpenFlow adapter that feeds it. `dafny verify dfyconfig.toml`
checks everything.

## What is modelled

**The schema filesystem** (`fs/schemafs.c`, `fs/libschema.c`). A schema is a forest of named, typed
nodes. `_fill` turns it into a tree of entries; mkdir, rmdir, create, symlink, unlink, rename and
batches written to compound files change that tree in place.

* `Text`, `Globs`, `Schemas`, `Namespace`: strings and paths as the C library sees them, patterns,
  schema forests, and the filesystem's abstract value: a map of numbered entries with a parent, a
  chain of children and attributes.
* `Operations`: each FUSE operation as a function on that value, and `Runs`: sequences of them.
* `Grafting`, `Relinking`, `Lookup`, `Renaming`, `Creating`, `Instantiation`, `Neatness`,
  `Conformance`, `Naming`, `Freeing`, `Undoing`, `Observing`: what the operations and all runs of them
  keep, change and undo. `Outcomes`: what each operation answers and changes. `Patterns`: what patterns
  mean, without the matcher.
* `Duplicates`, `Visibility`, `Shadows`: where sibling names stop being distinct, for all entries and
  for the visible ones, with inputs.
* `Ents`, `SchemaFs`: the same operations on objects with `parent`, `next` and `children` pointers.
  Every method is proved to do to the represented value what the function in `Operations` does, so
  the theorems hold of the pointers. `Serving` runs any list of operations; `Compound` parses and
  runs batches, and `Batches` says what their lines mean and what their writes leave.
* `Bytes`, `SchemaCodec`, `LibSchema`: the packed form of a schema, as a codec and on objects with a
  growing buffer.
* `RawFile`, `Integers`, `Addresses`, with `Numerals` and `Attributes`: the typed attribute values of
  `fs/types.c` and the `Eth` and `IP32` classes that read and write the same texts.

**The OpenFlow adapter** (`apps/of-adapter/src`).

* `Framing`: message boundaries in a byte stream against a reference parser.
* `Handshake`: what one connection's messages do: its switch, what that is handed, what is sent.
* `Connections`: all connections together under any interleaving of events. `Adapter`: the same on
  buffers, cursors and the map of switches, and `Listening`: whole runs of events on those objects.
* `Wire`: messages octet by octet.
* `ActionList`, `OFActions`, `ActionOctets`: action lists from words, their octets, and reading them back.

## How the code was read

* **Lookups without a leading slash.** `schemafs_search` climbs to the root exactly when the path has
  no leading slash, though the comments at `fs/schemafs.c:530` and `:542` want such lookups to start
  at the given entry. The model follows the code. So the duplicate checks of mkdir and rename look
  into the root directory, and "sibling names stay distinct" is false of the code. `Duplicates` and
  `Shadows` give inputs; `MkdirUniqueIff`, `RenameUniqueIff` and `MkdirConservativeIff` say exactly when
  the property holds.
* **Names are patterns.** Find-or-create reads every name on a chain as a pattern
  (`fs/schemafs.c:103`), also those that mkdir, rename and batches gave. `Globs` reads patterns as
  `fnmatch` does, with `*`, `?`, brackets and backslashes. A new name can so hide a sibling from the
  scan (`MarkShadows`). The theorems over whole runs ask of each step that it does not (`Careful`);
  `ApplyNeatIff` and `RunNeatIff` show that this is exact, `PlainCareful` that names without special
  characters are enough.
* **Names.** A lookup can only ask for names that are not empty, not "." or ".." and have no slash
  (`Ordinary`). Templates are compared by value. The templates of a chain are tidy when no name
  precedes one that it equals or matches (`TidyForest`); theorems that need it require it of the mounted
  schema.
* **Duplicate names.** The kernel looks a name up before it passes on a mkdir, so a second mkdir of a
  visible path does not reach `_mkdir` as a system call; a compound file reaches it without the kernel
  (`BatchMakesTwice`, `TwoSwitches`). Three ways lead there by system calls: a rename onto an existing
  file is passed on and leaves the name twice (`RenameOnto`); a mkdir or rename to the name of a hidden
  entry, which looks absent, puts a second, visible one beside it (`MkdirLooksAbsent`, `RenameOnto`);
  and a directory named like a pattern makes find-or-create repeat what it matches (`MarkShadows`).
  `MkdirVisibleIff` and `RenameVisibleIff` say when the visible names stay distinct.
* **Kernel guards.** `_rename` and `_rmdir` rely on the kernel not to pass on a move of the root, a
  move into the moved subtree or into a file, or a removal of the root. These are preconditions
  (`RenameLegal`, `RmdirLegal`) where the code would not notice; `MoveIntoItself` shows what the second
  one prevents. A line `rmdir /` of a compound file reaches `_rmdir` without the kernel
  (`fs/schemafs.c:611-614`), which then follows the root's null parent; `RemovesRoot` states that such a
  batch is not a legal run.
* **`_fill` and siblings.** Called for a single entry, `_fill` also instantiates the template's next
  siblings; the caller overwrites `next` and drops them. `LinkNew` does the same. `_fill` never sets
  `children` of files and links: null here.
* **`mkdir` on an OBJECT** makes a SUBDIR template from the OBJECT's children, as the code does.
* **Failed find-or-create.** Entries made for earlier components stay when a later one fails, and when
  create or symlink then refuse the entry. The states say so.
* **Values.** A file's `set` function is a parameter of runs (`Setter`); `RawFile`, `Integers` and
  `Addresses` model those functions.
* **Numbering.** Entries have numbers only in the abstract value; a ghost map ties them to objects.
* **`_pack`** keeps writing through pointers into the old buffer after `realloc` moved it; the model's
  buffer keeps its offset when it moves. So the model says what the code does exactly as long as the
  buffer does not move, which is when the packed form is no longer than `BUFSIZ` (`SchemaPack`).
* **`switches[&cxn]`** enters null pointers. They count as no switch, and the invariants are over
  non-null entries.
* **Unsupported versions.** The constructor of `OFSwitch` returns normally for a version it reports as
  unsupported, so such a connection gets a switch. The model follows the code.
* **`vlan_pcp`** stores an `htons` in a byte, on a little-endian host always 0 (`AskedIsWrittenIff`).
* **recv** delivers one byte to as many as asked for, or fails. The code asks for as much as a header
  declares, though the buffer holds 4096 bytes. "recv never writes past the buffer" is false of it for
  longer declared messages (`OversizedHello`); `StaysInBuffer` and `WithinRunIff` say exactly when it
  holds, and `Listen` takes that condition on the bytes the peers send. Whether a switch's directory can
  be made is an input.

## Model

| member | source | states |
|---|---|---|
| Text.TokensJoin | fs/schemafs.c:30-62 | strtok_r on a path joined with a slash yields the components of both parts in order |
| Text.BreakupPath | util/util.c:21-39 | dirname and basename split a path into all components but the last, and the last |
| Text.PosixNames | util/util.c:21-39 | the examples POSIX gives for basename and dirname |
| Namespace.FindName | fs/schemafs.c:48-57 | the walk along a sibling chain returns the first entry of that name, none only when no entry has it |
| Lookup.ResolveAppend | fs/schemafs.c:40-62 | looking up a list of components and then another is looking up their concatenation |
| Lookup.SearchJoin | fs/schemafs.c:21-68 | looking up p and then /q from what it found is looking up p/q; for an empty p, which finds nothing, this holds if and only if /q is not found either |
| Lookup.SearchRelative | fs/schemafs.c:34-38 | without a leading slash the given start is ignored: the lookup runs from the root |
| Lookup.DotsNeutral | fs/schemafs.c:42-46 | "." components change nothing |
| Lookup.DotDotClimbs | fs/schemafs.c:42-44 | ".." follows one parent pointer and stops at the root |
| Lookup.PlainGoesDown | fs/schemafs.c:40-62 | a lookup without ".." ends in the subtree of its start |
| Lookup.PathsAreEntries | fs/schemafs.c:21-68 | with distinct sibling names a path of ordinary components finds an entry if and only if it spells the names on the way from the root to it |
| Lookup.OwnPath | fs/schemafs.c:21-68 | every entry is found under its own path |
| Relinking.ClimbsToRoot | fs/schemafs.c:36-38 | in a tree every entry reaches the one root through parent |
| Grafting.InitialTree | fs/schemafs.c:162-234 | what _init builds from any schema is a tree: disjoint finite sibling chains, each parent the owner of the chain |
| Grafting.GraftTree | fs/schemafs.c:106-110 | instantiating any template in front of a chain keeps the tree |
| Relinking.MoveTree | fs/schemafs.c:561-581 | relinking an entry outside its own subtree keeps the tree |
| Relinking.MoveIntoItself | fs/schemafs.c:579-581 | relinking an entry below itself, which the kernel refuses, would not give a tree |
| Relinking.CutTree | fs/schemafs.c:413-428 | taking a subtree out keeps the tree |
| Operations.ApplyTree | fs/schemafs.c:360-584 | every operation keeps the tree, given what the kernel checks first (RenameLegal, RmdirLegal) |
| Runs.Run | fs/schemafs.c:682-705 | a run of any length from a tree ends in a tree |
| Instantiation.InitialInstance | fs/schemafs.c:162-220 | every entry of a fresh mount is an instance of its schema node |
| Instantiation.MountMirrorsSchema | fs/schemafs.c:162-220 | on a fresh mount a path without ".." finds an entry if and only if schema_search finds a node without passing below an OBJECT, and the entry then has that node as its schema |
| Instantiation.ResolveInstance | fs/libschema.c:123-170 | the same from any instance: lookup in the filesystem and in the schema walk in step above all OBJECTs |
| Globs.Literal | fs/schemafs.c:103 | a name with none of the characters * ? [ and backslash matches itself and nothing else |
| Globs.Transitive | fs/schemafs.c:103 | a name made from a pattern of the schema, used as a pattern again, yields only names of that pattern, provided it has no bracket and no backslash |
| Globs.BracketsNotTransitive | fs/schemafs.c:103 | with a bracket it need not: *] matches [a], which matches a, which *] does not |
| Globs.BackslashNotTransitive | fs/schemafs.c:103 | nor with a backslash: * matches \., which matches . alone, which * does not |
| Globs.MarkNotTransitive | fs/schemafs.c:103 | nor does it hold of a pattern that is more than stars: ? matches *, which matches ab |
| Patterns.MatchesIff | fs/schemafs.c:103 | a pattern matches a text if and only if the text can be cut into consecutive pieces, one for each element of the pattern: any piece for a star, one fitting character for anything else |
| Patterns.StarryElements | fs/schemafs.c:103 | in a pattern with stars only every other character stands for itself |
| Patterns.OneStar | fs/schemafs.c:103 | a star takes whatever is between what is before it and what is behind it |
| Patterns.StarMatchesAll | fs/schemafs.c:103 | a star alone takes every text |
| Patterns.PeriodIff | fs/schemafs.c:103 | a name that starts with a period is matched only by a pattern that starts with one, quoted or not |
| Patterns.StarNames | fs/schemafs.c:103 | the names of a pattern with one star, with both rules |
| Patterns.OutputTwo | schema.txt:61 | for one: the pattern output-* takes output-2 |
| Patterns.MarkIff | fs/schemafs.c:103 | a question mark takes any one character |
| Patterns.QuotedIff | fs/schemafs.c:103 | a backslash makes the next character stand for itself |
| Patterns.BracketIff | fs/schemafs.c:103 | brackets take one of the characters between them, after ! or ^ one that is not |
| Patterns.RangeIff | fs/schemafs.c:103 | a range takes one character from its first to its last |
| Patterns.ClosingMember | fs/schemafs.c:103 | a closing bracket in the first place is a member |
| Patterns.DashMember | fs/schemafs.c:103 | so is a dash in the last place |
| Patterns.QuotedMember | fs/schemafs.c:103 | and any character behind a backslash |
| Patterns.UnclosedIff | fs/schemafs.c:103 | a bracket that is never closed stands for itself |
| Namespace.Probe | fs/schemafs.c:100-115 | the scan returns the first sibling that has the name, or whose name as a pattern matches it |
| Operations.MakeWalk | fs/schemafs.c:90-122 | find-or-create keeps chains and parents well formed also when it fails half way |
| Outcomes.MkdirIff | fs/schemafs.c:360-381 | each answer of mkdir if and only if its case holds: ENOENT without a visible directory, EPERM in what is no OBJECT, EEXIST when the lookup of the name from there finds something, success otherwise; refusals change nothing |
| Outcomes.MkdirChanges | fs/schemafs.c:393-397 | a successful mkdir puts one new entry in front of the directory's children and changes no other entry |
| Outcomes.RmdirIff | fs/schemafs.c:405-411 | rmdir succeeds if and only if the path finds a visible SUBDIR, answers ENOTDIR if and only if it finds another visible entry, and ENOENT if and only if it finds nothing or a hidden one; refusals change nothing |
| Outcomes.CreateIff | fs/schemafs.c:436-450 | create answers ENOENT, EPERM or success if and only if find-or-create ends nowhere, at a link or directory, or at a file, which it then unhides, and nothing else |
| Outcomes.SymlinkIff | fs/schemafs.c:452-464 | symlink likewise for links, which get their target |
| Outcomes.UnlinkIff | fs/schemafs.c:466-478 | unlink succeeds if and only if the path finds a visible link, which it hides and empties, and nothing else; EPERM for another visible entry, ENOENT for none |
| Outcomes.RenameIff | fs/schemafs.c:522-555 | each answer of rename if and only if its case holds: ENOTDIR, EEXIST, ENOENT, success; refusals change nothing |
| Outcomes.RenameChanges | fs/schemafs.c:558-581 | a rename gives the moved entry its name and parent, takes it off one chain and puts it in front of the other, and changes nothing else |
| Outcomes.RenameLeaves | fs/schemafs.c:561-575 | the chain it leaves keeps the order of the others |
| Outcomes.WriteSets | fs/schemafs.c:616-629 | write sets the value of the visible file its path finds to what the setter makes of the old value and the data, changes nothing else, and the path still finds the file |
| Outcomes.WriteElsewhere | fs/schemafs.c:624-629 | for a hidden entry, a directory, a link or nothing it changes nothing |
| Outcomes.ReadlinkIff | fs/schemafs.c:480-493 | readlink answers with a target if and only if the path finds a visible link that has it |
| Outcomes.LinkSteps | fs/schemafs.c:452-478 | as steps of a run: after unlink the path sees no link, after symlink it reads as the target |
| Creating.MakeSoundIdempotent | fs/schemafs.c:70-130 | after find-or-create returned an entry, plain lookup finds that entry and creating again returns it and changes nothing, when no component, read as a pattern, matches another |
| Creating.WildcardFreeApart | fs/schemafs.c:103 | names without special characters are no patterns for each other |
| Creating.PatternMeansAbsent | fs/schemafs.c:100-115 | where no pattern stands before a sibling it matches, a pattern hit means the name is not there yet |
| Creating.CreationConservativeIff | fs/schemafs.c:106-111 | prepending a new entry keeps every earlier lookup if and only if its name was not in that directory |
| Creating.GraftKeepsLookup | fs/schemafs.c:106-111 | a lookup that succeeded before the creation of an absent name finds the same entry after it |
| Outcomes.CreateByPatternIff | fs/schemafs.c:98-115 | where a file called a*b is the only child to stop the scan for a new name, create makes a visible file of its template under exactly the names that start with a and end with b, and otherwise answers ENOENT and changes nothing |
| Runs.MakeConservative | fs/schemafs.c:70-130 | where no entry stops the scan for a later one, find-or-create whose new names hide no sibling keeps everything that resolved before |
| Neatness.InitialNeat | fs/schemafs.c:162-234 | a tidy schema mounts into a filesystem where no entry stops the scan for the name of a later sibling, by name or as a pattern |
| Neatness.GraftNeatIff | fs/schemafs.c:106-110 | prepending an instance of a tidy template keeps that if and only if its name, by name or as a pattern, takes no sibling of it |
| Neatness.MoveNeatIff | fs/schemafs.c:561-581 | so does a move, if and only if the new name takes no other child of the target directory |
| Neatness.CutNeat | fs/schemafs.c:413-428 | so does removing a subtree |
| Runs.ApplyNeatIff | fs/schemafs.c:360-584 | an operation keeps that if and only if none of the names it makes takes a sibling (Careful) |
| Runs.RunNeatIff | fs/schemafs.c:682-705 | all states of a run have it if and only if every operation of the run is careful |
| Runs.PlainCareful | fs/schemafs.c:360-584 | operations whose new names have none of the characters * ? [ and backslash, on paths that name nothing yet where they make or rename, are careful |
| Runs.MountedRunNames | fs/schemafs.c:360-584 | from a tidy schema, after any careful run sibling names are distinct and a path of ordinary names finds an entry if and only if it spells the names on the way to it |
| Runs.DuplicateCheck | fs/schemafs.c:378 | the duplicate check consults the children of the root, whatever the target directory is |
| Runs.MkdirUniqueIff | fs/schemafs.c:360-403 | a successful mkdir keeps sibling names distinct if and only if its path named nothing before |
| Runs.RenameUniqueIff | fs/schemafs.c:522-584 | a successful rename does so if and only if its new path named nothing, or the moved entry itself |
| Runs.MkdirConservativeIff | fs/schemafs.c:360-403 | mkdir keeps every earlier lookup if and only if its path named nothing before |
| Runs.MkdirFound | fs/schemafs.c:360-403 | after mkdir of a path without ".." the path finds the new entry: a SUBDIR made of the OBJECT's template, in the directory the path's dirname found |
| Duplicates.MkdirRefuses | fs/schemafs.c:366-381 | in an OBJECT directory mkdir fails with EEXIST if and only if the root has a child of that name |
| Duplicates.MkdirTwice | fs/schemafs.c:378-381 | making a directory twice, under any name, is refused if and only if it lies directly in the root; elsewhere the second call succeeds and leaves two children of one name |
| Duplicates.RunRootKept | fs/schemafs.c:360-584 | no run of operations replaces the root or its template |
| Duplicates.MkdirAlwaysTwice | fs/schemafs.c:366-381 | where the root is a SUBDIR, as the parser makes it (fs/schema.y:35-39), a mkdir that succeeded on a path naming nothing always succeeds a second time, and two siblings then share a name |
| Duplicates.MountedMkdirTwice | fs/schemafs.c:360-403 | so it does after any careful run of operations on any mount of a tidy schema |
| Duplicates.BatchMakesTwice | fs/schemafs.c:586-619 | two equal mkdir lines in a compound file, which no kernel lookup comes between, leave two siblings of one name |
| Duplicates.MadeTwice | fs/schemafs.c:360-403 | a family of concrete mounts and paths on which two identical mkdir calls both succeed |
| Duplicates.TwoSwitches | fs/schemafs.c:586-619 | for one: on a mount of a root with an empty OBJECT called switches, a batch making /switches/s1 twice makes it twice |
| Duplicates.OwnNameRefused | fs/schemafs.c:378-381 | a family of concrete mounts on which mkdir refuses a path that names nothing |
| Renaming.RenameElsewhere | fs/schemafs.c:561-581 | a walk that neither enters the moved entry nor asks the target directory for the new name resolves as before |
| Renaming.RenameCases | fs/schemafs.c:522-584 | every walk without ".." is of that kind, passes the old place, or asks for the new name |
| Renaming.MoveUniqueIff | fs/schemafs.c:576-581 | a move keeps sibling names distinct if and only if no other entry of the target directory has the name |
| Runs.RenameReroots | fs/schemafs.c:522-584 | after a rename every ".."-free suffix resolves below the new path to what it found below the old one, and the old path with any suffix resolves no more |
| Runs.RenameOthers | fs/schemafs.c:522-584 | every other path of ordinary components resolves as before |
| Renaming.RemovePaths | fs/schemafs.c:405-434 | after rmdir a path resolves as before if it never entered the removed entry, and not at all otherwise |
| Renaming.RemoveExactly | fs/schemafs.c:405-434 | the entries left are the earlier ones outside the subtree, unchanged but for the parent's chain, which loses the removed entry only |
| Freeing.FreesSubtree | fs/schemafs.c:132-160 | schemafs_free releases the whole subtree, each entry once, and nothing else, when only directories in it have children |
| Freeing.FreesSubtreeIff | fs/schemafs.c:137-142 | it releases exactly the subtree if and only if only directories in it have children |
| Freeing.UnderSplits | fs/schemafs.c:139-142 | below a directory lie exactly the subtrees of its children |
| Freeing.FreesChildrenFirst | fs/schemafs.c:132-160 | no entry is released before one that lies below it |
| Freeing.FreesLaterFirst | fs/schemafs.c:134-136 | later siblings are released, with all below them, before earlier ones |
| Freeing.RunFreesWhatItCuts | fs/schemafs.c:405-434 | after any run from a mount, a successful rmdir takes out exactly the entries that are then freed, each once |
| Shadows.MakeStepUniqueIff | fs/schemafs.c:98-115 | a step of find-or-create keeps sibling names distinct if and only if it does not create a name the directory already has |
| Shadows.ShadowedIff | fs/schemafs.c:360-450 | two directories made under different names: create of a file in the first then makes that directory a second time if and only if the second name, read as a pattern, matches the first |
| Shadows.MarkShadows | fs/schemafs.c:360-450 | for one: mkdir /switches/sx, mkdir /switches/s?, create /switches/sx/foo leaves sx there twice |
| Shadows.AgainIff | fs/schemafs.c:70-130 | find-or-create on c/../d with both names from one pattern changes nothing when done again if and only if d, read as a pattern, does not match c |
| Visibility.MkdirVisibleIff | fs/schemafs.c:360-403 | a successful mkdir keeps the names of visible siblings distinct if and only if its name has a star or no visible child of the directory has it |
| Visibility.MkdirLooksAbsent | fs/schemafs.c:360-403 | while names are distinct, one mkdir of a path that looks absent keeps visible names distinct, but puts its name beside a hidden entry of that name, if there is one |
| Visibility.RenameVisibleIff | fs/schemafs.c:522-584 | a successful rename keeps visible names distinct if and only if no other visible child of the new directory has the new name |
| Shadows.RenameOnto | fs/schemafs.c:522-584 | renaming a file of a SUBDIR to the name of another entry there succeeds and leaves the name twice: both visible when that is a file, one of them hidden when it is a link without a target, which looks absent |
| Shadows.RenameOntoFile | fs/schemafs.c:522-584 | for one: /d/a renamed to /d/b |
| Undoing.CutGraft | fs/schemafs.c:413-428 | cutting out a new entry takes back exactly what grafting it added |
| Undoing.MkdirRmdir | fs/schemafs.c:360-434 | a directory just made on a path that named nothing can be removed again, and then every entry is as before |
| Undoing.MoveBack | fs/schemafs.c:561-581 | moving an entry away and back leaves it first among its siblings and changes nothing else |
| Undoing.RenameBack | fs/schemafs.c:522-584 | renaming back restores every lookup from every entry |
| Undoing.RenameBackIff | fs/schemafs.c:542-547 | renaming back is let through if and only if the old directory is not hidden and the root then has no child of the old name |
| Observing.SymlinkReadlink | fs/schemafs.c:452-493 | after a successful symlink, readlink on the path gives the target, when no component of the path is a pattern for another |
| Observing.CreateVisible | fs/schemafs.c:436-450 | after a successful create on such a path, it finds a visible file |
| Observing.UnlinkSymlink | fs/schemafs.c:452-493 | an unlinked link reads as absent, and making it again with its target restores the state exactly, reusing its entry |
| Observing.MakeFindsExisting | fs/schemafs.c:98-115 | where no pattern precedes what it matches, find-or-create returns what the plain lookup finds and creates nothing |
| Observing.CreateOnLinkPattern | fs/schemafs.c:436-445 | create where only a pattern for links matches is refused with EPERM, yet leaves a visible link without a target |
| Observing.OthersKept | fs/schemafs.c:436-478 | create, symlink, unlink and write change no earlier entry but their target, except that directories gain children |
| Observing.ReadlinkAt | fs/schemafs.c:480-493 | _readlink on pointers returns what the specification says, and leaves the target in the buffer as strncpy does, cut or filled up with NULs |
| Observing.CopiedWholeIff | fs/schemafs.c:488-489 | the buffer then holds the target as a C string if and only if it is longer than the target |
| Conformance.ApplyConforms | fs/schemafs.c:360-478 | every operation but rename keeps each entry's template one that its parent's admits, whatever names it is given |
| Conformance.MoveConformsIff | fs/schemafs.c:558-581 | a rename keeps it if and only if the new parent's template admits the entry's |
| Conformance.MountedRunConforms | fs/schemafs.c:162-478 | after any run without rename a SUBDIR's children have schemas from its template, an OBJECT's are SUBDIR instances of its children, and only directories have children |
| Naming.GraftNamedIff | fs/schemafs.c:106-110 | a new entry keeps all names such as their templates allow if and only if its own is: the template's name or a match of it, without brackets and backslashes |
| Naming.MoveNamedIff | fs/schemafs.c:576-581 | a rename does if and only if the moved entry's own template allows the new name |
| Naming.MountedRunNamed | fs/schemafs.c:162-478 | from a schema whose names have stars as their only special characters, as fs/schema.l:28 lets through, any run without rename that makes directories under such names and uses no bracket or backslash in paths of create and symlink leaves every name such as its template allows |
| Shadows.BracketsMisname | fs/schemafs.c:98-111 | create [a] and then create a, under a schema of files called *], leave a file a that the schema does not allow |
| Shadows.Misnamed | fs/schemafs.c:98-111 | so it goes for every pattern, a name c it matches, and a name that c matches and the pattern does not |
| Ents.Fill | fs/schemafs.c:162-220 | _fill on objects: a separate fresh object per visible schema node with its name, parent, links, hidden flag and empty value |
| Ents.NumberBuilt | fs/schemafs.c:162-220 | the objects _fill builds represent the instance of the schema the lookup theorems speak about |
| Ents.LinkNew | fs/schemafs.c:106-110 | the new object stands in front of the directory's children and nothing else changed |
| Ents.UnlinkRep | fs/schemafs.c:413-425 | skipping an object in its parent or predecessor represents the chain without it |
| Ents.MoveRep | fs/schemafs.c:579-581 | the three pointer stores of rename represent the moved entry |
| Ents.CutRep | fs/schemafs.c:427-428 | dropping the unlinked subtree's objects represents the tree without it |
| SchemaFs.Mount.constructor | fs/schemafs.c:222-234 | _init: the mounted objects represent the initial state |
| SchemaFs.Mount.FindChild | fs/schemafs.c:48-57 | the loop along next pointers finds the object of the first entry of the name |
| SchemaFs.Mount.Climb | fs/schemafs.c:36-38 | the climb along parent pointers ends at the root |
| SchemaFs.Mount.Search | fs/schemafs.c:21-68 | schemafs_search on pointers returns the object of the entry the lookup function finds, or null |
| SchemaFs.Mount.Scan | fs/schemafs.c:98-115 | the scan of schemafs_fnmatch on pointers agrees with its specification, exact hit or pattern hit |
| SchemaFs.Mount.Make | fs/schemafs.c:70-130 | schemafs_fnmatch with create=1 on pointers makes the specified state and returns its entry's object |
| SchemaFs.Mount.Mkdir | fs/schemafs.c:360-403 | _mkdir on pointers: same result and same new state as the specification, for every path |
| SchemaFs.Mount.Create | fs/schemafs.c:436-450 | _create on pointers, likewise |
| SchemaFs.Mount.Symlink | fs/schemafs.c:452-464 | _symlink on pointers, likewise |
| SchemaFs.Mount.Unlink | fs/schemafs.c:466-478 | _unlink on pointers, likewise |
| SchemaFs.Mount.Predecessor | fs/schemafs.c:568-575 | the loop for the predecessor finds it, so the assertion behind it holds |
| SchemaFs.Mount.TakeOff | fs/schemafs.c:561-574 | unlinking on pointers represents the chain without the entry |
| SchemaFs.Mount.Rename | fs/schemafs.c:522-584 | _rename on pointers: same result and same new state as the specification; no object is made or lost |
| SchemaFs.Mount.Rmdir | fs/schemafs.c:405-434 | _rmdir on pointers: same result and state, and the objects freed are exactly those of the specified order |
| SchemaFs.Free | fs/schemafs.c:132-160 | schemafs_free on pointers visits the objects in the specified order |
| SchemaFs.Mount.WriteAt | fs/schemafs.c:616-629 | the write command on pointers sets the value of a visible file, and of nothing else |
| Serving.Serve | fs/schemafs.c:682-705 | a mount serving any list of operations ends in the state of the abstract run, so every theorem about runs holds of the pointer structure |
| Compound.PrintParses | fs/schemafs.c:602-619 | a printed command is parsed back to itself |
| Compound.LineCommands | fs/schemafs.c:602-619 | the words mkdir, rmdir and write stand for their operations, with the rest of the line as their arguments |
| Batches.OtherCommand | fs/schemafs.c:630-632 | any other word does nothing |
| Batches.LastWriteStays | fs/schemafs.c:666-671 | after a batch, a file has the value its setter made of the last write that reached it |
| Compound.ScriptCommands | fs/schemafs.c:650-671 | a batch printed one command per line, blank lines allowed, asks for exactly its commands in order |
| Compound.CommandsSplit | fs/schemafs.c:659-671 | cutting a buffer at a newline gives two batches asking for the same commands in turn |
| Compound.RunAppend | fs/schemafs.c:666-671 | running two lists of operations in turn is running their concatenation |
| Compound.LineHandler | fs/schemafs.c:591-635 | a line applies its command, and nothing when the command is unknown |
| Compound.Handler | fs/schemafs.c:650-679 | the handler leaves the state that applying the commands of the buffer in order gives |
| Compound.Batch | fs/schemafs.c:586-679 | writing a printed batch leaves the same tree and values as applying the operations in order |
| Compound.RemovesRoot | fs/schemafs.c:611-614 | a batch `rmdir /` asks for the removal of the root, which is not legal where the root is a visible SUBDIR |
| SchemaCodec.RoundTrip | fs/libschema.c:16-61 | unpacking the packed bytes of a schema followed by any rest rebuilds names, types, order and nesting and stops exactly at the rest |
| SchemaCodec.RoundTripIff | fs/libschema.c:65-117 | a schema with storable names and counts survives the trip if and only if no leaf has children |
| SchemaCodec.RecordOctets | fs/libschema.c:5-14 | a record is type, number of children and number of later siblings, four octets each, and the name with a NUL |
| SchemaCodec.KindCodes | fs/schema.h:7-24 | types are numbered in the order of the header |
| SchemaCodec.PackedOctets | fs/libschema.c:16-50 | for one: the octets of a directory with one file |
| SchemaCodec.UnpackBare | fs/libschema.c:90-101 | whatever is unpacked has children under directories only |
| SchemaCodec.PackPrefixFree | fs/libschema.c:16-61 | equal streams of packed schemas and rests come from equal schemas and rests |
| LibSchema.SchemaLen | fs/libschema.c:213-221 | schema_len counts the chain in 32 bits |
| LibSchema.PackInto | fs/libschema.c:16-50 | _pack appends exactly the packed form to the buffer, which moves only when it does not fit |
| LibSchema.SchemaPack | fs/libschema.c:52-61 | the bytes written are the packed form; the end returned is that of the buffer, which is still the first one if and only if the form is no longer than BUFSIZ |
| LibSchema.UnpackFrom | fs/libschema.c:65-109 | _unpack builds fresh, separate objects for the decoded chain with correct parent pointers and consumes exactly its bytes |
| LibSchema.Copied | fs/libschema.c:16-117 | packing and unpacking copies a storable schema with bare leaves; beyond BUFSIZ packed bytes this is about the model's buffer, not the stale one of the code |
| Framing.SplitSound | apps/of-adapter/src/yanc_of_adapter.cc:111-170 | the reference parser loses and adds no byte, cuts whole messages of max(8, declared length) bytes, and leaves less than a message |
| Framing.SplitUnique | apps/of-adapter/src/yanc_of_adapter.cc:111-170 | there is no other way to cut a stream into whole messages and an incomplete one |
| Framing.SplitMore | apps/of-adapter/src/yanc_of_adapter.cc:125-162 | parsing may stop anywhere and go on from what was left |
| Framing.ReceiveSplits | apps/of-adapter/src/yanc_of_adapter.cc:125-165 | one call of receive_data agrees with the reference parser; the branch with nothing remaining is never taken |
| Framing.Progress | apps/of-adapter/src/yanc_of_adapter.cc:128-137 | a call that dispatches nothing makes the buffered part longer, and within a message the bytes missing fewer by exactly those received |
| Framing.FeedSplits | apps/of-adapter/src/yanc_of_adapter.cc:111-170 | for every way recv cuts the bytes, the messages dispatched and the bytes kept are those of the reference parser |
| Framing.FeedConserves | apps/of-adapter/src/yanc_of_adapter.cc:111-170 | messages dispatched followed by the buffered prefix are all bytes received |
| Framing.FragmentationIndependent | apps/of-adapter/src/yanc_of_adapter.cc:111-170 | two fragmentations of the same bytes dispatch the same messages and keep the same prefix |
| Framing.SomethingArrives | apps/of-adapter/src/yanc_of_adapter.cc:125-133 | any 65535 bytes contain a complete message |
| Wire.LengthOctets | apps/of-adapter/src/yanc_of_adapter.cc:126-133 | the length is the third and fourth octet, the higher first; a message has as many octets, at least eight |
| Wire.StreamOctets | apps/of-adapter/src/yanc_of_adapter.cc:111-170 | for one: a HELLO, an ECHO_REQUEST and two octets more are cut into two messages and a rest |
| Framing.StaysInBuffer | apps/of-adapter/src/yanc_of_adapter.cc:135-138 | over any delivery recv is never asked to write beyond the buffer if and only if the bytes declare no message longer than it |
| Framing.HeaderOverflows | apps/of-adapter/src/yanc_of_adapter.cc:128-138 | any header that declares more than the buffer holds is such a delivery: the next call asks for more than there is room |
| Framing.OversizedHello | apps/of-adapter/src/yanc_of_adapter.cc:128-138 | the smallest input for 4096 bytes: a HELLO that declares 4097 |
| Handshake.Lifecycle | apps/of-adapter/src/of_network.cc:51-145 | a connection's messages in order determine everything: it has a switch if and only if one was an accepted FEATURES_REPLY, the switch is handed exactly the switch-directed messages after the first such one, and the replies are one HELLO, a FEATURES_REQUEST per HELLO before it, and every echo |
| Wire.BareOctets | apps/of-adapter/src/of_network.cc:147-169 | a message without a body is eight octets: version 1, its type, length 8, xid 0 (OpenFlow 1.0.0, section 5.1) |
| Wire.FreshOctets | apps/of-adapter/src/of_network.cc:34-38 | a new connection is sent a HELLO and has no switch |
| Wire.SentOctets | apps/of-adapter/src/of_network.cc:57-77 | what every message makes the adapter send, in octets: 1 5 0 8 and xid 0 for a HELLO without a switch, the request with type 3 for an ECHO_REQUEST, nothing else |
| Wire.InboxOctets | apps/of-adapter/src/of_network.cc:79-145 | what every message does to the switch, by its type octet: 6 introduces one when its ports are whole, 8, 10 and 11 are handed to it, others are not |
| Wire.HelloExchange | apps/of-adapter/src/of_network.cc:61-68 | for one: a HELLO is answered with a FEATURES_REQUEST |
| Wire.EchoExchange | apps/of-adapter/src/of_network.cc:74-77 | for one: an ECHO_REQUEST comes back as type 3 |
| Wire.FeaturesExchange | apps/of-adapter/src/of_network.cc:79-97 | for one: a FEATURES_REPLY of 80 octets introduces a switch, one of 81 does not |
| Handshake.TakeAllSplits | apps/of-adapter/src/yanc_of_adapter.cc:111-170 | pieces of the stream leave a connection as if the reference parser had cut its bytes |
| Handshake.PeerFragmentationIndependent | apps/of-adapter/src/yanc_of_adapter.cc:111-170 | two fragmentations leave the connection, its switch and its replies in the same state |
| Handshake.EchoUnmodified | apps/of-adapter/src/of_network.cc:74-77 | a well-formed ECHO_REQUEST comes back with version, length, xid and payload unchanged (OpenFlow 1.0.0, sections 5.5.2 and 5.5.3) |
| Connections.StepSound | apps/of-adapter/src/of_network.cc:40-95 | one event keeps created minus deleted equal to the switches owned, touches no other connection's switch, and takes a switch away only with its connection |
| Connections.RunSound | apps/of-adapter/src/of_network.cc:40-95 | over every interleaving of events, switches created minus deleted are the non-null entries, all owned by live connections, and each buffer holds less than a message |
| Connections.Isolated | apps/of-adapter/src/yanc_of_adapter.cc:111-170 | a connection's buffer, switch and replies after any run depend on its own events only |
| Connections.LiveConnection | apps/of-adapter/src/yanc_of_adapter.cc:73-170 | in any run a live connection has dispatched exactly the messages of its bytes, buffers exactly the rest, and has the switch those messages amount to |
| Connections.WithinRunIff | apps/of-adapter/src/yanc_of_adapter.cc:111-170 | over any run of events recv stays within the buffers if and only if no connection, while open, declares a longer message |
| Adapter.OFNetwork.HandleMessage | apps/of-adapter/src/of_network.cc:51-145 | handle_message on the map of switches does what the state machine says, and nothing to other connections |
| Adapter.OFNetwork.ClosedConnection | apps/of-adapter/src/of_network.cc:40-49 | the switch of a closed connection is deleted and its entry erased |
| Adapter.YancOFAdapter.NewSwitch | apps/of-adapter/src/yanc_of_adapter.cc:73-109 | a new connection has an empty buffer of its own and is sent a HELLO |
| Adapter.YancOFAdapter.ReceiveData | apps/of-adapter/src/yanc_of_adapter.cc:111-170 | receive_data on buffers and cursors makes exactly the specified step of the world for every delivery, error or end of stream, when the buffer has room for what recv is asked |
| Listening.Listen | apps/of-adapter/src/yanc_of_adapter.cc:73-170 | from start on, any possible run of connections, deliveries and ends in which no message is declared longer than the buffers leaves the objects in the world of the abstract run, so every theorem about runs holds of them |
| Adapter.TakeCases | apps/of-adapter/src/yanc_of_adapter.cc:158-165 | a call dispatches nothing, or exactly one message and empties the buffer |
| ActionList.WalkPutAll | apps/of-adapter/lib/openflow-legacy/openflow-1.0.h:350-442 | walking a stored list by the length in each header gives the actions back in order with their fields, over whatever padding |
| OFActions.Fill | apps/of-adapter/src/of_actions.cc:7-64 | fill stores the actions of the recognised words over the buffer, leaves all other bytes, and returns the sum of the lengths in 16 bits |
| OFActions.FillWalks | apps/of-adapter/src/of_actions.cc:7-64 | walking the buffer by the headers' lengths recovers exactly the written actions; the bytes behind them are untouched; the length is a multiple of 8 |
| OFActions.AskedIsWrittenIff | apps/of-adapter/src/of_actions.cc:83-89 | what is read back is what the line asks for if and only if it sets no VLAN priority other than 0 |
| OFActions.PriorityLost | apps/of-adapter/src/of_actions.cc:83-89 | for one: the line vlan_pcp with the priority 3 writes the priority 0 |
| OFActions.LengthAligned | apps/of-adapter/src/of_actions.cc:63 | the returned length is a multiple of 8 even where 16 bits cut it short |
| Addresses.IP32.Address | lib/C++/ip32.cc:38-41 | address() is the number whose network form is the four octets |
| OFActions.FillAction | apps/of-adapter/src/of_actions.cc:66-132 | each fill_* writer stores type, length and fields and leaves the padding |
| ActionOctets.WordOctets | apps/of-adapter/src/of_actions.cc:7-132 | the octets each of the eleven words stores, with the field it stands for, over any buffer |
| ActionOctets.OtherWord | apps/of-adapter/src/of_actions.cc:53-56 | any other word stores nothing |
| ActionOctets.SpaceIff | apps/of-adapter/src/of_actions.cc:15 | words end at white space of the C locale |
| ActionOctets.LineJoin | apps/of-adapter/src/of_actions.cc:10-16 | a line of more words stores what its parts store, in order |
| ActionOctets.PutAllJoin | apps/of-adapter/src/of_actions.cc:58 | the parts are stored one behind the other |
| RawFile.RawEntry.Set | fs/types.c:252-271 | after any sequence of writes the size is the furthest end and every covered byte is that of the last write covering it |
| RawFile.RawEntry.Get | fs/types.c:233-250 | a read returns the content from the offset, at most the asked size, and fails beyond the end |
| RawFile.SizeIsMaximum | fs/types.c:257-266 | the size is the maximum of offset plus length over all writes, zero without writes |
| RawFile.LastWriteWins | fs/types.c:268-269 | a byte some write covered is the one the last such write put there |
| RawFile.BlocksCover | fs/types.c:233-250 | reading consecutive blocks of any sizes gives exactly the content |
| RawFile.ReadAtIff | fs/types.c:233-250 | a read behind the end of a content, and only that, is out of range; otherwise it returns the bytes from the offset on, as many as there are and fit |
| Addresses.MacTrip | fs/types.c:301-350 | a printed Ethernet address is scanned back, with and without field widths, newline or not |
| Addresses.ScanGroups | fs/types.c:323-324 | any groups of digits with separators between them are read as their octets, up to the number asked for, whatever their length and case |
| Addresses.BlankIff | fs/types.c:335-336 | a text is blank if and only if the C string has nothing but white space |
| Addresses.Attribute.SetMac | fs/types.c:312-350 | _set_mac stores the number of the six octets, which is what _get_mac prints, and reports 18 bytes; a single number is stored as strtoull reads it; other text changes nothing, and the error is that of errno where the input ended |
| Addresses.Attribute.SetIp32 | fs/types.c:373-405 | _set_ip32 stores octets and mask (32 when missing), which is what _get_ip32 prints, and reports the printed length without the newline; other text changes nothing, and the error is that of errno where the input ended |
| Addresses.IpTrip | fs/types.c:354-405 | a printed IPv4 address with mask is scanned back |
| Addresses.MacPrinted | fs/types.c:301-310 | an Ethernet address is printed as two hexadecimal digits for each octet, with colons between them |
| Addresses.IpPrinted | fs/types.c:354-371 | an IPv4 address is printed in decimal with periods, and the mask behind a slash |
| Addresses.DigitsPrinted | fs/types.c:305-368 | the digits are lower-case and the higher comes first |
| Addresses.DigitValues | fs/types.c:323 | digits of either case are read |
| Addresses.NoMask | fs/types.c:381-385 | without a mask four octets are read |
| Addresses.Unmasked | fs/types.c:381-405 | an address set without a mask reads back with the mask 32 |
| Addresses.EthTrip | lib/C++/eth.cc:17-72 | every 48-bit value survives the trip number, Eth, text, attribute, text, Eth, number |
| Addresses.IpTripThrough | lib/C++/ip32.cc:17-46 | every octet tuple and mask survives the trip IP32, text, attribute, text, IP32 |
| Addresses.Eth.InitNumber | lib/C++/eth.cc:25-36 | a number converts back to itself, and is refused if and only if it needs more than 48 bits |
| Integers.IntEntry.Set | fs/types.c:79-229 | a decimal text is stored wrapped to the type's width; in range it is shown canonically; size is the shown length; bad or long text changes nothing |
| Integers.WriteBack | fs/types.c:13-229 | writing back what an integer attribute shows is accepted and keeps its value and what it shows; its size is then that of the shown text, which a fresh entry does not report yet |
| Integers.TextSpells | fs/types.c:13-75 | the canonical text of a number is read as that number |
| Integers.ScansNumber | fs/types.c:13-75 | white space, an optional sign and digits, up to what is no digit, are read as their number |
| Integers.ScansNothing | fs/types.c:13-75 | without a digit there is no number |
| Integers.UnsignedWraps | fs/types.c:79-153 | an unsigned attribute stores a number modulo its width, and the largest value for 2^64 and more |
| Integers.SignedWraps | fs/types.c:155-229 | a signed one stores it modulo its width; beyond 64 bits it stores the nearest number of 64 bits so |
| Integers.Widths | fs/types.c:79-229 | the widths are those of the C types |
| Integers.SmallWraps | fs/types.c:79-229 | for one: 300, 200 and -1 in eight bits |
| Integers.CanonicalIff | fs/types.c:13-229 | two texts in range show alike if and only if they spell the same number |
| Numerals.NumeralTrip | fs/types.c:13-75 | a printed numeral in base 10 or 16 has the value it was printed from |
| Bytes.Be48Back | lib/C++/eth.cc:62-72 | six octets are the network form of the number they make |
| Bytes.Orders | apps/of-adapter/src/of_actions.cc:66-132 | network order starts with the highest octet, memory order with the lowest |

## Left out

* FUSE mounting, getattr, readdir, chmod, chown, times, ownership and modes: single
  assignments or plumbing.
* Concurrent operations: FUSE may run several at once and the source takes no lock; the model runs one at a time.
* File handles: reads and writes go to the entry itself, not through an open file.
* malloc and realloc failure, leaks and double frees; "freed exactly once" is kept for `schemafs_free`.
* The parser of schema texts; its output shape (children under OBJECT and SUBDIR nodes only) is a
  precondition where it is needed.
* Globs.First: character classes, equivalence classes and collating symbols in brackets, and the places where an
  `fnmatch` gives up on a bracket that is never closed; here such a bracket stands for itself.
* The pointer version of `schema_search`; its result for ".."-free paths is `Schemas.SchemaResolve`.
* `schema_printf`: its table of names does not match the enum.
* `_set_str`'s trimming and `_truncate` (a stub).
* Addresses.ScanList: reads digits only; the spaces and signs `sscanf` also accepts before a number, and the `0x` that
  `%hhx` accepts, are not modelled.
* Addresses.Attribute.SetMac: what `strtoull` reads and the `errno` it leaves are inputs.
* Addresses.Attribute.SetIp32: the `errno` left by earlier calls, returned when the text is blank, is an input.
* Integers.IntEntry: reads by a buffer shorter than the text, which `snprintf` would cut, are not modelled.
* RawFile.RawEntry: bytes that no write covered are arbitrary, as `realloc` leaves them.
* Compound.LineHandler: requires the spaces the code steps over, and a target other than the root for `rmdir`; without
  them it would follow a null pointer.
* Compound.Handler: likewise for every line of the buffer (`LinesOk`, `LegalRun`).
* Compound.Batch: likewise for a removal of the root.
* SchemaFs.Mount.Rmdir: requires a target other than the root, whose null parent the code would follow.
* LibSchema.PackInto: does not model that the code writes through the old buffer once `realloc` has moved it.
* LibSchema.SchemaPack: likewise, for packed forms longer than `BUFSIZ`.
* LibSchema.Copied: likewise.
* Adapter.YancOFAdapter.ReceiveData: requires room in the buffer for what this call asks of recv, which the code does
  not check; writes beyond the buffer are not modelled. `Listening.Listen` derives it from the bytes sent.
* Listening.Listen: requires that no connection declares a message longer than its buffer; by `WithinRunIff` those are
  all the runs in which recv stays within the buffers.
* What a switch does with a message (ports, packet-in directories, D-Bus signals), the names of switch
  directories, epoll and sockets; a switch is a list of the messages handed to it.
* Reading attribute files for `OFActions`: their values are inputs.
* Port descriptions, match wildcards, the OpenFlow 1.0 to 1.1 conversion, and error-name tables.
* `RingBuffer` and the comparison operators of the support library.
