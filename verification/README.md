# sshPilot: a verified model of its GTK-free core

This project models ten pieces of sshPilot in Dafny and proves what they are for. Each `.dfy` file is one
module; `dafny verify dfyconfig.toml` checks them all.

| piece | modules |
|---|---|
| the `authorized_keys` reader and printer | `AuthorizedKeys`, `AuthorizedKeysGrammar`, `AuthorizedKeysLines`, `AuthorizedKeysTokens`, `AuthorizedKeysScan`, `AuthorizedKeysRoundTrip`, `AuthorizedKeysCases`, `AuthorizedKeysFile`, `AuthorizedKeysEdits`, `AuthorizedKeysParser` |
| the three-way settings merge and its save protocol | `Config`, `ConfigProtocol`, `ConfigStore` |
| SSH config stanzas, host import, Include repair | `SshConfig`, `ShellWords`, `ConfigLines`, `HostMerge`, `HostHeader`, `HostImport`, `HostBlocks`, `IncludeRepair`, `IncludeCondition`, `IncludeReach` |
| closing the dylib graph of the macOS bundle | `DylibClosure`, `DylibReport` |
| terminal autocompletion | `LineTracker`, `CommittedLines`, `SessionHistory`, `Suggestions`, `BestSuggestions`, `RemoteHistory`, `HistoryOrigins` |
| planning a group delete | `GroupDelete` |
| saving the remote `authorized_keys` over SFTP | `AtomicSave`, `AtomicSaveBackup`, `AtomicSaveService` |
| converting an `ssh` command line | `ForwardSpec`, `CommandConverter`, `CommandAccounting`, `CommandRecords`, `CommandVanish`, `CommandMeanings`, `CommandRoundTrip` |
| sorting connections and groups | `Ordering`, `ConnectionSort`, `NameOrder` |
| the `.spbk` backup container | `Container`, `ContainerUnlocking` |

`Text` holds the parts of Python's `str` the others rely on. Code that works by loops and updated fields is a
method or a class here, proved equal to a specification function; the theorems are about those functions. What
such a function reads is told a second time without it: option lists, key lines, shell words, Host lines,
forwarding rules and time stamps have a grammar, and the function returns a result exactly if the text is written
that way; what it writes or reports is told by the lines, names and steps it stands for.

## What the proofs found

Where a property one would expect does not hold of the code, the model keeps the code, and the theorem says
exactly when the property holds.

- **An edited key line can read back as something else.** `ssh-rsa, ssh-dss K` has the unknown option
  `ssh-rsa`; reprinted without the comma it becomes the key type (`ReprintedOptionBecomesKeytype`). In
  `foo ssh-rsa,pty ssh-dss K` it is enough that known options are written first
  (`ReorderedOptionBecomesKeytype`). Whatever line it was read from, an entry reads back exactly when its option
  text is legible - nothing in front is trimmed, it does not look like a comment, and the scanner crosses it,
  quotes closed, without meeting a key type - or, without options, its key can follow the key type
  (`ReadLineRoundTrip`); with plain option names, exactly when the option text is no key type
  (`PlainLineRoundTrip`). An edited entry must not end in blanks either, if it is disabled (`DirtyRoundTrip`).
- **A setting put back to its loaded value is silently dropped when another process has changed it**
  (`RestoredValueIsDropped`): the merge sees no edit. A value that was set is there after a save exactly when
  the snapshot did not hold it already, or the file holds it too, and an object is not written in part
  (`SetThenSave`).
- **A save can lose settings of another process in one way and settings of its own in another.** A section that
  is no object in the snapshot or no longer one in the edit - new, removed, or turned into a leaf - is written
  as it stands over what the file has (`MergeKeepsUntouched`, `SaveKeepsOther`, `ConcurrentSectionIsLost`); and
  an object whose loaded value the file does not hold is written in part (`WrittenExactly`,
  `FilledObjectIsWrittenInPart`). A tree that is given explicitly is not merged, so it loses what it has
  differently for others (`ReplaceLosesNothing`). Over any run nothing is lost if and only if no save meets one
  of these (`NoLostUpdates`); with the sections in place and only leaves filled in, none does
  (`SteadyRunIsSafe`).
- **A host name with a blank, split off a partly colliding block, is imported again every time** unless
  something else declares it (`SpacedNameIsImportedAgain`, `SplitNameComesBack`). A second import is empty if and
  only if every name split off the first time is declared by then (`ImportIsIdempotent`). A rebuilt header reads
  back as its names if and only if each name is one word without quotes or backslashes, the first is not led by
  `=` and no blank ends the last, unless the shell lexer refuses the header and splitting at blanks gives the
  names (`HeaderReadsBack`).
- **The Include repair can cut off hosts.** It removes the whole line of a fragment Include, with every other
  file named on it; hosts that were reached only that way are gone, and the next import adds them
  (`SharedIncludeLosesHosts`). The repair keeps every name of the tree if and only if what the removed lines
  reached is declared elsewhere (`RepairKeepsReach`), and merging twice adds nothing exactly when the imported
  names are still reached and the split-off names are declared (`MergeTwiceAddsNothing`).
- **An Include line with an unbalanced quote makes every import start over.** The resolver gives up, the names
  of the fragment are not seen, and each merge appends the same blocks again (`BrokenIncludeImportsAgain`).
- **A main file or fragment that cannot be read is taken for empty and overwritten** as soon as the import holds
  anything new (`UnreadableIsOverwritten`).
- **The Include repair on its own never settles** (`NormalizeNeverSettles`); the guard around it does
  (`EnsureIncludeIdempotent`). It also drops a blank line that would otherwise be all that is left
  (`RepairKeepsContext`).
- **An absolute path of the build machine can stay in the bundle, unreported**: exactly when it has no base name
  or the binary's own, or when its library was in the bundle from the start, but only below the root
  (`AbsoluteSurvivesExactly`, `BuildPathSurvives`).
- **The session cache keeps a zsh time stamp that the recomputation strips.** The two are equal at every moment
  if and only if no line has one to strip, a bare stamp that is in front already aside (`CacheIsRecomputation`,
  `StampedLineDiffers`).
- **A rename that took effect but was answered with an error can lose `authorized_keys`.** The fallback then
  removes the new file and has nothing to rename. This is the only way: crash safety holds exactly when it
  does not happen (`SaveIsCrashSafe`, `LateErrorLosesKeys`).
- **Command-line arguments vanish.** Always: unparsable `-L`/`-R`/`-D` specifications, `-o` without `=`, an
  `-o Port=` that is no number, an `IdentitiesOnly` that is neither yes nor no (`DroppedExactly`). In the command
  at hand, the connection is the same without an option exactly when it does nothing, a later one overrules it,
  or it sets what was already so (`ForgottenExactly`): `-J ,`, `-oForwardAgent=/tmp/s` and any other value that
  is not yes, a bare `@` before the host, the first of `-i a -i b`.
- **A remote host whose fetch thread cannot be started stays pending for ever** (`StuckForEver`).
- **A manifest over 64 MiB is written without complaint and refused on reading** (`ContainerRoundTrip`).
- **A corrupt parent map defeats deepest-first deletion**: as soon as the subtree holds a group that is its own
  ancestor, some group is removed while it still has a child (`CascadeIsSafe`).

Where the code and its own words disagree, the model follows the code: the comment on `_parse_forward_spec`
says callers keep an unparsable specification in `unparsed_args`, but they drop it; `docs/command-converter.md`
says `-l` sets the user name, but it goes to `unparsed_args`; the docstring of `save` says the existing
`authorized_keys` is renamed to the backup, but it is copied; the comment on the scrypt ceilings speaks of
about 1 GiB, but the product check allows 256 MiB; the docstring of `_select_new_host_blocks` says a partly
colliding stanza is skipped, but its new names are imported; the docstring of `_merge_ssh_config_fragment` says
it is idempotent, which the points above qualify; a comment in `close_dylib_graph` says an absolute
build-machine path must never survive into the bundle, but the paths above do.

## Model

| member | source | states |
|---|---|---|
| `AuthorizedKeysGrammar.TokenizeIs` | src/sshpilot/authorized_keys_parser.py:146-189 | the tokenizer returns a list of options if and only if the text spells it: names alone, bare values up to the next comma, quoted values with their escapes, an open quote at the end, and the separators between them |
| `AuthorizedKeysGrammar.TokenizeSpelled` | src/sshpilot/authorized_keys_parser.py:146-189 | however a list of options is spelled, what is read is what it means |
| `AuthorizedKeysGrammar.SpellingOf` | src/sshpilot/authorized_keys_parser.py:146-189 | every text spells some list of options |
| `AuthorizedKeysLines.SplitLineIs` | src/sshpilot/authorized_keys_parser.py:192-251 | a line splits into fields if and only if it spells them: the key type first, or option text that the scan crosses and then a key type; it spells one set of fields at most |
| `AuthorizedKeysLines.FieldsOfIs` | src/sshpilot/authorized_keys_parser.py:301-354 | a line is a key line, enabled or disabled, exactly when it spells one: indentation, repeated spaces and a `#` without a space after it included |
| `AuthorizedKeysLines.ParseLineIs` | src/sshpilot/authorized_keys_parser.py:301-354 | the reader returns an entry if and only if the line spells it, with the options its option text spells, and keeps a line as plain text exactly when it spells none |
| `AuthorizedKeysTokens.TwoPassesEscape` | src/sshpilot/authorized_keys_parser.py:289-298 | the two replacement passes escape every backslash and quote exactly once |
| `AuthorizedKeysTokens.UnquoteEscape` | src/sshpilot/authorized_keys_parser.py:146-189 | the tokenizer's unescaping inverts the printer's escaping for every value and every following text |
| `AuthorizedKeysTokens.ScanEscaped` | src/sshpilot/authorized_keys_parser.py:192-251 | the line scanner's own quote loop agrees: it crosses an escaped value without leaving the quotes |
| `AuthorizedKeysTokens.TokenizePrinted` | src/sshpilot/authorized_keys_parser.py:146-189 | tokenizing a printed option list gives back the options, whatever the names without separators, and values with quotes, commas and spaces |
| `AuthorizedKeysTokens.ScanPrinted` | src/sshpilot/authorized_keys_parser.py:192-251 | with plain names, the line scanner leaves a printed option list outside quotes and finds no key type in it |
| `AuthorizedKeysTokens.QuoteBeforeSpace` | src/sshpilot/authorized_keys_parser.py:289-298 | with plain names, a space in a printed option list only follows an opening quote |
| `AuthorizedKeysScan.ScanOptions` | src/sshpilot/authorized_keys_parser.py:192-251 | for any option text: the scanner stands at its end, outside quotes, if it crosses it, and otherwise never takes it for the option text |
| `AuthorizedKeysScan.TrimmedDiffers` | src/sshpilot/authorized_keys_parser.py:146-189 | option text that lost blanks at either end never reads as the same unknown options |
| `AuthorizedKeysRoundTrip.PrintedOptions` | src/sshpilot/authorized_keys_parser.py:269-298 | the printed option text tokenizes and classifies back into the known and the unknown options, in order |
| `AuthorizedKeysRoundTrip.SplitBody` | src/sshpilot/authorized_keys_parser.py:192-251 | a printed line whose front can be read splits into exactly its option text, key type, key and comment |
| `AuthorizedKeysRoundTrip.SplitFacts` | src/sshpilot/authorized_keys_parser.py:192-251 | for every line that splits: the key type is one, the key has no space and, without options, begins with text; a line that ends in text has its last field end in text |
| `AuthorizedKeysRoundTrip.ReadBackMeans` | src/sshpilot/authorized_keys_parser.py:301-377 | a printed line that reads as the entry met every condition |
| `AuthorizedKeysRoundTrip.DirtyRoundTrip` | src/sshpilot/authorized_keys_parser.py:301-377 | a dirty entry reads back field for field if and only if its option text is legible or, without one, its key can stand first, and nothing at the end of a disabled line is trimmed |
| `AuthorizedKeysRoundTrip.NormalIsIdentity` | src/sshpilot/authorized_keys_parser.py:269-298 | with only recognised, set options, what is read back is the entry itself |
| `AuthorizedKeysRoundTrip.ReprintFixpoint` | src/sshpilot/authorized_keys_parser.py:357-377 | what was recovered once prints the same line for ever |
| `AuthorizedKeysRoundTrip.ReadIsPrintable` | src/sshpilot/authorized_keys_parser.py:301-354 | every entry that was read, from whatever line, is in the terms of the round trip |
| `AuthorizedKeysRoundTrip.ReadLineRoundTrip` | src/sshpilot/authorized_keys_parser.py:301-377 | reprinting any line that was read gives the same entry back if and only if its option text is legible or, without one, its key can stand first |
| `AuthorizedKeysCases.PlainLineRoundTrip` | src/sshpilot/authorized_keys_parser.py:301-377 | with plain option names, if and only if its option text is no key type |
| `AuthorizedKeysCases.KeytypeOptionMisreads` | src/sshpilot/authorized_keys_parser.py:192-251 | the whole family of lines whose option is named like a key type does not survive reprinting |
| `AuthorizedKeysCases.ReprintedOptionBecomesKeytype` | src/sshpilot/authorized_keys_parser.py:192-251 | one such line, written out |
| `AuthorizedKeysCases.ReorderedOptionBecomesKeytype` | src/sshpilot/authorized_keys_parser.py:357-377 | a line whose options are reordered by printing, so that a key type comes to stand where the reader looks for one, whatever the key |
| `AuthorizedKeysFile.FileRoundTrip` | src/sshpilot/authorized_keys_parser.py:301-393 | printing what was read gives the text back if and only if LF is its only kind of line break, with or without a final one |
| `AuthorizedKeysFile.SetterEffect` | src/sshpilot/authorized_keys_parser.py:110-139 | a setter decides the values under its own name, and which; every other option stays, in its order, and nothing else changes but the mark as edited |
| `AuthorizedKeysFile.RepeatedKeeps` | src/sshpilot/authorized_keys_parser.py:134-139 | a list of values is stored value for value, in order; an empty one anywhere makes no difference |
| `AuthorizedKeysFile.EditOneLine` | src/sshpilot/authorized_keys_parser.py:357-393 | replacing one item changes one line of the text and keeps the final newline as it was |
| `AuthorizedKeysFile.PrintedClean` | src/sshpilot/authorized_keys_parser.py:357-377 | a break-free dirty entry prints as one non-empty line |
| `AuthorizedKeysFile.ParsedClean` | src/sshpilot/authorized_keys_parser.py:301-354 | an entry read from one line holds no line break in any field |
| `AuthorizedKeysFile.EditsStayLocal` | src/sshpilot/authorized_keys_parser.py:110-139 | after any setters on one entry every other line is byte-identical and every other item reads the same |
| `AuthorizedKeysEdits.EditedEntryReadsBack` | src/sshpilot/authorized_keys_parser.py:110-393 | after any setters on any entry of a file, reading the written file gives the edited entry and every other item unchanged, if and only if the entry's line can be read back; with recognised names it is the edited entry itself |
| `AuthorizedKeysParser.ReadQuoted` | src/sshpilot/authorized_keys_parser.py:146-189 | the index loop over a quoted value computes the unescaped value and where it ends |
| `AuthorizedKeysParser.TokenizeOptions` | src/sshpilot/authorized_keys_parser.py:146-189 | the index-driven tokenizer refines the recursive one, and its result is the one list of options that the text spells |
| `AuthorizedKeysParser.ScanForKeytype` | src/sshpilot/authorized_keys_parser.py:215-251 | the quote-aware scan for the key type refines its recursive form |
| `AuthorizedKeysParser.SplitLine` | src/sshpilot/authorized_keys_parser.py:192-251 | the line splitter refines its specification, and returns fields exactly when the line spells them |
| `AuthorizedKeysParser.ClassifyOptions` | src/sshpilot/authorized_keys_parser.py:269-286 | known options keep their order, the others are stored in printed form |
| `AuthorizedKeysParser.AuthorizedKeyEntry.GetOption` | src/sshpilot/authorized_keys_parser.py:113-117 | the first value under the name, if any |
| `AuthorizedKeysParser.AuthorizedKeyEntry.SetFlag` | src/sshpilot/authorized_keys_parser.py:122-126 | the object takes exactly the specified setter step and becomes dirty |
| `AuthorizedKeysParser.AuthorizedKeyEntry.SetValue` | src/sshpilot/authorized_keys_parser.py:128-132 | likewise for a value or its removal |
| `AuthorizedKeysParser.AuthorizedKeyEntry.SetRepeatable` | src/sshpilot/authorized_keys_parser.py:134-139 | likewise for a list of values |
| `AuthorizedKeysParser.ParseFile` | src/sshpilot/authorized_keys_parser.py:301-354 | fresh, distinct entry objects whose values are the specified reading of the text |
| `AuthorizedKeysParser.SerializeEntry` | src/sshpilot/authorized_keys_parser.py:357-377 | a clean entry prints its raw line, a dirty one its rebuilt line |
| `AuthorizedKeysParser.Serialize` | src/sshpilot/authorized_keys_parser.py:380-393 | the printed text of the current values of all items |
| `AuthorizedKeysParser.OneEntryChanges` | src/sshpilot/authorized_keys_parser.py:110-139 | changing one entry object changes one item of the list and no other |
| `Config.NoChangeIsIdentity` | src/sshpilot/config.py:251-270 | merge(b, b, t) = t |
| `Config.MergeOntoBase` | src/sshpilot/config.py:251-270 | merge(b, c, b) = c for all trees |
| `Config.MergeOntoChanged` | src/sshpilot/config.py:251-270 | merge(b, c, c) = c for all trees |
| `Config.MergeIdempotent` | src/sshpilot/config.py:251-270 | merging the same edit twice is merging it once |
| `Config.MergeCommutes` | src/sshpilot/config.py:251-270 | two edits may be saved in either order if and only if no path is changed differently by both |
| `Config.WrittenExactly` | src/sshpilot/config.py:251-270 | merge(b, c, t) = c if and only if t holds the same wherever b and c agree, in every object both have |
| `Config.MergeInPlace` | src/sshpilot/config.py:251-270 | the loop over the union of keys, updating its target, computes the merge |
| `ConfigProtocol.LookupSetSame` | src/sshpilot/config.py:566-589 | a setting reads back what was set |
| `ConfigProtocol.LookupSetOther` | src/sshpilot/config.py:580-589 | and leaves every setting that is neither above nor below it alone |
| `ConfigProtocol.MergeAtPath` | src/sshpilot/config.py:251-270 | what a merge leaves at any setting, for all trees: the file's value, the edited one, or the merge of two objects |
| `ConfigProtocol.MergeKeepsUntouched` | src/sshpilot/config.py:232-270 | an untouched setting keeps what the file has if and only if no section above it was replaced, or the two agree anyway |
| `ConfigProtocol.MergeWritesChange` | src/sshpilot/config.py:232-270 | a changed setting is written as it stands if and only if it is not an object written in part |
| `ConfigProtocol.SetThenSave` | src/sshpilot/config.py:580-589 | a value that was set is there after the save if and only if the snapshot did not already hold it, or the file does too, and an object is not written in part |
| `ConfigProtocol.RestoredValueIsDropped` | src/sshpilot/config.py:260-267 | setting a value back to what was loaded leaves another process's value in place, for all trees |
| `ConfigProtocol.SaveKeepsOther` | src/sshpilot/config.py:232-270 | a save keeps another process's setting if and only if the shared sections existed at load time or there was nothing to lose |
| `ConfigProtocol.ConcurrentSectionIsLost` | src/sshpilot/config.py:255-259 | two processes creating one section, written out: the first setting is gone |
| `ConfigProtocol.FilledObjectIsWrittenInPart` | src/sshpilot/config.py:260-267 | an object the file lacks is written whole if and only if the edit leaves no entry of the loaded one in place, at any depth |
| `ConfigProtocol.StepKeepsInv` | src/sshpilot/config.py:89-230 | every edit, save, failed save, load and write of a given tree keeps the protocol invariant |
| `ConfigProtocol.SaveLosesNothing` | src/sshpilot/config.py:162-230 | one save leaves the file with each owner's last saved value if and only if it is safe for every setting |
| `ConfigProtocol.ReplaceLosesNothing` | src/sshpilot/config.py:162-230 | writing a given tree loses nothing if and only if it has the file's value for every setting of the others |
| `ConfigProtocol.NoLostUpdates` | src/sshpilot/config.py:89-270 | over any interleaving by any number of processes, with any defaults filled in and any trees written as given, the file holds at every moment each owner's last saved value if and only if every save is safe when it happens |
| `ConfigProtocol.SteadyRunIsSafe` | src/sshpilot/config.py:147-270 | with the sections in place and only leaves filled in, every save of every run is safe |
| `ConfigProtocol.FailedSaveKeepsEdit` | src/sshpilot/config.py:162-230 | a pending edit survives failed saves and everything others do, and the next successful save writes it if and only if it is safe for it |
| `ConfigProtocol.SetPathIsOwnEdit` | src/sshpilot/config.py:580-589 | setting one's own setting is an edit the protocol allows and keeps the sections there are |
| `ConfigStore.SettingsCache.MergeWithDisk` | src/sshpilot/config.py:232-270 | the tree to write, with every fallback for a missing, unreadable or non-object file |
| `ConfigStore.SettingsCache.SaveJsonConfig` | src/sshpilot/config.py:162-230 | a failed save changes nothing; a successful one leaves file, cache and snapshot equal |
| `ConfigStore.SettingsCache.ReloadStrict` | src/sshpilot/config.py:147-160 | refuses exactly the files that are unreadable or no object, and then leaves the cache alone |
| `ConfigStore.SettingsCache.GetSetting` | src/sshpilot/config.py:566-578 | the walk returns the looked-up value, or the default when a step is missing or no object |
| `ConfigStore.SettingsCache.SetSetting` | src/sshpilot/config.py:580-598 | after a failed save the value is in memory; after a successful one it is there exactly when it survives the merge |
| `ConfigStore.SettingsCache.SaveStep` | src/sshpilot/config.py:162-230 | the class takes exactly the protocol's save and failed-save steps |
| `ConfigStore.SettingsCache.ReplaceStep` | src/sshpilot/config.py:89-129 | a save of a given tree, as a load that fills in defaults makes it, is exactly the protocol's step |
| `SshConfig.StanzasPartition` | src/sshpilot/backup_manager.py:196-216 | the blocks in order are the lines; every block but a leading one starts at a Host or Match header and holds no other |
| `ConfigLines.KeywordIs` | src/sshpilot/backup_manager.py:174-183 | the directive of a line is its first word in lower case: after blanks, up to a blank or `=`, and not of a comment |
| `ConfigLines.RebuiltIs` | src/sshpilot/backup_manager.py:323-330 | a rebuilt header keeps the blanks in front of the old one, then `Host` and the names, and nothing else of it |
| `ConfigLines.HostLineIs` | src/sshpilot/backup_manager.py:186-194 | a Host line, taken apart: blanks, the word, blanks and `=`, the names, blanks |
| `ShellWords.ShlexIs` | src/sshpilot/backup_manager.py:186-194 | the shell lexer returns words if and only if the text is written as them: plain characters, backslashes, single and double quotes, and the blanks between words |
| `ConfigLines.WordsAre` | src/sshpilot/backup_manager.py:186-194 | splitting at whitespace returns the words that the text is without any quoting |
| `ConfigLines.PatternsAre` | src/sshpilot/backup_manager.py:186-194 | the patterns of a Host line are the shell words of its names part, or its words if it is no shell text |
| `ConfigLines.LineDeclares` | src/sshpilot/backup_manager.py:186-216 | a line declares a name exactly if it is a Host line with that name among its patterns |
| `HostMerge.NamesOfStanzas` | src/sshpilot/backup_manager.py:186-216 | collecting patterns by stanza finds exactly the patterns of the Host lines |
| `HostMerge.TextNamesJoin` | src/sshpilot/backup_manager.py:1439-1446 | appending to a file declares the hosts of both texts, no more |
| `HostMerge.ShlexJoin` | src/sshpilot/backup_manager.py:186-194 | the shell lexer splits plain names joined by spaces back into those names |
| `HostHeader.ShlexUsesUp` | src/sshpilot/backup_manager.py:186-194 | the lexer invents no quote or backslash and uses up the first one it meets outside quotes, for every text and state |
| `HostHeader.HeaderReadsBack` | src/sshpilot/backup_manager.py:186-194 | a rebuilt header reads back as its names if and only if they come back, for all names, quotes and backslashes included |
| `HostMerge.ReadableHeader` | src/sshpilot/backup_manager.py:323-330 | readable names are exactly what their header declares |
| `HostImport.ChosenDeclares` | src/sshpilot/backup_manager.py:290-333 | the block written for a stanza, body and trimming included, declares exactly what its header does |
| `HostImport.SelectsNothing` | src/sshpilot/backup_manager.py:290-333 | an import selects nothing and reports nothing if and only if every concrete name of every stanza exists |
| `HostImport.SecondImport` | src/sshpilot/backup_manager.py:290-333 | the same import again is empty if and only if the imported names that were there still are and every split-off name is declared |
| `HostImport.ImportIsIdempotent` | src/sshpilot/backup_manager.py:290-333 | with nothing lost in between, it is empty if and only if every split-off name is declared by the old hosts, the fragment or the written blocks |
| `HostImport.ReadableSplitsAreDeclared` | src/sshpilot/backup_manager.py:290-333 | readable split-off names are declared by what is written for them |
| `HostImport.SplitNameComesBack` | src/sshpilot/backup_manager.py:323-330 | a split-off name is split off again if and only if neither the rebuilt header nor the fragment declares it, for all names |
| `HostImport.SpacedNameIsImportedAgain` | src/sshpilot/backup_manager.py:323-330 | among unquoted names: any one that is empty or holds a blank and that nothing else declares brings its stanza back, for every stanza, fragment and set of names |
| `HostImport.IterConfigStanzas` | src/sshpilot/backup_manager.py:196-216 | the accumulator loop computes the partition |
| `HostImport.SelectNewHostBlocks` | src/sshpilot/backup_manager.py:290-333 | the loop over files and stanzas computes selected text, dropped count and collisions, whose lines and numbers `HostBlocks` tells |
| `HostBlocks.ImportedLines` | src/sshpilot/backup_manager.py:196-216 | every line of every imported text belongs to one stanza, in order |
| `HostBlocks.ChosenIs` | src/sshpilot/backup_manager.py:290-333 | a stanza is written exactly if it names a new host, and then with all its lines, up to blank ones at its end; rebuilt exactly if another of its names exists; counted as dropped exactly if it is for no single host |
| `HostBlocks.NewNamesInOrder` | src/sshpilot/backup_manager.py:317-330 | a name stands in a rebuilt header exactly if it is no pattern and does not exist, and in its place |
| `HostBlocks.ReportIs` | src/sshpilot/backup_manager.py:290-333 | the report of an import: how many stanzas were dropped, and the patterns of the colliding ones, in order |
| `HostBlocks.SelectionIs` | src/sshpilot/backup_manager.py:1431-1447 | the lines of the written fragment are the old ones and the lines of every chosen stanza, consecutively and in order |
| `HostBlocks.MergeWritesBlocks` | src/sshpilot/backup_manager.py:1408-1449 | a whole merge writes every stanza that names a new host, with all its lines, after the fragment there was, and nothing if there is none |
| `IncludeRepair.CleanedKeepsContext` | src/sshpilot/backup_manager.py:1475-1491 | removing the Includes keeps every other line, in order, under the same header; a marker goes only when nothing but removed lines lies between it and a removed Include |
| `IncludeRepair.NormalizeLines` | src/sshpilot/backup_manager.py:1475-1491 | the normalized file is the kept lines, padding and the three guarded lines |
| `IncludeRepair.NormalizedIsUnconditional` | src/sshpilot/backup_manager.py:1451-1491 | the normalized text has exactly one fragment Include, and the conditional check passes it |
| `IncludeRepair.RepairKeepsContext` | src/sshpilot/backup_manager.py:1475-1491 | each kept line is unchanged, in order, under the same Host or Match header; exactly when one blank line was all that was left, it goes |
| `IncludeRepair.EnsureIncludeIdempotent` | src/sshpilot/backup_manager.py:1493-1526 | once the resolver sees the fragment, ensuring again is a no-op |
| `IncludeRepair.NormalizeNeverSettles` | src/sshpilot/backup_manager.py:1475-1491 | without the guard every further normalization adds lines |
| `IncludeRepair.NormalizeKeepsNames` | src/sshpilot/backup_manager.py:1475-1491 | the repair declares no host and loses none |
| `IncludeReach.NormalizedReach` | src/sshpilot/core/ssh_config_effective.py:123-143 | the repaired file reaches what its kept Includes reach and what the new one does |
| `IncludeReach.EnsuredNamesAre` | src/sshpilot/backup_manager.py:1493-1526 | the names of the tree once the fragment Include is in place, from the tree before, a resolver that gives up included |
| `IncludeReach.RepairKeepsReach` | src/sshpilot/backup_manager.py:1475-1526 | the repair loses no name of the resolved tree if and only if what its removed lines reached is declared elsewhere or, should the resolver give up from then on, the main file declares all there was |
| `IncludeReach.MergeTwiceAddsNothing` | src/sshpilot/backup_manager.py:1408-1449 | the whole merge run twice, for every resolver, told from the tree before the first: the second adds nothing if and only if the imported names are still reached and the split-off names are declared or, should the resolver give up from then on, the main file declares every name |
| `IncludeReach.BrokenIncludeImportsAgain` | src/sshpilot/backup_manager.py:269-287 | a kept Include line that makes the resolver give up: every merge selects the same blocks again, and the line stays |
| `IncludeReach.UnreadableIsOverwritten` | src/sshpilot/backup_manager.py:1431-1447 | a merge of files that cannot be read is the merge of empty ones; such a file is left alone if and only if nothing is new |
| `IncludeReach.SharedIncludeLosesHosts` | src/sshpilot/backup_manager.py:1475-1491 | an Include that names another file beside the fragment in a Host block: the other file's hosts are lost and imported again |
| `IncludeRepair.FragmentIncludeIsConditional` | src/sshpilot/backup_manager.py:1451-1473 | the loop's verdict is that of the first stanza with a fragment Include |
| `IncludeCondition.ConditionIs` | src/sshpilot/backup_manager.py:1451-1473 | the fragment's Include counts as conditional if and only if the first one stands under a Host line, or under a Match line with another criterion than `all` |
| `IncludeRepair.NormalizeFragmentInclude` | src/sshpilot/backup_manager.py:1475-1491 | the loop with its marker pop computes the normalized text |
| `IncludeReach.ConfigTree.EnsureFragmentInclude` | src/sshpilot/backup_manager.py:1493-1526 | the main file becomes the ensured one and the fragment stays |
| `IncludeReach.ConfigTree.MergeFragment` | src/sshpilot/backup_manager.py:1408-1449 | the tree becomes the merged one, and the report is that of the selection against every name the resolved tree declares |
| `DylibClosure.LoaderPathResolves` | packaging/pyinstaller/dylib_closure.py:228-236 | a rewritten reference, followed from the binary's directory, leads to the file at the root |
| `DylibClosure.LeafNamesItsTail` | packaging/pyinstaller/dylib_closure.py:197-213 | a leaf reference names its library by its whole tail |
| `DylibClosure.LeafIs` | packaging/pyinstaller/dylib_closure.py:205-213 | a reference is a leaf exactly if it is a plain name, alone or behind one of the three loader prefixes |
| `DylibClosure.ProcessReference` | packaging/pyinstaller/dylib_closure.py:239-332 | one reference of one binary is handled: it is left, redirected, supplied by one copy, or reported, and the verdict is the right one for the bundle and the machine as they are at that moment |
| `DylibClosure.CloseDylibGraph` | packaging/pyinstaller/dylib_closure.py:239-332 | ends for every finite universe, cycles included; the references of every binary of the bundle and of every copied one are handled once each, in order, and the report is what the verdicts on them make it |
| `DylibReport.EveryReferenceIsHandled` | packaging/pyinstaller/dylib_closure.py:239-332 | every reference of every walked binary is among the handled ones |
| `DylibReport.ReportExactly` | packaging/pyinstaller/dylib_closure.py:239-332 | the report, entry by entry: rewritten exactly if the reference is an absolute path to a file at the root or was just supplied, and not the target already; unresolved and warned about exactly if its library was missing and cannot be found or supplied; copied exactly if it was missing and can |
| `DylibReport.CopiedIsRedirected` | packaging/pyinstaller/dylib_closure.py:316-330 | every copied library was missing for a reference that made the pass copy it, and that reference was rewritten unless it was the target already |
| `DylibClosure.CleanReportMeansClosed` | packaging/pyinstaller/dylib_closure.py:239-332 | with nothing reported, every non-system reference of a readable binary names a file of the bundle by base name, and the absolute ones to root files are rewritten |
| `DylibClosure.AbsoluteSurvivesExactly` | packaging/pyinstaller/dylib_closure.py:239-332 | every absolute build-machine reference of a walked binary: it stays unrewritten and unreported if and only if it has no base name or the binary's own, or its library was in the bundle from the start and only below the root |
| `DylibClosure.BuildPathSurvives` | packaging/pyinstaller/dylib_closure.py:316-328 | the input family `/opt/n`: with `n` the binary's own name or nested in the bundle, every outcome leaves the path in place |
| `DylibClosure.CopiesAreNew` | packaging/pyinstaller/dylib_closure.py:216-332 | no copy lands on an existing file and none is made twice |
| `LineTracker.FeedAppend` | src/sshpilot/autocomplete.py:192-217 | feeding two pieces is feeding their concatenation, state and committed line alike |
| `LineTracker.ChunkingIsIrrelevant` | src/sshpilot/autocomplete.py:192-217 | two deliveries of the same keystrokes leave the same state |
| `LineTracker.WordDeletion` | src/sshpilot/autocomplete.py:192-217 | Ctrl+W removes trailing blanks and the word before them, and nothing else |
| `LineTracker.WordDeletionUnique` | src/sshpilot/autocomplete.py:192-217 | and there is only one way to do that |
| `LineTracker.PressIsTruthful` | src/sshpilot/autocomplete.py:192-217 | one key keeps "valid implies line is the buffer", and a committed line was the buffer |
| `LineTracker.TrackerIsSound` | src/sshpilot/autocomplete.py:179-217 | the same at every point of every run against an editor that does anything on unmodelled keys |
| `LineTracker.FeedIsSound` | src/sshpilot/autocomplete.py:192-217 | fed in one call from an empty line, a whole run ends truthful |
| `CommittedLines.ValidExactly` | src/sshpilot/autocomplete.py:179-217 | the tracker is valid exactly if only known keys stand between the key and a reset before it, or a valid start |
| `CommittedLines.CommittedExactly` | src/sshpilot/autocomplete.py:192-217 | in every run of the editor, a key commits a line exactly if it is an Enter, the tracker is in step and the true edit line is not blank: then that line |
| `CommittedLines.FedExactly` | src/sshpilot/autocomplete.py:192-217 | one call returns the true edit line at the last key that commits one, and nothing if none does |
| `LineTracker.LineTracker.FeedInput` | src/sshpilot/autocomplete.py:192-217 | the character loop over the object's fields computes the state machine |
| `SessionHistory.UnseenDistinct` | src/sshpilot/autocomplete.py:69-78 | the recomputation never repeats a command |
| `SessionHistory.UnseenComplete` | src/sshpilot/autocomplete.py:69-78 | and holds every command of the history |
| `SessionHistory.RecentFirstSnoc` | src/sshpilot/autocomplete.py:69-78 | a new command goes to the front and leaves its old place |
| `HistoryOrigins.CommandIs` | src/sshpilot/autocomplete.py:65-78 | the command of a history line is what stands behind its time stamp, two numbers with their marks, or the whole line, without blanks around it |
| `SessionHistory.CacheIsRecomputation` | src/sshpilot/autocomplete.py:45-78 | over any sequence of additions the bounded cache is at every moment the front of the recomputed history if and only if both take each line alike |
| `SessionHistory.UnstampedAgree` | src/sshpilot/autocomplete.py:65-78 | lines without a time stamp are taken alike |
| `SessionHistory.StampedLineDiffers` | src/sshpilot/autocomplete.py:45-78 | one stamped line, whatever the command, and the two differ |
| `SessionHistory.CacheFacts` | src/sshpilot/autocomplete.py:45-62 | for all lines: no repetition, within the bound, last line first |
| `SessionHistory.RecentFirstDedupe` | src/sshpilot/autocomplete.py:69-78 | the loop with its seen set computes the recomputation |
| `SessionHistory.SessionProvider.Add` | src/sshpilot/autocomplete.py:51-59 | remove, append left and the deque's bound together are the cache step |
| `Suggestions.MatchEntries` | src/sshpilot/autocomplete.py:34-42 | the first `limit` entries that contain but differ from the prefix, in order |
| `Suggestions.SuggestFacts` | src/sshpilot/autocomplete.py:254-265 | at most `limit`, distinct, matching, prefix matches first |
| `Suggestions.SuggestKeepsProviderOrder` | src/sshpilot/autocomplete.py:254-265 | within a rank, suggestions come in provider order |
| `Suggestions.NothingIsMissing` | src/sshpilot/autocomplete.py:254-265 | a list that is not full holds every match of every provider that does not repeat itself |
| `BestSuggestions.AllMatchesAre` | src/sshpilot/autocomplete.py:34-42 | the matches of a provider are its matching entries, every one and in order |
| `BestSuggestions.SuggestIs` | src/sshpilot/autocomplete.py:254-265 | the suggestions are the one list of best offers: the first offer of each text, prefix matches ahead, the order of the offers otherwise, and none left out but behind a full list |
| `BestSuggestions.ShownExactly` | src/sshpilot/autocomplete.py:248-292 | the popup shows if and only if the line is known, has two characters, no prompt is open and some entry completes it; it is hidden exactly if it was shown before and is not now |
| `BestSuggestions.ShownItems` | src/sshpilot/autocomplete.py:267-292 | it shows the suggestions in order, each with the keystrokes that append what is missing or erase and retype |
| `Suggestions.SuggestFrom` | src/sshpilot/autocomplete.py:254-265 | the collecting loop and the stable sort compute the ranking |
| `Suggestions.AcceptingTypesTheText` | src/sshpilot/autocomplete.py:267-292 | typing an item's suffix leaves a valid tracker whose line is the item's text |
| `Suggestions.HideOnlyWhenShown` | src/sshpilot/autocomplete.py:248-292 | over any run a hide is sent only right after a call that showed something, and nothing empty is shown |
| `Suggestions.Autocompleter.FeedInput` | src/sshpilot/autocomplete.py:267-292 | tracker, session cache, visibility and payload all follow the specification |
| `RemoteHistory.StepKeepsKey` | src/sshpilot/autocomplete.py:137-153 | every step of every thread keeps the invariant of every host |
| `RemoteHistory.FetchedAtMostOnce` | src/sshpilot/autocomplete.py:119-159 | over any interleaving: one fetch per host, pending and cached disjoint, exactly one live fetch per pending host unless its thread could not be started |
| `RemoteHistory.StuckForEver` | src/sshpilot/autocomplete.py:137-143 | a host whose thread could not be started stays pending, unasked and uncached |
| `RemoteHistory.CachedEntryNeverChanges` | src/sshpilot/autocomplete.py:145-153 | what was cached once is what every later query sees |
| `HistoryOrigins.CachedWasFetched` | src/sshpilot/autocomplete.py:145-153 | in every run, what is cached for a host is what a fetch for that very host returned, made into commands |
| `RemoteHistory.HistoryCache.EnsureFetched` | src/sshpilot/autocomplete.py:137-143 | a fetch starts exactly when the host is neither cached nor pending |
| `RemoteHistory.HistoryCache.Publish` | src/sshpilot/autocomplete.py:145-153 | the entries are cached and the host leaves the pending set in one step |
| `RemoteHistory.HistoryCache.QueryStep` | src/sshpilot/autocomplete.py:137-143 | the class takes exactly the protocol's query step |
| `RemoteHistory.HistoryCache.PublishStep` | src/sshpilot/autocomplete.py:145-153 | and its publishing step |
| `GroupDelete.GroupDepth` | src/sshpilot/actions.py:92-105 | the guarded climb ends for every parent map and computes the depth |
| `GroupDelete.ChildIsDeeper` | src/sshpilot/actions.py:92-105 | a child that is not its own ancestor is one level below its parent |
| `GroupDelete.Subtree` | src/sshpilot/actions.py:131-146 | the worklist ends for every parent map and finds exactly what lies below the selection |
| `GroupDelete.DeepestFirst` | src/sshpilot/actions.py:148-152 | every id once, deepest first, then by id |
| `GroupDelete.OrderIsUnique` | src/sshpilot/actions.py:148-152 | there is only one such arrangement, so the plan is the same on every run |
| `GroupDelete.DescendantsComeFirst` | src/sshpilot/actions.py:675-681 | listed descendants come before listed ancestors if and only if no listed group is its own ancestor |
| `GroupDelete.CascadeIsSafe` | src/sshpilot/actions.py:760-781 | no group is removed while it has a child, if and only if no group of the subtree is its own ancestor |
| `GroupDelete.CascadeMovesNothing` | src/sshpilot/core/connections/service.py:781-800 | run against a delete that hands children to the parent, a safe cascade moves no group and asks for no unknown one, after any number of steps |
| `GroupDelete.CorruptMapStrandsAChild` | src/sshpilot/actions.py:92-98 | for two groups that name each other as parent no order is safe |
| `GroupDelete.CollectConnections` | src/sshpilot/actions.py:154-164 | the known members of the subtree, each once, in the order they are first met |
| `GroupDelete.MembersHeld` | src/sshpilot/actions.py:154-164 | a connection is collected exactly when some group of the subtree holds it |
| `GroupDelete.PlanGroupDelete` | src/sshpilot/actions.py:108-171 | all four parts of the plan at once, for every parent map and every selection |
| `AtomicSave.StepKeepsPoint` | src/sshpilot/authorized_keys_service.py:165-183 | at every point of the save the keys are where that point says, whatever a request does |
| `AtomicSave.RunKeepsInv` | src/sshpilot/authorized_keys_service.py:216-294 | the invariant holds in every state of every run |
| `AtomicSave.LostExactlyWhen` | src/sshpilot/authorized_keys_service.py:165-183 | both files are gone if and only if a rename that took effect was reported as an error and the removal took effect |
| `AtomicSave.SaveIsCrashSafe` | src/sshpilot/authorized_keys_service.py:165-294 | for every interruption and failure pattern: complete old or complete new, or the fallback window with the complete new text aside and the backup whole, if and only if that did not happen |
| `AtomicSave.HonestServerIsSafe` | src/sshpilot/authorized_keys_service.py:165-294 | with a server that reports errors only for what it did not do, always |
| `AtomicSave.BackupIsKept` | src/sshpilot/authorized_keys_service.py:255-270 | a backup that was made is the complete old file in every later state, loss included |
| `AtomicSaveBackup.BackupExactly` | src/sshpilot/authorized_keys_service.py:216-294 | a save that returns asked for the old file exactly if a backup was wanted, copied it exactly if it was told that there is one, and then the backup is the complete old file |
| `AtomicSaveBackup.ReturnsExactly` | src/sshpilot/authorized_keys_service.py:165-294 | a save run to its end returns if and only if the link holds and no essential request fails; making the directory, modes, the look for a file, the atomic rename and the removal may be refused |
| `AtomicSaveBackup.QuietSaveBacksUp` | src/sshpilot/authorized_keys_service.py:216-294 | with a server that carries out every request a save returns, and has backed up the old file exactly if it was to |
| `AtomicSave.ReturnedMeansInstalled` | src/sshpilot/authorized_keys_service.py:216-294 | a save that returns has installed the new text and left no temporary file; no other file ever changes |
| `AtomicSave.SaveEnds` | src/sshpilot/authorized_keys_service.py:216-294 | no run takes more than seventeen requests |
| `AtomicSave.LateErrorLosesKeys` | src/sshpilot/authorized_keys_service.py:165-183 | a run that loses the keys, for every file and payload |
| `AtomicSaveService.AuthorizedKeysService.InstallAtomic` | src/sshpilot/authorized_keys_service.py:165-183 | the rename and its fallback follow the protocol, exception by exception |
| `AtomicSaveService.AuthorizedKeysService.SaveKeys` | src/sshpilot/authorized_keys_service.py:216-294 | a save is a complete run of the protocol; it looks for a file to back up exactly if a backup is wanted and none was made in the session, what it finds is in the backup when it returns, and the mark is set by a successful save only |
| `ForwardSpec.ScanAddrIs` | src/sshpilot/command_converter.py:64-75 | an address is found exactly when the text splits that way, and in one way only |
| `ForwardSpec.ScanForwardIs` | src/sshpilot/command_converter.py:64-75 | the scanner agrees with the grammar on every text, and no text has two readings |
| `ForwardSpec.RuleRoundTrip` | src/sshpilot/command_converter.py:95-128 | printing a rule and parsing it gives the rule if and only if its addresses are addresses |
| `ForwardSpec.ParsedRuleRoundTrip` | src/sshpilot/command_converter.py:95-128 | every rule the parser returns survives printing, brackets, defaults and leading zeros included |
| `ForwardSpec.ParseForwardIs` | src/sshpilot/command_converter.py:95-114 | a rule is read exactly from the texts that say it, a missing bind address and a final newline included |
| `ForwardSpec.ParseDynamicIs` | src/sshpilot/command_converter.py:117-128 | likewise for a dynamic rule, with and without an address |
| `CommandConverter.ParseArguments` | src/sshpilot/command_converter.py:280-348 | the index loop ends and computes the piecewise reading |
| `CommandConverter.ConsumeWithValue` | src/sshpilot/command_converter.py:284-334 | the options with a separate value, `-p` without a number left to the fallback |
| `CommandConverter.ConsumeAlone` | src/sshpilot/command_converter.py:296-348 | single arguments, destinations and unrecognised options, with the exact number consumed; what each asks for is told by `CommandMeanings.ArgumentMeans` |
| `CommandConverter.ApplyOption` | src/sshpilot/command_converter.py:172-195 | one `-o Key=value` |
| `CommandMeanings.ArgumentMeans` | src/sshpilot/command_converter.py:280-348 | what every argument asks for, told by its text: `-X`, `-A`, `-C`, `-4`, `-6`, `-p`, `-i`, `-J`, `-L`, `-R`, `-D`, `-o` in one word or two, destinations; an argument is read as an action if and only if it asks for it |
| `CommandMeanings.NameIs` | src/sshpilot/command_converter.py:172-195 | the five option names with a field of their own, in any case; every other becomes a line |
| `CommandMeanings.LengthIs` | src/sshpilot/command_converter.py:212-348 | exactly when the next argument is read along with an option |
| `CommandAccounting.EveryArgumentIsReadOnce` | src/sshpilot/command_converter.py:280-348 | the pieces end to end are the arguments |
| `CommandAccounting.HostFrom` | src/sshpilot/command_converter.py:198-210 | the host is the host part of the first destination that has one |
| `CommandAccounting.LeftOverFrom` | src/sshpilot/command_converter.py:212-235 | `unparsed_args` holds exactly the unrecognised options and the destinations after the host |
| `CommandAccounting.LeftOverInOrder` | src/sshpilot/command_converter.py:212-235 | and is an ordered subsequence of the arguments |
| `CommandAccounting.KeyHasMode` | src/sshpilot/command_converter.py:353-354 | a key file always has a selection mode: the adjustment after the loop never does anything |
| `CommandAccounting.DroppedExactly` | src/sshpilot/command_converter.py:280-348 | exactly which arguments do nothing whatever was read before them |
| `CommandRecords.FieldsAreAccountedFor` | src/sshpilot/command_converter.py:280-356 | every field of the result has its own account: last user, port, key, mode, jumps and agent, all rules and extra lines in order, the host, the left-overs |
| `CommandRecords.LineIsKept` | src/sshpilot/command_converter.py:131-134 | a line that an argument adds stands in the extra configuration as lines of its own |
| `CommandVanish.ForgottenExactly` | src/sshpilot/command_converter.py:280-356 | for every piece of every argument list: the connection is the same without it if and only if it does nothing, a later piece overrules it, or it sets what was already so |
| `CommandVanish.EmptyJumpVanishes` | src/sshpilot/command_converter.py:315-319 | `-J ,` makes no difference, whatever follows |
| `CommandVanish.AgentSocketVanishes` | src/sshpilot/command_converter.py:172-195 | nor does `-oForwardAgent=` with a socket or anything else that is not yes |
| `CommandVanish.AgentSocketForInstance` | src/sshpilot/command_converter.py:172-195 | at `-oForwardAgent=/tmp/s h` |
| `CommandVanish.BareAtVanishes` | src/sshpilot/command_converter.py:198-210 | nor a bare `@` before the host |
| `CommandVanish.OverruledKeyVanishes` | src/sshpilot/command_converter.py:286-289 | nor the first of two key files |
| `CommandRecords.ArgumentsAreAccountedFor` | src/sshpilot/command_converter.py:280-356 | each argument is read once, what is set aside is an ordered subsequence, every field is what its account says, and a key file has its mode |
| `CommandRecords.ParseSshCommand` | src/sshpilot/command_converter.py:256-356 | bare destination, rejection, nothing, or the connection; nothing exactly when no destination has a host |
| `CommandRoundTrip.WrittenReadsBack` | src/sshpilot/command_converter.py:256-356 | a connection written out as arguments is read back field by field, for every connection that arguments can say: user, port, key and its mode, X11, agent, jumps, rules, extra lines, host, left-overs |
| `CommandRoundTrip.ReadIsWritable` | src/sshpilot/command_converter.py:256-356 | every connection that is read is one that arguments can say |
| `CommandRoundTrip.ReadWriteRead` | src/sshpilot/command_converter.py:256-356 | reading, writing and reading again gives the same connection for all arguments that name a host |
| `Ordering.SortIsTheOne` | src/sshpilot/connection_sort.py:133-147 | `sorted` is the one list that is ordered and keeps every tie as it was |
| `ConnectionSort.LookupFindsLast` | src/sshpilot/connection_sort.py:108-120 | a reference finds the last connection it names by id or nickname |
| `ConnectionSort.ByKeyIsOrder` | src/sshpilot/connection_sort.py:122-130 | the decorated keys give a total order, forwards and in reverse |
| `ConnectionSort.ListsAreStablySorted` | src/sshpilot/connection_sort.py:133-147 | every list is a permutation, ordered, stable, and the only such list |
| `NameOrder.PrimaryIs` | src/sshpilot/connection_sort.py:27-34 | a connection is shown under the first of display name, nickname, alias and host name that is not empty |
| `NameOrder.ConnectionsAreInOrder` | src/sshpilot/connection_sort.py:122-147 | references without a connection come last, in reverse first; otherwise the first of the deciding names that differs decides, upwards or in reverse downwards |
| `NameOrder.ShownNamesAreInOrder` | src/sshpilot/connection_sort.py:122-147 | the names that known connections are shown under go up in dictionary order, in reverse down |
| `ConnectionSort.PathGrows` | src/sshpilot/connection_sort.py:151-185 | going down from the root never meets a group twice, whatever the parents say |
| `ConnectionSort.BelowSplits` | src/sshpilot/connection_sort.py:151-185 | what lies below a group is its children and what lies below them |
| `ConnectionSort.SiblingsAreNumbered` | src/sshpilot/connection_sort.py:163-178 | siblings get 0 to k - 1, each number once, in name order |
| `NameOrder.NumbersFollowNames` | src/sshpilot/connection_sort.py:163-178 | the numbers of siblings go up with their names in dictionary order, in reverse down |
| `ConnectionSort.SecondSortChangesNothing` | src/sshpilot/connection_sort.py:95-190 | sorting again moves nothing, in either direction |
| `ConnectionSort.GroupManager.SortGroups` | src/sshpilot/connection_sort.py:151-185 | the recursion ends for every parent map, renumbers exactly the groups below its start, and reports exactly whether a number changed |
| `ConnectionSort.GroupManager.ApplyConnectionSort` | src/sshpilot/connection_sort.py:95-190 | the new view is the sorted old one, and the answer is whether they differ |
| `Container.SplitIs` | src/sshpilot/backup_archive.py:154-175 | a file splits into a header and a payload if and only if it is their framing and the header has no line end |
| `Container.BitTestIsExact` | src/sshpilot/backup_archive.py:178-179 | the bit test holds exactly for the powers of two greater than one |
| `Container.WriterIsAcceptable` | src/sshpilot/backup_archive.py:133-151 | the writer's own parameters pass the reader's check |
| `Container.DerivationIsBounded` | src/sshpilot/backup_archive.py:182-197 | whatever the file says, a key is only derived with 128·n·r within 256 MiB and n a power of two |
| `Container.ReadDerivesOnlyRequested` | src/sshpilot/backup_archive.py:215-242 | reading derives a key with those parameters and with no others |
| `Container.ContainerRoundTrip` | src/sshpilot/backup_archive.py:133-242 | reading what was written gives the manifest if and only if its text is at most 64 MiB, for every manifest and passphrase |
| `Container.PassphraseIsAskedFor` | src/sshpilot/backup_archive.py:215-242 | plaintext ignores the passphrase; an encrypted file without one derives no key |
| `ContainerUnlocking.ReadExactly` | src/sshpilot/backup_archive.py:154-242 | a manifest is read if and only if the file is a framed header of a supported version and its payload is the zipped manifest or, encrypted, that sealed with the key of the passphrase and the header |
| `ContainerUnlocking.RefusedExactly` | src/sshpilot/backup_archive.py:215-242 | the passphrase is refused if and only if the file is encrypted and it opens nothing, its parameters being acceptable |
| `ContainerUnlocking.OtherPassphrase` | src/sshpilot/backup_archive.py:133-242 | another passphrase on a written file is refused exactly if its key seals nothing into the same payload |

## Left out

- Windows, dialogs, rows and all other GTK code; daemon clients, transports, subprocesses, askpass, secret stores: user interface and plumbing.
- Cryptography, zip, base64 and JSON text: parameters with inverse laws. A key derivation that fails for lack of memory is not modelled.
- Fingerprints of keys, themes, default command lists, release and bundle verification scripts: no deep property.
- The other parts of an import: known_hosts lines, application settings, group trees with their slugs, and the rewriting of home directories and Include paths in imported text (`_merge_known_hosts`, `_merge_app_config`, `_merge_groups`, `_rebase_home_in_text`, `_rewrite_include_line`).
- Case folding, printability and integer reading are parameters; `str.lower` is exact for ASCII only, and digits are ASCII digits (Python's `\d` and the time-stamp pattern accept others).
- Numbers of over 4300 digits in a forwarding specification, which Python refuses to convert.
- The values `True` and `1`, and `False` and `0`, are different JSON leaves here; Python's comparison in the merge takes them for equal.
- Symlinks, file modes, fsync and the first-time `.bak` file of a settings save: a save is one atomic replacement that may fail. The mode change after the replacement failing, which reports a failure although the file was written, is not modelled.
- ConfigProtocol.NoLostUpdates: the file is a readable object throughout a run; the fallbacks for other files are in `ConfigStore.SettingsCache.MergeWithDisk`.
- ConfigStore.SettingsCache.SetSetting: the walk that creates missing sections in the nested dictionaries is a function on trees, so sharing of a subtree between two paths is not captured.
- IncludeRepair.EnsureIncludeIdempotent: the fragment lies in the directory of the main file under a lower-case name without blanks at its ends, as the program's own name does.
- IncludeReach.MergeTwiceAddsNothing: what an Include line reaches is a parameter, one set of names and two flags for each line; the depth limit of the resolver, files that are no UTF-8, and files that change between the merges are not modelled.
- AuthorizedKeysEdits.EditedEntryReadsBack: setter names hold no comma or equals sign and do not begin with a blank, as the names the program sets.
- Suggestions.Autocompleter.FeedInput: the password-prompt pattern is a flag.
- GroupDelete.DeepestFirst: the built-in sort is an insertion loop here; the result is the same list, since there is only one. Deleting the connections of a cascade first is left to the connection API.
- AtomicSave.SaveIsCrashSafe: one save at a time; a later save truncates the temporary file that a failed one left behind. Modes of files are not modelled, and the local and daemon variants of the service are not part of this model.
- CommandMeanings.LengthIs: integer reading is a parameter that refuses the empty text, as Python's does.
- CommandRoundTrip.WrittenReadsBack: printing arguments is not in the program; it is the inverse the parser is held against, and prints integers by a parameter that the reader inverts. What arguments cannot say is not written; every connection that is read they can (`CommandRoundTrip.ReadIsWritable`).
- ContainerUnlocking.ReadExactly: opening succeeds exactly on what sealing gives, as AES-GCM does; that two keys never seal into one payload is not assumed.
- CommandRecords.ParseSshCommand: the shell lexer is a parameter, and the last-resort branch after an exception is left out because nothing modelled raises one.
- ConnectionSort.GroupManager.ApplyConnectionSort: a missing order counts as 0, as every reader of it does, and the fields of a group that never change are kept apart from its list and its number.
