# Brooklyn test-framework SSH command and catalog rebind, modelled in Dafny

This project models two pieces of Apache Brooklyn.

**TestSshCommandImpl** is a test-framework entity. It runs either a shell command or a
downloaded script on its target's SSH machine. It records the outcome in its
`SERVICE_UP` sensor and its expected lifecycle state (`STARTING`, `RUNNING`,
`ON_FIRE`, `STOPPED`). Module `SshCommand` models it:
- the check that exactly one of the download URL and the command is set;
- the command lists (an optional `cd <runDir>`, `chmod u+x` for a script, then the payload);
- how the script name is taken from the URL path, and the destination path built from it;
- the default exit-code assertion;
- the `illegal(...)` messages;
- the entity's state updates in `start`, `stop`, `restart`, `execute` and `setUpAndRunState`, as a class with `modifies` frames.

The SSH calls, the machine lookup, the parsing of the URL and the random id are parameters.

**CatalogYamlRebindTest** drives the catalog and rebind engine:
- `removeFromXml` edits persisted mementos. Modules `XmlTree` and `XmlEdit` model it on an element tree. A forest of nodes carries document-order search (`getElementsByTagName(...).item(0)`), subtree removal and reinsertion. `RemoveFromXml` is the nested loop of the source, proved equal to the path-by-path specification `RemoveAll`.
- Module `CatalogRebind` models the catalog lifecycle the test pins down:
  - a registry `map<ItemId, Flags>` and the catalog changes of each test mode, run against a mutable `Catalog`;
  - catalog-item mementos as XML documents, persisted, optionally stripped of their `deprecated`/`disabled` fields, and reloaded;
  - the provenance auto-fix on rebind, and deployment of a new app;
  - the per-mode expectation table, with `TestRebindWithCatalogAndApp` proving it for every row of the data provider.

The engine's own code is not part of this model. Its behaviour here is what the test asserts. Where the test only implies a rule, the rule is stated as an assumption below.

`Text` holds the string helpers both parts need:
- the blank test of `Strings.isBlank`;
- Guava `Splitter.on("/")`/`Joiner.on(...)`;
- Java `String.split("/")`, whose trailing empty parts are dropped.

## Model

| member | source | states |
|---|---|---|
| Text.JoinSplitAll | test-framework/src/main/java/org/apache/brooklyn/test/framework/TestSshCommandImpl.java:228-230 | Joining the Guava split parts of a string with the same separator gives the string back |
| Text.SplitAllJoin | test-framework/src/main/java/org/apache/brooklyn/test/framework/TestSshCommandImpl.java:228-230 | Splitting a join of separator-free parts gives those parts back |
| Text.JavaSplitPair | camp/camp-brooklyn/src/test/java/org/apache/brooklyn/camp/brooklyn/catalog/CatalogYamlRebindTest.java:356 | `String.split("/")` of `a/b` (no separator in a or b, b non-empty) is exactly `[a, b]` |
| XmlTree.First | camp/camp-brooklyn/src/test/java/org/apache/brooklyn/camp/brooklyn/catalog/CatalogYamlRebindTest.java:359-365 | `getElementsByTagName(tag).item(0)`: a found address is valid and holds an element the tag selects (`*` selects all) |
| XmlTree.FirstIsEarliest | camp/camp-brooklyn/src/test/java/org/apache/brooklyn/camp/brooklyn/catalog/CatalogYamlRebindTest.java:364-365 | Whenever some element matches, the search finds one, and every matching element is the found one or comes after it in document order |
| XmlTree.RemoveThenInsert | camp/camp-brooklyn/src/test/java/org/apache/brooklyn/camp/brooklyn/catalog/CatalogYamlRebindTest.java:372 | `removeChild` removes exactly one subtree: putting the removed node back at its address restores the original tree |
| XmlEdit.ResolveIn | camp/camp-brooklyn/src/test/java/org/apache/brooklyn/camp/brooklyn/catalog/CatalogYamlRebindTest.java:356-370 | Where a tag path leads: a found address is valid and holds an element the last tag selects |
| XmlEdit.ResolveOneMore | camp/camp-brooklyn/src/test/java/org/apache/brooklyn/camp/brooklyn/catalog/CatalogYamlRebindTest.java:358-363 | Search scope: each later tag is searched only among the strict descendants of the previous match; a missing prefix match stays missing |
| XmlEdit.ResolvePrefixNone | camp/camp-brooklyn/src/test/java/org/apache/brooklyn/camp/brooklyn/catalog/CatalogYamlRebindTest.java:364-369 | Once a prefix of the path matches nothing (the `break`), the whole path matches nothing |
| XmlEdit.UnmatchedTagLeavesDocument | camp/camp-brooklyn/src/test/java/org/apache/brooklyn/camp/brooklyn/catalog/CatalogYamlRebindTest.java:364-373 | A path with a tag that matches nothing in its scope leaves the document unchanged |
| XmlEdit.MatchedPathRemovesOneSubtree | camp/camp-brooklyn/src/test/java/org/apache/brooklyn/camp/brooklyn/catalog/CatalogYamlRebindTest.java:371-373 | When every tag matches, exactly the subtree of the final match (selected by the last tag) is removed and nothing else changes |
| XmlEdit.RemoveAllAppend | camp/camp-brooklyn/src/test/java/org/apache/brooklyn/camp/brooklyn/catalog/CatalogYamlRebindTest.java:353-374 | Paths apply in list order, each to the tree as already edited: applying `ps + qs` is applying `ps` then `qs` |
| XmlEdit.FindPath | camp/camp-brooklyn/src/test/java/org/apache/brooklyn/camp/brooklyn/catalog/CatalogYamlRebindTest.java:354-370 | The inner loop over the tags (with `current`, `first` and the `break`) ends with exactly the element the path resolves to, or none when some tag matches nothing |
| XmlEdit.RemoveFromXml | camp/camp-brooklyn/src/test/java/org/apache/brooklyn/camp/brooklyn/catalog/CatalogYamlRebindTest.java:348-374 | The loop over paths, each split by `String.split("/")`, found with `FindPath` and removed from its parent in place of the tree as already edited, computes `RemoveAll` |
| SshCommand.Illegal | test-framework/src/main/java/org/apache/brooklyn/test/framework/TestSshCommandImpl.java:220-223 | `illegal(...)` yields an IllegalArgumentException whose message starts with the entity's name, `": "` and the message |
| SshCommand.MaybeCdToRunDirCmd | test-framework/src/main/java/org/apache/brooklyn/test/framework/TestSshCommandImpl.java:198-205 | A non-blank run directory gives the single command `cd <runDir>`; the list is empty exactly when the run directory is null or blank |
| SshCommand.ShellCommands | test-framework/src/main/java/org/apache/brooklyn/test/framework/TestSshCommandImpl.java:190-193 | The shell command list has length 1 or 2, ends with the command and has only the optional cd before it |
| SshCommand.ScriptCommands | test-framework/src/main/java/org/apache/brooklyn/test/framework/TestSshCommandImpl.java:179-183 | The script command list has length 2 or 3: `chmod u+x <path>` first, the optional cd, the script path last |
| SshCommand.ExitCodeAssertions | test-framework/src/main/java/org/apache/brooklyn/test/framework/TestSshCommandImpl.java:253-267 | The singleton default assertion when status, stdout and stderr assertions are all empty, otherwise the status assertions unchanged |
| SshCommand.ExitCodeUncheckedOnlyWithOutputAssertions | test-framework/src/main/java/org/apache/brooklyn/test/framework/TestSshCommandImpl.java:253-267 | The exit-code list is empty exactly when there is no status assertion but there is a stdout or stderr assertion; "exit code is 0" is checked when nothing is configured |
| SshCommand.LastPartOfPathIsLastNonBlank | test-framework/src/main/java/org/apache/brooklyn/test/framework/TestSshCommandImpl.java:236-250 | The script name is the last non-blank path part (trailing blank parts skipped), or the default when every part is blank or there is none |
| SshCommand.GetLastPartOfPath | test-framework/src/main/java/org/apache/brooklyn/test/framework/TestSshCommandImpl.java:236-250 | Reversing the parts and looping while the name is blank returns the last non-blank part, else the default |
| SshCommand.CalculateDestPath | test-framework/src/main/java/org/apache/brooklyn/test/framework/TestSshCommandImpl.java:225-234 | A malformed URL fails with "Malformed URL: <url>"; a null directory fails in the join; otherwise `<dir>/test-<id>/<script name>` |
| SshCommand.DestPathParts | test-framework/src/main/java/org/apache/brooklyn/test/framework/TestSshCommandImpl.java:228-230 | The destination path's parts are the directory's parts, `test-<id>`, then a non-blank script name that is a URL-path part or `download.sh` |
| SshCommand.NameFromPathOrDefault | test-framework/src/main/java/org/apache/brooklyn/test/framework/TestSshCommandImpl.java:242-249 | The script name is never blank, contains no `/`, and is a path part or the default name |
| SshCommand.Environment | test-framework/src/main/java/org/apache/brooklyn/test/framework/TestSshCommandImpl.java:153-154 | A null shell environment is the empty map; a set one is used as is |
| SshCommand.ExactlyOneOfUrlAndCommand | test-framework/src/main/java/org/apache/brooklyn/test/framework/TestSshCommandImpl.java:156-158 | executeCommand fails with "Must specify exactly one of ..." if and only if the URL and the command are both non-blank or both blank |
| SshCommand.PlanRunsPayloadLast | test-framework/src/main/java/org/apache/brooklyn/test/framework/TestSshCommandImpl.java:160-196 | A valid configuration runs exactly one branch: the downloaded script (installed from the URL, made executable, run last) or the command (run last), with the environment defaulted |
| SshCommand.TestSshCommand.ExecuteCommand | test-framework/src/main/java/org/apache/brooklyn/test/framework/TestSshCommandImpl.java:144-171 | executeCommand up to the SSH calls yields the plan of `Plan`, or its first failure |
| SshCommand.ExecuteOutcome | test-framework/src/main/java/org/apache/brooklyn/test/framework/TestSshCommandImpl.java:132-142 | execute succeeds exactly when the machine is found, the configuration yields a plan and the machine run passes; otherwise it rethrows the first failure: no machine, the configuration error, or the remote failure |
| SshCommand.TestSshCommand.SetExpectedState | test-framework/src/main/java/org/apache/brooklyn/test/framework/TestSshCommandImpl.java:75 | The expected state becomes the given one and is appended to the state history; SERVICE_UP is untouched |
| SshCommand.TestSshCommand.SetUpAndRunState | test-framework/src/main/java/org/apache/brooklyn/test/framework/TestSshCommandImpl.java:91-94 | SERVICE_UP and the expected state become the given values |
| SshCommand.TestSshCommand.Execute | test-framework/src/main/java/org/apache/brooklyn/test/framework/TestSshCommandImpl.java:132-142 | Success leaves SERVICE_UP true and RUNNING; any failure (no machine, bad configuration, remote failure) leaves SERVICE_UP false and ON_FIRE and is returned |
| SshCommand.TestSshCommand.Start | test-framework/src/main/java/org/apache/brooklyn/test/framework/TestSshCommandImpl.java:74-77 | start sets STARTING first, then ends as execute does: the same outcome as `ExecuteOutcome`, up and RUNNING on success, down and ON_FIRE on failure |
| SshCommand.TestSshCommand.Restart | test-framework/src/main/java/org/apache/brooklyn/test/framework/TestSshCommandImpl.java:86-89 | restart is execute again: the same outcome as `ExecuteOutcome`, up and RUNNING on success, down and ON_FIRE on failure |
| SshCommand.TestSshCommand.Stop | test-framework/src/main/java/org/apache/brooklyn/test/framework/TestSshCommandImpl.java:80-83 | stop leaves SERVICE_UP false and STOPPED |
| CatalogRebind.VersionedId | camp/camp-brooklyn/src/test/java/org/apache/brooklyn/camp/brooklyn/catalog/CatalogYamlRebindTest.java:207-214 | A versioned id starts with the item's symbolic name (so the app's id contains `my.catalog.app`) |
| CatalogRebind.ApplyOp | camp/camp-brooklyn/src/test/java/org/apache/brooklyn/camp/brooklyn/catalog/CatalogYamlRebindTest.java:217-249 | Add succeeds exactly for a new id and registers it neither deprecated nor disabled; the other changes succeed exactly for a registered id, and setDeprecated/setDisabled replace just that flag; the key set changes by that id only and every other item stays the same |
| CatalogRebind.DeleteUndoesAdd | camp/camp-brooklyn/src/test/java/org/apache/brooklyn/camp/brooklyn/catalog/CatalogYamlRebindTest.java:227-236 | Deleting an item just added restores the catalog |
| CatalogRebind.Catalog.Apply | camp/camp-brooklyn/src/test/java/org/apache/brooklyn/camp/brooklyn/catalog/CatalogYamlRebindTest.java:217-249 | One catalog change made in place, or an error and the catalog unchanged |
| CatalogRebind.ApplyMode | camp/camp-brooklyn/src/test/java/org/apache/brooklyn/camp/brooklyn/catalog/CatalogYamlRebindTest.java:217-249 | The mode switch, run on the mutable catalog, yields the catalog of the mode's change list; the replace mode moves to versions 0.2.0/1.1.0 |
| CatalogRebind.MementoRoundTrip | camp/camp-brooklyn/src/test/java/org/apache/brooklyn/camp/brooklyn/catalog/CatalogYamlRebindTest.java:268-270 | A persisted catalog-item memento reads back with the flags it was written with |
| CatalogRebind.StripPathTags | camp/camp-brooklyn/src/test/java/org/apache/brooklyn/camp/brooklyn/catalog/CatalogYamlRebindTest.java:262-263 | The two strip paths split into `catalogItem` and the field name |
| CatalogRebind.RemoveTwoPaths | camp/camp-brooklyn/src/test/java/org/apache/brooklyn/camp/brooklyn/catalog/CatalogYamlRebindTest.java:262-263 | removeFromXml with two paths removes the first path, then the second from the result |
| CatalogRebind.StrippedMementoLoadsDefaults | camp/camp-brooklyn/src/test/java/org/apache/brooklyn/camp/brooklyn/catalog/CatalogYamlRebindTest.java:252-267 | A memento stripped of `catalogItem/deprecated` and `catalogItem/disabled` reloads as neither deprecated nor disabled, whatever it held |
| CatalogRebind.PersistRoundTrip | camp/camp-brooklyn/src/test/java/org/apache/brooklyn/camp/brooklyn/catalog/CatalogYamlRebindTest.java:268-270 | Persisting and reloading the whole catalog gives it back unchanged |
| CatalogRebind.StrippedReload | camp/camp-brooklyn/src/test/java/org/apache/brooklyn/camp/brooklyn/catalog/CatalogYamlRebindTest.java:252-267 | After the state transformer, stripped items reload with both flags false and the others unchanged |
| CatalogRebind.VersionLtTransitive | camp/camp-brooklyn/src/test/java/org/apache/brooklyn/camp/brooklyn/catalog/CatalogYamlRebindTest.java:230-237 | The version order is transitive |
| CatalogRebind.VersionLtTotal | camp/camp-brooklyn/src/test/java/org/apache/brooklyn/camp/brooklyn/catalog/CatalogYamlRebindTest.java:230-237 | Any two versions are equal or ordered one way |
| CatalogRebind.LatestExists | camp/camp-brooklyn/src/test/java/org/apache/brooklyn/camp/brooklyn/catalog/CatalogYamlRebindTest.java:230-237 | Every non-empty set of versions has a highest one, the target of the auto-fix |
| CatalogRebind.LatestUnique | camp/camp-brooklyn/src/test/java/org/apache/brooklyn/camp/brooklyn/catalog/CatalogYamlRebindTest.java:230-237 | A set of versions has only one highest version, so the auto-fix target is determined |
| CatalogRebind.FixProvenance | camp/camp-brooklyn/src/test/java/org/apache/brooklyn/camp/brooklyn/catalog/CatalogYamlRebindTest.java:152-153 | A catalog reference is rewritten only when auto-fix is on and the item is gone, and then always when another version is offered; the rewrite is to the latest offered version of the same symbolic name |
| CatalogRebind.FixProvenanceIdempotent | camp/camp-brooklyn/src/test/java/org/apache/brooklyn/camp/brooklyn/catalog/CatalogYamlRebindTest.java:276 | Fixing a fixed reference changes nothing |
| CatalogRebind.Rebind | camp/camp-brooklyn/src/test/java/org/apache/brooklyn/camp/brooklyn/catalog/CatalogYamlRebindTest.java:135-139 | An entity rebinds exactly when its implementation type can be loaded, and its reference is then the fixed one |
| CatalogRebind.DeployApp | camp/camp-brooklyn/src/test/java/org/apache/brooklyn/camp/brooklyn/catalog/CatalogYamlRebindTest.java:318-341 | A new app deploys exactly when its item and location are registered and not disabled, and then refers to `name:version`; otherwise it fails to match the app reference (or the location's, when only that fails) |
| CatalogRebind.DeprecationKeepsDeployable | camp/camp-brooklyn/src/test/java/org/apache/brooklyn/camp/brooklyn/catalog/CatalogYamlRebindTest.java:298-302 | Deprecating an item does not change what is deployable |
| CatalogRebind.Lookup | camp/camp-brooklyn/src/test/java/org/apache/brooklyn/camp/brooklyn/catalog/CatalogYamlRebindTest.java:283-284 | A type-registry lookup finds exactly the registered items, with their flags |
| CatalogRebind.DataProviderRows | camp/camp-brooklyn/src/test/java/org/apache/brooklyn/camp/brooklyn/catalog/CatalogYamlRebindTest.java:120-147 | The data provider runs every mode without OSGi and every mode except delete with OSGi |
| CatalogRebind.ItemDeployable | camp/camp-brooklyn/src/test/java/org/apache/brooklyn/camp/brooklyn/catalog/CatalogYamlRebindTest.java:286-316 | Modes expected to deploy all expect the items registered; the others expect them gone or disabled |
| CatalogRebind.ItemAsExpected | camp/camp-brooklyn/src/test/java/org/apache/brooklyn/camp/brooklyn/catalog/CatalogYamlRebindTest.java:286-316 | Per-mode expectation on an item lookup; only the delete mode expects the item to be gone |
| CatalogRebind.RunScenario | camp/camp-brooklyn/src/test/java/org/apache/brooklyn/camp/brooklyn/catalog/CatalogYamlRebindTest.java:199-341 | The test's flow: the first entity refers to `name:0.1.0`; the rebound entity keeps the app's symbolic name; a second app deploys only when both items looked up are registered and not disabled |
| CatalogRebind.ModeChanges | camp/camp-brooklyn/src/test/java/org/apache/brooklyn/camp/brooklyn/catalog/CatalogYamlRebindTest.java:217-249 | Each mode's changes succeed on the fresh catalog and leave the catalog of the mode (deprecated, disabled, emptied, replaced or unchanged) |
| CatalogRebind.Reloaded | camp/camp-brooklyn/src/test/java/org/apache/brooklyn/camp/brooklyn/catalog/CatalogYamlRebindTest.java:251-270 | In every mode, the catalog reloaded on rebind (after stripping, in the strip mode) is the catalog the mode left |
| CatalogRebind.ReboundReference | camp/camp-brooklyn/src/test/java/org/apache/brooklyn/camp/brooklyn/catalog/CatalogYamlRebindTest.java:273-276 | The rebound entity refers to `name:0.2.0` after the replacement with auto-fix on, and to `name:0.1.0` in every other mode |
| CatalogRebind.RebindAsExpected | camp/camp-brooklyn/src/test/java/org/apache/brooklyn/camp/brooklyn/catalog/CatalogYamlRebindTest.java:272-276 | In every mode the data provider runs, the entity rebinds and refers to the current app item |
| CatalogRebind.LookupsAsExpected | camp/camp-brooklyn/src/test/java/org/apache/brooklyn/camp/brooklyn/catalog/CatalogYamlRebindTest.java:283-316 | The app and location lookups after rebind meet the per-mode expectation |
| CatalogRebind.RedeployAsExpected | camp/camp-brooklyn/src/test/java/org/apache/brooklyn/camp/brooklyn/catalog/CatalogYamlRebindTest.java:318-341 | A second app deploys exactly in the deployable modes and then refers to the app's versioned id; otherwise it fails to match the app reference |
| CatalogRebind.TestRebindWithCatalogAndApp | camp/camp-brooklyn/src/test/java/org/apache/brooklyn/camp/brooklyn/catalog/CatalogYamlRebindTest.java:149-341 | For every data-provider row and either auto-fix default: the first entity refers to `name:0.1.0`, the entity rebinds to `name:<current version>`, the items look up as the mode expects, and a new app deploys exactly in the deployable modes, otherwise failing to match `my.catalog.app` |
| CatalogRebind.DeleteUnderOsgiCannotRebind | camp/camp-brooklyn/src/test/java/org/apache/brooklyn/camp/brooklyn/catalog/CatalogYamlRebindTest.java:135-140 | Under OSGi, deleting the items removes the bundle, so the entity cannot rebind; this is why the data provider omits that row |

## Left out

- SSH and task plumbing are not modelled: `runCommands`, `SshTasks.installFromUrl`, the task queue and the wait. `Execute` takes their outcome as the parameter `runOnMachine`, and `machineFound` stands for `Machines.findUniqueMachineLocation`.
- The assertion checks on the result are left out: `handle`, `checkAssertions`, `AssertionSupport`, and the trimming of stdout/stderr in `Result`. Their pass/fail is part of `runOnMachine`. Only the choice of the exit-code assertions is modelled.
- `Strings.maxlenWithEllipsis` (`shorten`) and all logging only affect log output.
- `java.net.URL` parsing is not modelled: the URL's path is a parameter, and None stands for a malformed URL. `Identifiers.makeRandomId(8)` is also a parameter.
- The config key names and `DEFAULT_ASSERTION` are declared in the `TestSshCommand` interface, which is not part of this model. The key names are parameters, and the default assertion is written as `{equals: 0}`.
- `ServiceStateLogic.setExpectedState` is reduced to writing the expected state.
- XML parsing and serialisation in `removeFromXml` (DocumentBuilder, Transformer with indentation) are not modelled. Attributes and other node kinds are not modelled either; only elements and text are.
- The catalog and rebind engine, the persistence object store and its `Strings.makeValidFilename` keys are not part of this model. The store is keyed by item id. The rebind, deploy and auto-fix rules are stated from the test's assertions and comments:
  - `DeployApp`: that the app reference is checked before the location is an assumption. In the failing modes both are undeployable, and the test only requires the error to mention `my.catalog.app`.
  - `ImplementationLoadable`: under OSGi, the implementation type is loadable exactly when some catalog item with the same symbolic name remains. This stands in for the OSGi bundle, which is not modelled.
  - `FixProvenance`: the offered versions exclude disabled items. That is an assumption about the engine.
- `VersionLt` orders versions lexicographically on their text, not by the platform's version comparison. This suffices for 0.1.0 and 0.2.0.
- The policy and enricher of the rebound entity (lines 274-275) are not modelled. The `stop` of the rebound app and its unmanagement (lines 278-280) are not modelled either, because entity management is engine code that is not part of this model.
- The process-wide save and restore of the auto-fix feature flag in `setUp`/`tearDown` is global test scaffolding. The flag's default is the parameter `defaultAutoFix`.
- The YAML catalog formats and the OSGi bundle URL are not modelled. The catalog items are reduced to their ids.
