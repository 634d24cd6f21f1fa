# composer-studio, modelled in Dafny

composer-studio is a Composer plugin for developing packages locally. Paths listed in the
project's `studio.json` are "managed": after `composer update`/`install` (and before the
autoloader is dumped) the plugin replaces the installed copy of each managed package in
`vendor/` with a link to the local path, keeping the original directory under
`.studio/<package name>`; before the next update it removes those links and moves the
originals back. A copy of `studio.json` kept in `.studio/` remembers which paths were managed
last time, so that paths dropped from the configuration are still unlinked. The plugin also
knows how to swap the managed packages into Composer's local repository, and Studio keeps its
own list of package ids in a lazily loaded configuration object.

The model consists of:

- `Manifest` (manifest.dfy): building a package descriptor from a managed path's
  `composer.json` (version forced to `dev-master`, `extra.branch-alias` dropped, dist URL set
  to the path), with the loader's failures as a `Result`.
- `Reconcile` (reconcile.dfy): the filesystem as a value (install destinations that are
  directories, links or missing; backups by package name; whether `.studio` exists; the two
  `studio.json` files) and the link and unlink passes as functions over it, with their
  properties: idempotence of linking, skipping of links, backup on replace, recording of
  `studio.json`, unlinking of previous-then-current paths, no-op when nothing is linked.
- `RoundTrip` (roundtrip.dfy): link followed by unlink restores every original directory and
  leaves no backup, for packages with distinct names and destinations.
- `Plugin` (plugin.dfy): the filesystem as a class whose fields the passes update, and the
  plugin's `symlinkStudioPackages` / `unlinkStudioPackages` as loops over it, each proved to
  produce exactly the state the `Reconcile` functions describe. The `Filesystem` methods stand
  in for Composer's `Filesystem` utility and PHP's file functions.
- `Repository` (repository.dfy): `getIntersection` and the four loops of
  `loadStudioPackagesForDump` over a `LocalRepository` class that stands in for Composer's
  local repository.
- `Events` (events.dfy): the event-to-handler map, including the PHP rule that a key written
  twice in an array literal keeps the last value.
- `StudioConfig` (config.dfy): `Config` over a `Storage` class (load/store).
- `Common` (common.dfy): `Option`, `Result` and a map-lookup helper.

An exception raised while building a descriptor (missing `composer.json`, an `extra` that
is a string, a number or `true`, a manifest whose `name` is missing, null, an array or an object) is not caught anywhere in the plugin, so it ends the whole
pass at the first failing path, with the changes made so far still on disk. The model returns
it as `aborted`, beside the partially updated filesystem. When a directory is replaced by a
link while a backup of the same package name already exists, the directory is copied over
that backup, so the two are merged.

## Model

| member | source | states |
|---|---|---|
| `Manifest.StripBranchAlias` | src/Composer/StudioPlugin.php:306 | unsetting `extra.branch-alias` fails exactly when `extra` is a string (string-offset error), a number or `true` (non-array error); an object `extra` becomes the same object without that key and nothing else; a list, `null`, `false`, an absent `extra` and every other key are untouched |
| `Manifest.LoadedName` | src/Composer/StudioPlugin.php:309 | the loader fails with a missing name exactly when `name` is absent or null and with an invalid name exactly when it is an array or object; a string `name` is the package name as it is, a number its decimal string and a boolean `"1"` or `""` |
| `Manifest.CreatePackageForPath` | src/Composer/StudioPlugin.php:298-313 | the build succeeds exactly when the manifest exists, its `extra` (if any) is not a string, a number or `true`, and the loader accepts its `name`; every failure gets its own error: a missing manifest, a string `extra` (string-offset error), a number or `true` `extra` (non-array error), then, with an acceptable `extra`, an absent or null `name` (missing name) and an array or object `name` (invalid name); on success the package carries the loaded name (a string `name` as it is), version `dev-master`, dist URL equal to the path, and a manifest with `version` added, `extra` stripped of its branch alias only, and every other key kept |
| `Reconcile.FirstError` | src/Composer/StudioPlugin.php:221-223 | no error is reported exactly when every path has a buildable descriptor; a reported error names a path of the list whose descriptor fails |
| `Reconcile.FirstErrorIsFirst` | src/Composer/StudioPlugin.php:221-222 | the reported error is the failing path's own error, and every path before it has a buildable descriptor |
| `Reconcile.LinkPackage` | src/Composer/StudioPlugin.php:226-242 | afterwards the destination is a link; an existing link is left as is; a real directory is merged into `.studio/<name>` and replaced by a link to the dist URL; a missing destination gets the link and no backup; no other destination or backup changes; `.studio` exists whenever a backup does |
| `Reconcile.UnlinkPackage` | src/Composer/StudioPlugin.php:277-288 | afterwards the destination is not a link; a real directory or a missing destination is left as is; a link is removed and replaced by its backup when one exists, which is then gone; nothing else changes |
| `Reconcile.Finish` | src/Composer/StudioPlugin.php:245-261 | the tail of the link pass touches no destination, backup or `studio.json`; it never removes `.studio`; the recorded copy is either left alone or becomes the current `studio.json`; the exact conditions are stated by `LinkPassOutcome` |
| `Reconcile.LinkPass` | src/Composer/StudioPlugin.php:218-262 | the pass aborts exactly at the first managed path whose descriptor fails, never changes `studio.json`, and records nothing when it aborts; its outcome, idempotence and round trip are stated by `LinkPassOutcome`, `LinkPassIdempotent` and `LinkPassThenUnlinkPassRestores` |
| `Reconcile.UnlinkPass` | src/Composer/StudioPlugin.php:268-290 | the pass visits the previously managed paths, then the current ones, and aborts exactly at the first whose descriptor fails; it creates no link and leaves `.studio` and both `studio.json` files alone; see also `UnlinkPassClearsEveryVisitedPath` and `UnlinkPassNoopWhenNothingLinked` |
| `Reconcile.LinkAll` | src/Composer/StudioPlugin.php:221-243 | the loop stops at the first failing descriptor and reports it; existing links are untouched; on completion every managed destination is a link; the configuration files are untouched |
| `Reconcile.UnlinkAll` | src/Composer/StudioPlugin.php:273-289 | the loop stops at the first failing descriptor and reports it; it creates no link; on completion no visited destination is a link; `.studio` and configuration files are untouched |
| `Reconcile.LinkAllLinks` | src/Composer/StudioPlugin.php:221-243 | every path the link loop reached before a failure has a link at its destination |
| `Reconcile.LinkAllSkipsLinked` | src/Composer/StudioPlugin.php:226-228 | a link loop over destinations that are already links changes nothing at all |
| `Reconcile.LinkPassIdempotent` | src/Composer/StudioPlugin.php:218-262 | a second link pass with the same configuration makes no backup, download or other change, and ends the same way |
| `Reconcile.LinkPassNoStrayState` | src/Composer/StudioPlugin.php:245-250 | with no managed paths the link pass creates no `.studio`, no backup and no link, and changes nothing when nothing was managed before either |
| `Reconcile.LinkPassOutcome` | src/Composer/StudioPlugin.php:245-261 | after a complete link pass every managed path is linked; `.studio` exists iff it did or paths are managed; `studio.json` is recorded iff paths are or were managed and the file exists, otherwise the recorded copy is untouched |
| `Reconcile.PassesKeepLayout` | src/Composer/StudioPlugin.php:233-259 | both passes keep `.studio` in existence whenever a backup or the recorded `studio.json` is inside it |
| `Reconcile.UnlinkAllSkipsUnlinked` | src/Composer/StudioPlugin.php:277-279 | an unlink loop over destinations none of which is a link changes nothing |
| `Reconcile.UnlinkPassNoopWhenNothingLinked` | src/Composer/StudioPlugin.php:268-290 | the unlink pass leaves the filesystem unchanged when no destination is a link |
| `Reconcile.UnlinkPassClearsEveryVisitedPath` | src/Composer/StudioPlugin.php:271-281 | after a complete unlink pass no destination of a previously managed path (even one no longer configured) nor of a current one is a link |
| `Reconcile.UnlinkAllAppend` | src/Composer/StudioPlugin.php:271-273 | unlinking previous paths followed by current paths is unlinking the previous ones, then the current ones unless the first part stopped early |
| `Reconcile.LinkAllAppend` | src/Composer/StudioPlugin.php:221-243 | linking `a` followed by `b` is linking `a` and then `b` unless `a` stopped early, so no path after a failing one is touched |
| `RoundTrip.LinkAllFresh` | src/Composer/StudioPlugin.php:233-241 | linking distinct, unlinked, not backed-up packages links each destination, keeps each original directory as its package's backup and changes nothing else |
| `RoundTrip.UnlinkAllLinked` | src/Composer/StudioPlugin.php:277-288 | unlinking distinct linked packages puts each backup (or nothing) back at its destination, removes each backup and changes nothing else |
| `RoundTrip.RestoresFrom` | src/Composer/StudioPlugin.php:281-287 | unlinking what the link loop left restores the destinations and backups as they were before linking |
| `RoundTrip.LinkThenUnlinkRestores` | src/Composer/StudioPlugin.php:233-236 | link loop then unlink loop over the same distinct paths restores every original directory and leaves no backup |
| `RoundTrip.LinkPassThenUnlinkPassRestores` | src/Composer/StudioPlugin.php:218-290 | a whole link pass followed by a whole unlink pass (which visits the recorded and the current paths) restores every destination and leaves no backup |
| `Plugin.StudioPlugin.LinkDestination` | src/Composer/StudioPlugin.php:226-242 | one iteration of the link loop leaves exactly the filesystem `LinkPackage` describes |
| `Plugin.StudioPlugin.UnlinkDestination` | src/Composer/StudioPlugin.php:277-288 | one iteration of the unlink loop leaves exactly the filesystem `UnlinkPackage` describes |
| `Plugin.StudioPlugin.SymlinkStudioPackages` | src/Composer/StudioPlugin.php:218-262 | the method leaves exactly the filesystem and early exit of `LinkPass`, and keeps `.studio` present whenever something is inside it |
| `Plugin.StudioPlugin.UnlinkStudioPackages` | src/Composer/StudioPlugin.php:268-290 | the method leaves exactly the filesystem and early exit of `UnlinkPass`, and keeps `.studio` present whenever something is inside it |
| `Repository.FindPackage` | src/Composer/StudioPlugin.php:177 | the package found is in the managed repositories and carries the name; none is found iff no managed package has the name |
| `Repository.FindPackageFirst` | src/Composer/StudioPlugin.php:172-177 | the package found is the first one with that name, in managed-path order |
| `Repository.MatchOf` | src/Composer/StudioPlugin.php:176-178 | an installed package yields at most one managed package, of its name, and none exactly when no managed package has that name (`array_filter` drops the null) |
| `Repository.Intersection` | src/Composer/StudioPlugin.php:170-182 | the intersection has no more packages than are installed, and all of them are managed packages; membership and order are stated by `IntersectionMembers` and `IntersectionAppend` |
| `Repository.IntersectionMembers` | src/Composer/StudioPlugin.php:170-182 | the intersection has at most one package per installed package, each a managed package named like an installed one, and holds the first managed match of every installed package that has one |
| `Repository.IntersectionAppend` | src/Composer/StudioPlugin.php:174-181 | the intersection is computed package by package, so it follows installed-package order |
| `Repository.IntersectionOfUnmanaged` | src/Composer/StudioPlugin.php:174-181 | installed packages without a managed counterpart contribute nothing |
| `Repository.MatchingOthersSplit` | src/Composer/StudioPlugin.php:149-154 | each local package is either to be removed (its name is to be replaced) or kept, never both |
| `Repository.OthersAppend` | src/Composer/StudioPlugin.php:149-157 | the packages kept by the reload keep their relative order |
| `Repository.OthersCount` | src/Composer/StudioPlugin.php:149-157 | a package not named in the intersection is kept exactly as many times as it occurs; the others not at all |
| `Repository.DropStep` | src/Composer/StudioPlugin.php:155-157 | removing the next package to remove takes out exactly that package and no earlier one |
| `Repository.ReloadReplacesManaged` | src/Composer/StudioPlugin.php:143-162 | after the reload no earlier package named like an intersection package is left; every other package is kept as often as it occurred, in its order (the kept part of `a + b` is the kept part of `a` followed by that of `b`); the intersection follows at the end in order |
| `Repository.PackagesToReplace` | src/Composer/StudioPlugin.php:143-146 | the loop collects the intersection's names, one per package, in order |
| `Repository.PackagesToRemove` | src/Composer/StudioPlugin.php:149-154 | the loop collects, in order, exactly the local packages whose name is to be replaced |
| `Repository.ReloadedPackages` | src/Composer/StudioPlugin.php:138-163 | what the reload leaves holds no package that was neither installed nor managed; what is kept and in which order is stated by `ReloadReplacesManaged` |
| `Repository.LoadStudioPackagesForDump` | src/Composer/StudioPlugin.php:138-163 | the local repository ends up holding exactly the kept packages followed by the intersection |
| `Events.ArrayLiteral` | src/Composer/StudioPlugin.php:90-97 | the literal's keys are exactly the keys written |
| `Events.ArrayLiteralValueWritten` | src/Composer/StudioPlugin.php:90-97 | every value of the literal is one written for its key |
| `Events.ArrayLiteralLastWins` | src/Composer/StudioPlugin.php:91-93 | a key written twice keeps the value written last |
| `Events.SubscribedEvents` | src/Composer/StudioPlugin.php:87-98 | no contract of its own; stated by `SubscribedHandlers` |
| `Events.SubscribedHandlers` | src/Composer/StudioPlugin.php:87-98 | exactly four events are handled: unlinking before an update, linking after an update, after an install and before the autoload dump |
| `StudioConfig.Without` | src/Config/Config.php:53-55 | the intended filter: no element equal to the package is left, and every other element keeps its number of occurrences |
| `StudioConfig.FilterAsWritten` | src/Config/Config.php:53-55 | no contract of its own; stated by `FilterAsWrittenRaises` |
| `StudioConfig.FilterAsWrittenRaises` | src/Config/Config.php:39-55 | as written, the filter gives the intended result only on an empty list, and adding a package then removing it always raises |
| `StudioConfig.WithoutAppend` | src/Config/Config.php:53-55 | removal works element by element, so the kept elements stay in their order |
| `StudioConfig.WithoutAbsent` | src/Config/Config.php:53-55 | removing a package that is not listed changes nothing |
| `StudioConfig.WithoutIdempotent` | src/Config/Config.php:51-57 | removing the same package twice is removing it once |
| `StudioConfig.AddThenRemove` | src/Config/Config.php:34-57 | with the intended removal, adding a package and then removing it gives the list without that package |
| `StudioConfig.Config.constructor` | src/Config/Config.php:19-22 | a new configuration has not loaded anything and has not touched storage |
| `StudioConfig.Config.GetPackages` | src/Config/Config.php:24-32 | the result is the stored list; storage is loaded on the first call only and never written |
| `StudioConfig.Config.AddPackage` | src/Config/Config.php:34-41 | the list is loaded, exactly the package's composer id is appended, and storage then holds the new list |
| `StudioConfig.Config.HasPackages` | src/Config/Config.php:43-49 | the result is true iff the stored list is non-empty; loading happens at most once |
| `StudioConfig.Config.RemovePackage` | src/Config/Config.php:51-57 | as written: on a non-empty list the callback's `Package` parameter rejects the stored id strings, so it raises and neither the list nor storage changes; an empty list is stored again; nothing is loaded |
| `StudioConfig.Config.RemovePackageById` | src/Config/Config.php:51-57 | as intended: the list loses every element equal to the package, keeps the rest in order, and storage then holds it; nothing is loaded |

## Left out

- Logging (`io->write`, `write`), `activate` (wiring of the Composer collaborators) and the
  dead `symlinkStudioPackages_old` are not modelled.
- src/Console/CreateCommand.php (interactive prompts, invoking Composer, skeleton creators) is
  not part of this model.
- `getManagedPackages` is modelled only through its parts: the path repositories become the
  sequence of managed packages handed to `Intersection`, and its logging is dropped.
- Real filesystem behaviour is abstracted: symlinks and junctions are one kind of node, a
  link's target is assumed to exist, file contents are opaque byte maps, `realpath` is the
  identity, and the path downloader always creates a link (its mirror fallback is not
  modelled).
- `.studio` is created once through a path relative to the working directory and used
  elsewhere through the project's real path; the model assumes the two are the same
  directory.
- JSON decoding of `composer.json` and `studio.json`, `Config::make`, `getPaths` and the
  storage format are not part of this model: manifests are given as decoded maps and the
  configuration files as their path lists.
- Manifest.CreatePackageForPath: of the array loader only the `name` is modelled (`isset`,
  then PHP's string conversion in the package constructor); its other checks, the lower-casing
  of the name and the package class it picks are not. A JSON float `name` is not modelled
  (numbers are integers), and an array or object `name` raising assumes PHP 8.
- Manifest.StripBranchAlias: follows PHP 8's `unset` on a nested offset (a string, a number or
  `true` raise; `null` and `false` pass, the latter with only a deprecation notice on PHP 8.1
  and later); older PHP versions, which behave differently on some of these values, are not
  modelled, and a JSON float counts as a number.
- Failures other than building a descriptor are not modelled: the filesystem operations
  (`ensureDirectoryExists`, `copyThenRemove`, `removeDirectory`, the downloader and the `copy`
  of `studio.json`, src/Composer/StudioPlugin.php:235-259 and 281-286) and `getInstallPath`
  (lines 223 and 275) are assumed never to raise. Only a descriptor that cannot be built ends
  a pass as `aborted`; intermediate states an I/O or permission error would leave (a backup
  with neither a directory nor a link at the destination, say) are out of scope.
- Composer's local repository is reduced to an ordered list: `removePackage` removes the
  first package with the same name and version, and alias or canonical-package distinctions
  are not modelled.
- StudioConfig.Config.RemovePackage: requires the list to have been loaded, because on an
  unloaded configuration the code filters an unset list.
- StudioConfig.Without: the intended filter (see Findings); `Studio\Package::equals` is not part of this model; equality is taken
  to be equality of composer ids, the strings the list holds. PHP's `array_filter` also keeps
  the original keys, so the stored array can have gaps; the model renumbers it.
- The storage behind `Config` is modelled as a list with load and store only.

## Findings

| source | as written | input that shows it | evidently intended | confidence | as-written member | corrected member |
|---|---|---|---|---|---|---|
| src/Config/Config.php:39-55 | `addPackage` stores composer-id strings, but `removePackage` filters with a callback whose parameter is declared `Package`, so the first stored string raises a type error | `addPackage(p)` then `removePackage(p)` on any configuration | remove every stored id equal to the package's id, keeping the others in order, and store the rest | not executed; high that PHP 7+ raises a TypeError on a string passed to a class-typed parameter | `StudioConfig.FilterAsWrittenRaises` | `StudioConfig.Config.RemovePackageById` |
