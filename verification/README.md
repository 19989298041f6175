# A Dafny model of the router's PXE boot service, lease-to-DNS hook and network merge

The project models the parts of the router that keep state or transform text, and proves what they promise
to each other. Each module follows one source file.

- **Merge**, **MergedPaths**: `recursiveMerge`, the n-ary deep merge of `systemd.network` fragments. Two laws are proved for all
  lists and depths, splitting anywhere and folding from the left, each with its own exact condition on kinds, and
  what the merge holds at every path.
- **ServeTree**: `ServeTree::rebuild` as a machine over single system calls, with a crash possible between any
  two and symlink calls completing in any order; class `SymlinkTree` is the program, and each of its executions
  is proved to be a run of the machine.
- **Discovery**: `IsoDiscovery::discover`, first folder wins, independent of directory order.
- **MountTable**, **Mounter**: the `/proc/mounts` decoder and scan against the kernel's encoding, and
  `IsoMounter` over the mount table with every command free to fail.
- **LeaseHook**: the Kea hook script as an event machine over fact files, and the zone file derived from them.
- **Detectors**: `DetectorRegistry`, push-and-sort registration and detection.
- **SeedTasks**, **SharedSeeds**, **Autoinstall**, **SeedConflicts**: `AutoinstallManager::prepare`, concurrent tasks
  over one file system: one task on its own, tasks that share a seed, every interleaving, and the exact condition
  under which the interleavings agree.
- **Urls**, **Placeholders**, **MenuEntries**, **KernelParams**: `MenuEntryFactory::create_entry`, percent-encoding, the
  two chained placeholder replacements, and the kernel parameters with the files that their URLs lead to.
- **GrubMenu**, **MenuScript**, **MenuBuilder**: `GrubMenuBuilder`, with readers that take entries, commands and default
  back out of the text.
- **Service**, **MenuFiles**, **DefaultWarnings**, **Preparation**: `PxeBootService`: entry positions and default
  resolution; the base and override files in a directory that outlives the run; default warnings; and the
  agreement of `prepare` and `status`.
- **BuiltInMenus**, **MenuBoots**, **MenuHead**: the same results for the names, texts and detectors of the code, up to what
  a client boots from the text that it loads.
- **PrepareRun**: one whole `prepare` run as a method over symlink tree, mount table, seed store and menu files.
- **Wrappers**, **Sequences**, **Text**, **Sorting**, **Paths**: shared vocabulary.

Strings are sequences of bytes or ASCII characters; a path is the list of its components. File systems, the mount
table, the disk under the symlink tree and the fact store are Dafny state. The outcome of external commands,
`can_handle`, `cksum`, file contents and directory order are parameters or nondeterministic. Imperative source
code is modelled by methods and classes that are proved against specification functions, and the lemmas are
about those functions.

## Where the code differs from its documentation

- The comment on `rebuild` (serve_tree.rs:35-43) promises that a crash leaves the previous complete tree intact.
  The code deletes the live tree entry by entry before the rename. `ServeTree.IntactIffNothingToDelete` gives
  the exact condition; `ServeTree.CrashSafety` is what holds always.
- Merging is not the same as merging step by step for all inputs. Splitting a list of fragments anywhere is safe
  for the kinds given by `Merge.SafeKindsIsExact`, and fails for a list, a scalar and a list under one name.
  Merging the fragments one after the other is safe for the kinds given by `Merge.FoldKindsIsExact`, and fails
  for a scalar and two lists (`Merge.UnfoldableKindsFail`). `Merge.LawsDiffer` tells the two apart.
- The comment on the override files (lib.rs:414-419) has a client without one fall through to the interface's own
  default. Nothing removes such a file: when a reservation loses its defaults, its client goes on loading the old
  override.
  `MenuFiles.ClientLoadsItsVariantIff` gives the exact condition, `MenuFiles.RemovedOverrideStays` the failing
  case, and `MenuFiles.LoadedAfterRuns` what is loaded after any sequence of configurations.
- `set default=N` names the N-th entry of the file. A client whose cpu hides earlier entries starts another
  one: `Service.ClientStartsTheDefaultIff`, and `Service.HiddenEntryMovesTheDefault` for an instance.
- `mount` answers success for a wrong ISO when mounts are stacked on its point and only the first one is right:
  `Mounter.MountOkIffServed`, and `Mounter.StackedMountFools` for an instance. It cannot happen while there is at
  most one mount per point.
- The mount scan never recognizes a mount point with a carriage return, vertical tab or form feed, which the
  kernel does not encode: `MountTable.MountedIsFoundIff`.
- The comment in `prepare` of the autoinstall manager (manager.rs:39-45) calls the per-task `ensure_dir` safe. A
  task can fail in it exactly if a stale file stands at the directory of an ISO with several scripts, or a file
  at the seed root: `Autoinstall.EarlyFailureIffStale`.
- The comment calls the paths of the tasks independent, and the configuration accepts two scripts of one name for an
  ISO (config-tftp.nix:169-179; validation.rs looks only for missing scripts). Such tasks write one seed.
  `SeedConflicts.AgreeIffHarmless` gives the exact condition under which all interleavings still agree;
  by `SeedConflicts.AgreeIffDistinct` it means distinct names when sources are readable and no directory is in the way.
- Kernel and initrd paths are not percent-encoded. An entry boots them exactly if no component has a blank or another
  character with a meaning in a GRUB script, a question mark, a hash, a backslash or an escape:
  `MenuEntries.EntryServesBootFilesIff`. `MenuEntries.QuestionMarkCutsThePath` is a failing case, which the NixOS
  detector lets through (`BuiltInMenus.CutKernelIsAccepted`); Ubuntu and RHEL discs always boot
  (`BuiltInMenus.PreparedEntryBoots`).
- The URLs in kernel parameters hold the gateway without the brackets that an IPv6 address needs (entry.rs:74-86,
  entry.rs:102-108; section 3.2.2 of RFC 3986). `MenuEntries.FetchIff`: they can be fetched exactly if the gateway
  has no colon.

## Model

| member | source | states |
|---|---|---|
| Merge.UniqueConcat | nixosModule/functions/general.nix:20-21 | Removing duplicates early, on either side of a concatenation, changes nothing: unique(unique a ++ b) = unique(a ++ b) = unique(a ++ unique b). |
| Merge.UniqueKeepsFirsts | nixosModule/functions/general.nix:20-21 | Deduplication keeps every element, once, in the order of first occurrences. |
| Merge.MergeSplit | nixosModule/functions/general.nix:9-29 | Merging a list of fragments at once equals merging any prefix and suffix separately and then the two results, at all depths, when the kinds under every name are safe. |
| Merge.SplitSafe | nixosModule/functions/general.nix:16-26 | The same law for the values under one name: lists are concatenated and deduplicated, sets merged recursively, otherwise the last value wins. |
| Merge.OneKindIsSafe | nixosModule/functions/general.nix:20-25 | Inputs that hold one kind of value at every path satisfy the condition of the law. |
| Merge.MergeIsFold | nixosModule/functions/general.nix:9-29 | Merging all fragments at once equals merging them one after the other, when the kinds at every path are foldable. |
| Merge.FoldableFolds | nixosModule/functions/general.nix:18-25 | The same for the values under one name, at every depth. |
| Merge.FoldKindsIsExact | nixosModule/functions/general.nix:18-25 | For values that are not all sets, merging is a fold for all contents if and only if the kinds are equal, or the last is a scalar, or the last two differ. |
| Merge.UnfoldableKindsFail | nixosModule/functions/general.nix:18-25 | All other kinds, such as scalar, list, list, have values for which the fold gives something else. |
| Merge.FoldLawOfAttrs | nixosModule/functions/general.nix:22-23 | For sets, merging is a fold exactly when it is one under every name, so the exact condition applies at every depth. |
| Merge.OneKindIsFoldable | nixosModule/functions/general.nix:20-25 | Inputs that hold one kind of value at every path are foldable. |
| Merge.SafeKindsFold | nixosModule/functions/general.nix:18-25 | Kinds that are safe to split are foldable. |
| Merge.LawsDiffer | nixosModule/functions/general.nix:18-25 | List, scalar, list can be folded but not split for all contents; scalar, list, list neither. |
| Merge.SafeKindsIsExact | nixosModule/functions/general.nix:18-25 | For values that are not all sets, the law holds for all contents and split points if and only if the kinds are safe. |
| Merge.UnsafeKindsFail | nixosModule/functions/general.nix:18-25 | Every unsafe sequence of kinds has contents and a split point for which the law fails. |
| Merge.NestingKeepsTheLaw | nixosModule/functions/general.nix:22-23 | The law holds one level down exactly when it holds here, so the exact condition applies at every depth. |
| MergedPaths.MergeHoldsAtPath | nixosModule/functions/general.nix:9-29 | At every path above which the fragments hold only sets, the merge holds nothing where none has a value, the only value, for lists exactly their elements, each once, in the order of first occurrence, for sets a set of all their names, and else the last value. |
| MergedPaths.UniqueIsFirstOccurrences | nixosModule/functions/general.nix:20-21 | The list that is left has exactly the elements of the given lists, no two equal, and each comes before another only if it occurs before it in the lists. |
| MergedPaths.LastStandsAsAWhole | nixosModule/functions/general.nix:16-26 | Below a path with one value, or with values of different kinds, the merge is the last of them, untouched. |
| ServeTree.CrashSafety | packages/pxe-boot-prepare/src/iso/serve_tree.rs:44-84 | At every point of every run, under every order of the link calls and any fault, the served tree is the new one or part of the old one, and less than the old only while the complete new one is staged. |
| ServeTree.BuildErrorKeepsLive | packages/pxe-boot-prepare/src/iso/serve_tree.rs:49-72 | An error in the build phase leaves the live tree equal to the old one. |
| ServeTree.Recovery | packages/pxe-boot-prepare/src/iso/serve_tree.rs:44-84 | From any disk, a finished run without I/O faults ends with exactly {file name -> path} and no staging if names are distinct, and otherwise fails in the build phase. |
| ServeTree.StepsEnd | packages/pxe-boot-prepare/src/iso/serve_tree.rs:44-84 | Every step, working or faulting, lowers a rank: no run goes on for ever. |
| ServeTree.Progress | packages/pxe-boot-prepare/src/iso/serve_tree.rs:44-84 | A run that has not ended can always take a step that works. |
| ServeTree.ReachesRename | packages/pxe-boot-prepare/src/iso/serve_tree.rs:74-79 | Every fault-free run over distinct names is a prefix of one that reaches the point just before the rename. |
| ServeTree.IntactIffNothingToDelete | packages/pxe-boot-prepare/src/iso/serve_tree.rs:35-43 | The documented crash promise holds for all runs and crash points if and only if there is no live directory or two names collide. |
| ServeTree.NeverAMixture | packages/pxe-boot-prepare/src/iso/serve_tree.rs:44-84 | Over any history of crashed, failed and successful rebuilds, what is served is part of the first tree or of one single later ISO list. |
| ServeTree.SymlinkTree.Rebuild | packages/pxe-boot-prepare/src/iso/serve_tree.rs:44-84 | Every execution is a run of the machine; success means live is exactly the new tree, a build error keeps the old one, and without faults it succeeds exactly if names are distinct. |
| ServeTree.SymlinkTree.Build | packages/pxe-boot-prepare/src/iso/serve_tree.rs:45-72 | The build phase follows the machine and ends built or failed. |
| ServeTree.SymlinkTree.LinkAll | packages/pxe-boot-prepare/src/iso/serve_tree.rs:59-72 | All link calls run in any order; one that fails stops no other, and the error shows after all. |
| ServeTree.SymlinkTree.Swap | packages/pxe-boot-prepare/src/iso/serve_tree.rs:74-81 | The delete and rename phase follows the machine and ends done or failed. |
| ServeTree.SymlinkTree.ClearStaging | packages/pxe-boot-prepare/src/iso/serve_tree.rs:49-51 | Removing the staging directory entry by entry follows the machine, and can stop at any entry. |
| ServeTree.SymlinkTree.DeleteLive | packages/pxe-boot-prepare/src/iso/serve_tree.rs:74-78 | Removing the live directory entry by entry follows the machine, and can stop at any entry. |
| Discovery.Discover | packages/pxe-boot-prepare/src/iso/discovery.rs:31-118 | The result is strictly sorted and holds exactly the winners: the least path with its name in the first folder that has that name; names are distinct. |
| Discovery.CollectIsos | packages/pxe-boot-prepare/src/iso/discovery.rs:39-83 | Of one folder, exactly the readable regular files with an iso extension in any case, in reading order. |
| Discovery.IsoFilesOf | packages/pxe-boot-prepare/src/iso/discovery.rs:64-82 | The candidates of a folder are exactly its regular files whose name ends in ".iso" in any case after a non-empty stem. |
| Discovery.AddFolder | packages/pxe-boot-prepare/src/iso/discovery.rs:90-106 | Names of earlier folders stay, new names come with their least path. |
| Discovery.DiscoveredNamesAreDistinct | packages/pxe-boot-prepare/src/iso/discovery.rs:90-112 | Every discovered path has a file name and no two share one. |
| Discovery.EveryNameIsDiscovered | packages/pxe-boot-prepare/src/iso/discovery.rs:38-112 | Every ISO file name present in any folder is discovered by exactly one path. |
| Discovery.OneWinnerPerName | packages/pxe-boot-prepare/src/iso/discovery.rs:90-106 | Two winners of one name are the same path. |
| Discovery.ReadOrderDoesNotMatter | packages/pxe-boot-prepare/src/iso/discovery.rs:85-111 | Folders that hold the same ISO files give the same list in whatever order they are read. |
| Sorting.PathLeqMeans | packages/pxe-boot-prepare/src/iso/discovery.rs:85-112 | The order of the discovered paths: a prefix comes first, and otherwise the first component that differs decides. |
| MountTable.UnescapeMountField | packages/pxe-boot-prepare/src/iso/mount.rs:22-41 | The index loop computes the recursive decoder, with the literal backslash for octal values above 255. |
| MountTable.DecodesIffUnambiguous | packages/pxe-boot-prepare/src/iso/mount.rs:17-41 | Decoding undoes the octal encoding of a set of bytes for all strings if and only if backslash, or every octal digit, is in the set. |
| MountTable.Decodes | packages/pxe-boot-prepare/src/iso/mount.rs:17-41 | unescape(escape(s)) = s for every string and every such set, the kernel's among them. |
| MountTable.ScanMounts | packages/pxe-boot-prepare/src/iso/mount.rs:116-123 | The loop with its break returns the first word of the first line whose decoded second word is the target. |
| MountTable.ScanFindsFirstSeen | packages/pxe-boot-prepare/src/iso/mount.rs:116-123 | On any table of readable lines the scan gives the device field of the first entry whose point, up to white space that the kernel leaves unencoded, is the target. |
| MountTable.MountedIsFoundIff | packages/pxe-boot-prepare/src/iso/mount.rs:116-127 | A mounted target is found if and only if it holds no carriage return, vertical tab or form feed. |
| MountTable.ScanFindsFirst | packages/pxe-boot-prepare/src/iso/mount.rs:116-123 | In a table of clean entries the scan finds a device exactly when the point is mounted, and it is the device field of the first entry there. |
| MountTable.EncodedIsAWord | packages/pxe-boot-prepare/src/iso/mount.rs:17-21 | An encoded field holds no separator and is not empty. |
| MountTable.DeviceIsPlain | packages/pxe-boot-prepare/src/iso/mount.rs:119-121 | The device word, which the scan does not decode, is the device exactly when nothing in it is encoded. |
| Mounter.MountTouchesOnePoint | packages/pxe-boot-prepare/src/iso/mount.rs:58-96 | A call, whatever fails in it, changes no entry of another point and no backing file under one. |
| Mounter.MountOkIffServed | packages/pxe-boot-prepare/src/iso/mount.rs:58-157 | Success names the ISO's own point, and the point then serves the requested ISO unless mounts are stacked there, the first of that ISO and the last not. |
| Mounter.StackedMountFools | packages/pxe-boot-prepare/src/iso/mount.rs:72-75 | The failing case: with the right ISO mounted first and another file over it, the call answers Ok and the point serves the other file. |
| Mounter.MountKeepsBound | packages/pxe-boot-prepare/src/iso/mount.rs:58-96 | With at most one mount per point, the bound is kept and success implies that the point serves the requested ISO. |
| Mounter.MountSucceeds | packages/pxe-boot-prepare/src/iso/mount.rs:58-96 | On any table a named ISO is mounted whenever every command works and the kernel has a free loop device. |
| Mounter.MountFailsOnlyFor | packages/pxe-boot-prepare/src/iso/mount.rs:58-96 | Each error has its cause: a path without a name, a failed directory, probe or table read, or a failed umount or mount. |
| Mounter.RightMountStays | packages/pxe-boot-prepare/src/iso/mount.rs:72-75 | An ISO that its point already serves is left alone. |
| Mounter.MountServes | packages/pxe-boot-prepare/src/iso/mount.rs:58-96 | When everything works the point serves the requested ISO afterwards, through one mount, whatever it served before. |
| Mounter.UnmountAllIsLocal | packages/pxe-boot-prepare/src/iso/mount.rs:223-253 | Cleanup with any failures adds no mount and touches no point outside the mount root. |
| Mounter.UnmountAllClears | packages/pxe-boot-prepare/src/iso/mount.rs:223-253 | Cleanup ends well exactly if every probe works, and then no directory entry whose umount worked is still mounted. |
| Mounter.CallsKeepBound | packages/pxe-boot-prepare/src/iso/mount.rs:58-253 | Over every sequence of mount and unmount_all calls with any failures the bound is kept and points outside the root keep what they serve. |
| Mounter.AllPairsHold | packages/pxe-boot-prepare/src/lib.rs:157-171 | After the mount loop over ISOs with distinct names, every collected pair holds at the same time. |
| Mounter.CollectedIffMounted | packages/pxe-boot-prepare/src/lib.rs:157-171 | An ISO is among the collected pairs if and only if its own call succeeds at its turn. |
| Mounter.WorkingIsCollected | packages/pxe-boot-prepare/src/lib.rs:157-171 | Every named ISO for which everything works at its turn is collected with its own mount point. |
| Mounter.AllAreCollected | packages/pxe-boot-prepare/src/lib.rs:157-171 | If everything works, on loop devices of their own, all ISOs are collected in order. |
| Mounter.IsoMounter.VerifyMount | packages/pxe-boot-prepare/src/iso/mount.rs:110-157 | Reading the table as text answers whether the first entry of the point is a loop device backed by the expected ISO. |
| Mounter.IsoMounter.DoMount | packages/pxe-boot-prepare/src/iso/mount.rs:159-197 | A successful mount command adds one entry on a fresh loop device; a failed one changes nothing. |
| Mounter.IsoMounter.Unmount | packages/pxe-boot-prepare/src/iso/mount.rs:199-220 | A successful umount removes the last mount of the point and frees its device; a failed one changes nothing. |
| Mounter.IsoMounter.Mount | packages/pxe-boot-prepare/src/iso/mount.rs:58-96 | The call with all its error branches equals its specification on the mount table. |
| Mounter.IsoMounter.UnmountAll | packages/pxe-boot-prepare/src/iso/mount.rs:223-253 | A stuck mount is skipped, a failed probe ends the cleanup. |
| Mounter.IsoMounter.MountDiscovered | packages/pxe-boot-prepare/src/lib.rs:157-171 | The loop skips failures, and at its end all collected pairs hold together. |
| LeaseHook.FactsAreLastVerdicts | nixosModule/scripts/dns-server-lease-hook.sh:37-69 | Over every sequence of events an address has a fact exactly when the last event that mentions it is a lease with a name to publish, deletions of a commit counting after its leases. |
| LeaseHook.FactsAreLegitimate | nixosModule/scripts/dns-server-lease-hook.sh:37-65 | Every fact comes from an announced lease of its address in an allowed subnet; it is the host name without the dot at its end, not empty, and in the reserved list only through a reserved MAC in small letters. |
| LeaseHook.HasFactIff | nixosModule/scripts/dns-server-lease-hook.sh:37-65 | An address has a fact if and only if its last mention is a lease in an allowed subnet with a name, free of the dot at its end, that is reserved by MAC, or free while pool leases are published; and the fact is that name. |
| LeaseHook.ReservedNameIsKept | nixosModule/scripts/dns-server-lease-hook.sh:26-55 | A reserved name, announced with or without the dot at its end, is never published for another MAC. |
| LeaseHook.EventMeans | nixosModule/scripts/dns-server-lease-hook.sh:111-155 | What each kind of event does at each address, deleted addresses and the last of several leases included. |
| LeaseHook.RenderIsCanonical | nixosModule/scripts/dns-server-lease-hook.sh:76-97 | The zone text does not depend on the order in which the fact files are found. |
| Sorting.StringLeqMeans | nixosModule/scripts/dns-server-lease-hook.sh:80 | The order of the record lines is byte by byte, a prefix first. |
| LeaseHook.ZoneReadsBack | nixosModule/scripts/dns-server-lease-hook.sh:64-97 | The record lines of the zone file parse back to exactly the fact map (section 5.1 of RFC 1035). |
| LeaseHook.SerialIsChecksum | nixosModule/scripts/dns-server-lease-hook.sh:81-97 | The header of the zone file, with its serial number, is that of the checksum of the records that stand below it. |
| LeaseHook.ZoneSerial | nixosModule/scripts/dns-server-lease-hook.sh:81-97 | The serial number read from the SOA record of the zone file is the checksum of the records below it. |
| LeaseHook.ZoneInSync | nixosModule/scripts/dns-server-lease-hook.sh:111-155 | In every reachable state the zone is the rendering of the current facts, or nothing regenerated it yet and there are no facts. |
| LeaseHook.NoZoneWithoutRegeneration | nixosModule/scripts/dns-server-lease-hook.sh:135-148 | There is no zone file exactly while no event has regenerated it. |
| LeaseHook.ResolverSeesFacts | nixosModule/scripts/dns-server-lease-hook.sh:75-155 | Over clean events a reader of the zone file sees exactly the facts. |
| LeaseHook.ScriptFormatIsGood | nixosModule/scripts/dns-server-lease-hook.sh:87-97 | The header of the script is three lines for every one-line checksum, as the read-back needs. |
| LeaseHook.HookScript.PublishFact | nixosModule/scripts/dns-server-lease-hook.sh:37-65 | The old fact of the address is removed, the lease's name takes its place exactly if it is to be published, and no other fact changes. |
| LeaseHook.HookScript.RemoveFact | nixosModule/scripts/dns-server-lease-hook.sh:67-69 | Exactly the fact of the address is removed. |
| LeaseHook.HookScript.FindFacts | nixosModule/scripts/dns-server-lease-hook.sh:80 | Any enumeration of the fact files, each once. |
| LeaseHook.HookScript.RegenerateZonefile | nixosModule/scripts/dns-server-lease-hook.sh:75-109 | The zone becomes the canonical rendering, and the file is replaced exactly when its text differs. |
| LeaseHook.HookScript.Replace | nixosModule/scripts/dns-server-lease-hook.sh:99-108 | The zone file becomes the given text and is moved into place exactly if it differs. |
| LeaseHook.HookScript.Handle | nixosModule/scripts/dns-server-lease-hook.sh:111-155 | One event changes facts, zone and replacement count as the event specification says. |
| LeaseHook.RunEvents | nixosModule/scripts/dns-server-lease-hook.sh:111-155 | Running the script over any events from an empty store reaches exactly the specified facts and zone. |
| Detectors.ResortAfterPush | packages/pxe-boot-prepare/src/distro/detector.rs:98-101 | Sorting after each push equals one stable sort of the registration order. |
| Detectors.StableSortIsUnique | packages/pxe-boot-prepare/src/distro/detector.rs:98-101 | Two lists sorted by priority that agree priority by priority are equal. |
| Detectors.SortIsStable | packages/pxe-boot-prepare/src/distro/detector.rs:98-101 | Sorting keeps the registration order within every priority. |
| Detectors.SortedListDecides | packages/pxe-boot-prepare/src/distro/detector.rs:104-115 | Detection stops at the detector that does not decline and has the highest priority, ties to the earliest registered; there is none exactly when all decline. |
| Detectors.CatchAll | packages/pxe-boot-prepare/src/distro/detector.rs:68-72 | With a catch-all registered and no failing check, detection succeeds with a matching detector. |
| Detectors.CatchAllIsLast | packages/pxe-boot-prepare/src/distro/unknown.rs:27-34 | The catch-all is never the answer while a detector of a positive priority matches. |
| Detectors.BuiltInOrder | packages/pxe-boot-prepare/src/distro/detector.rs:63-72 | Without failing checks the built-in detectors answer NixOS before Ubuntu before RHEL before the catch-all. |
| Detectors.DetectorRegistry.constructor | packages/pxe-boot-prepare/src/distro/detector.rs:58-75 | The four built-in detectors are registered in this order, and the list is in priority order. |
| Detectors.DetectorRegistry.Register | packages/pxe-boot-prepare/src/distro/detector.rs:77-102 | The field stays the stable sort of everything registered. |
| Detectors.DetectorRegistry.Detect | packages/pxe-boot-prepare/src/distro/detector.rs:104-115 | The answer is that of the deciding detector, an error of its check included, or no match exactly when all decline. |
| Autoinstall.EveryInterleavingEnds | packages/pxe-boot-prepare/src/autoinstall/manager.rs:46-94 | From any file system in which no task can fail early, every complete interleaving ends in the outcome given task by task and path by path, scripts of one name included where they are harmless. |
| Autoinstall.InterleavingsAgree | packages/pxe-boot-prepare/src/autoinstall/manager.rs:46-94 | All complete interleavings leave one and the same file system and the same tasks failed. |
| SeedConflicts.AgreeIffHarmless | packages/pxe-boot-prepare/src/autoinstall/manager.rs:35-45 | All complete interleavings agree on files and failures if and only if any two tasks of one seed both fail on their own and would leave the same. |
| SeedConflicts.OutcomeIffHarmless | packages/pxe-boot-prepare/src/autoinstall/manager.rs:35-45 | The outcome given task by task is that of every complete interleaving under exactly this condition. |
| SeedConflicts.AgreeIffDistinct | packages/pxe-boot-prepare/src/autoinstall/manager.rs:35-45 | With readable sources and no directory in the way, the interleavings agree if and only if the script names of every ISO are distinct. |
| SeedConflicts.LastDecides | packages/pxe-boot-prepare/src/autoinstall/manager.rs:108-112 | Of several tasks of one seed, each can be made the last one, and then the file is its own. |
| SeedConflicts.Race | packages/pxe-boot-prepare/src/autoinstall/manager.rs:102-112 | Two tasks of one seed that succeed on their own have an interleaving in which one fails, because it cannot copy onto the read-only file of the other. |
| SharedSeeds.TwinStep | packages/pxe-boot-prepare/src/autoinstall/manager.rs:57-84 | What a task that shares its seed may rely on is kept by its own steps, which touch nothing outside the seed. |
| SharedSeeds.OtherStep | packages/pxe-boot-prepare/src/autoinstall/manager.rs:57-84 | It is kept by the steps of the tasks it shares the seed with. |
| SharedSeeds.LiveOrTakenOver | packages/pxe-boot-prepare/src/autoinstall/manager.rs:136-144 | When one of them takes off the stale file that another one saw, it goes on in its place. |
| Autoinstall.OutcomeIsUnique | packages/pxe-boot-prepare/src/autoinstall/manager.rs:46-94 | The outcome determines the whole file system and which tasks failed. |
| SeedTasks.SoloEnd | packages/pxe-boot-prepare/src/autoinstall/manager.rs:52-88 | What one task leaves at every path of its seed, and exactly when it fails. |
| SeedTasks.InstallSteps | packages/pxe-boot-prepare/src/autoinstall/manager.rs:108-112 | Remove and copy install the source's content, fail exactly for a directory in the way or an unreadable source, and touch nothing else. |
| SeedTasks.FreshSteps | packages/pxe-boot-prepare/src/autoinstall/manager.rs:116-120 | Remove and write leave an empty file, fail exactly for a directory in the way, and touch nothing else. |
| SeedTasks.EnsureSeedSteps | packages/pxe-boot-prepare/src/autoinstall/manager.rs:136-144 | At a seed directory a stale file is replaced by a directory. |
| Autoinstall.InstalledIffReadable | packages/pxe-boot-prepare/src/autoinstall/manager.rs:32-98 | With no directory in the way the run succeeds exactly when all sources are readable, and each readable script is installed with its content whatever happens to the others. |
| Autoinstall.SecondRunChangesNothing | packages/pxe-boot-prepare/src/autoinstall/manager.rs:32-98 | Preparing again from where a preparation ended changes nothing and fails for the same tasks. |
| Autoinstall.EarlyFailureIffStale | packages/pxe-boot-prepare/src/autoinstall/manager.rs:136-144 | For every configuration and file system, some interleaving fails while ensuring an ISO directory if and only if a stale file stands at the directory of an ISO with several scripts, or a file at the seed root. |
| Autoinstall.RootFileFails | packages/pxe-boot-prepare/src/autoinstall/manager.rs:142 | A file at the seed root stops every task. |
| Autoinstall.BothSeeStaleFile | packages/pxe-boot-prepare/src/autoinstall/manager.rs:137-140 | The interleaving itself: both tasks see the stale file, one removes it, the other fails. |
| Autoinstall.InstallerGetsItsScript | packages/pxe-boot-prepare/src/autoinstall/manager.rs:47-84 | The URL an installer fetches names exactly the file that the writer produced for that ISO and script, with the source's content. |
| Autoinstall.NoCloudFindsItsSeed | packages/pxe-boot-prepare/src/autoinstall/manager.rs:55-75 | The seed of an Ubuntu script that did not fail serves the script as `user-data` and an empty `meta-data`, the two files that cloud-init asks for. |
| Autoinstall.EntryLeadsToItsScript | packages/pxe-boot-prepare/src/grub/entry.rs:101-119 | From the kernel parameters of a created Ubuntu or RHEL entry to the content served: the URL in them leads to that script's source, or with an IPv6 gateway to nothing. |
| Autoinstall.SeedStore.CreateDirAll | packages/pxe-boot-prepare/src/autoinstall/manager.rs:142 | Fails exactly when a file stands on the way, otherwise makes every directory down to the path. |
| Autoinstall.SeedStore.Perform | packages/pxe-boot-prepare/src/autoinstall/manager.rs:108-144 | One file operation changes the store as its specification says. |
| Autoinstall.SeedStore.TakeTurn | packages/pxe-boot-prepare/src/autoinstall/manager.rs:52-88 | One turn of one task is one step of the interleaved system. |
| Autoinstall.SeedStore.RunTasks | packages/pxe-boot-prepare/src/autoinstall/manager.rs:92-94 | Tasks taken in any order until all end are a complete run under some schedule. |
| Autoinstall.FirstError | packages/pxe-boot-prepare/src/autoinstall/manager.rs:92-94 | The first failed task, in task order, gives the error; Ok exactly when none failed. |
| Autoinstall.SeedStore.Prepare | packages/pxe-boot-prepare/src/autoinstall/manager.rs:32-98 | The result is Ok exactly when no task failed, and where the interleavings agree the end state is their one outcome. |
| Urls.DecodesEncoded | packages/pxe-boot-prepare/src/grub/entry.rs:11-30 | Percent-decoding undoes the encoding of every byte string (section 2.1 of RFC 3986). |
| Urls.EncodingIsInjective | packages/pxe-boot-prepare/src/grub/entry.rs:11-30 | Different names have different encodings. |
| Urls.DecodesToItselfIff | packages/pxe-boot-prepare/src/grub/entry.rs:131-133 | Unencoded text decodes to itself if and only if it holds no escape. |
| Urls.EncodedIsPlain | packages/pxe-boot-prepare/src/grub/entry.rs:17-27 | An encoded segment has only unreserved characters (section 2.3 of RFC 3986) and percent signs: no slash, space, quote, brace or line end. |
| Urls.UrlNamesItsFile | packages/pxe-boot-prepare/src/grub/entry.rs:74-108 | Splitting a URL at slashes and decoding gives back exactly the path components it was made from. |
| Placeholders.NoneLeft | packages/pxe-boot-prepare/src/grub/entry.rs:114-116 | One replacement leaves no occurrence, when the value has no brace and does not fit inside the placeholder. |
| Placeholders.CompletesNothing | packages/pxe-boot-prepare/src/grub/entry.rs:114-116 | The inserted text cannot complete a placeholder that was split around another one. |
| Placeholders.ChainIsOnePass | packages/pxe-boot-prepare/src/grub/entry.rs:114-116 | The chained replacements are one pass over the original text that keeps every letter outside its placeholders. |
| Placeholders.PiecesAreTheText | packages/pxe-boot-prepare/src/grub/entry.rs:114-116 | The pieces of that pass are the original text. |
| Placeholders.OrderDoesNotMatter | packages/pxe-boot-prepare/src/grub/entry.rs:114-116 | The order of the two replacements does not matter. |
| Placeholders.NoPlaceholderRemains | packages/pxe-boot-prepare/src/grub/entry.rs:114-116 | After both replacements neither placeholder is left anywhere. |
| MenuEntries.LayoutIsGood | packages/pxe-boot-prepare/src/distro/detector.rs:11-16 | The two placeholder words and the directory names have the shape that these results need. |
| MenuEntries.UrlsAreForeign | packages/pxe-boot-prepare/src/grub/entry.rs:102-109 | Both seed URLs are free of braces and fit inside neither placeholder, for all names and gateways. |
| MenuEntries.SubstitutionIsExact | packages/pxe-boot-prepare/src/grub/entry.rs:111-118 | For any kernel parameter: no placeholder left, outside text kept, and the other order of replacement gives the same. |
| MenuEntries.EntryHasNoPlaceholder | packages/pxe-boot-prepare/src/grub/entry.rs:93-119 | No parameter of an autoinstall entry holds a placeholder, whichever detector generated it. |
| MenuEntries.SeedUrlsNameTheirFiles | packages/pxe-boot-prepare/src/grub/entry.rs:102-109 | The file URL names (seed root, ISO, script), and the directory URL with user-data names that file in the script's directory. |
| MenuEntries.MarkBecomesUrl | packages/pxe-boot-prepare/src/grub/entry.rs:111-118 | A generated parameter made of a brace-free prefix and a placeholder becomes the prefix and the URL. |
| MenuEntries.BuiltInSeedParams | packages/pxe-boot-prepare/src/distro/ubuntu.rs:88-105 | The Ubuntu seed parameter and the RHEL kickstart parameter are a brace-free prefix and a placeholder. |
| MenuEntries.EntryServesBootFilesIff | packages/pxe-boot-prepare/src/grub/entry.rs:50-68 | The kernel URL of an entry is one word of the GRUB script and names exactly the kernel file on the mounted ISO, and the initrd URL likewise, each if and only if no path component has a character with a meaning in a GRUB script, a question mark, a hash, a backslash or an escape. |
| MenuEntries.GrubFindsServer | packages/pxe-boot-prepare/src/grub/entry.rs:50 | What GRUB reads between the parentheses of a boot URL is the protocol and the host and port of this interface, and the path behind them is the one served. |
| MenuEntries.QuestionMarkCutsThePath | packages/pxe-boot-prepare/src/grub/entry.rs:131-133 | The failing case: for a file name with a question mark the server looks for the file named by the part before it. |
| BuiltInMenus.CutKernelIsAccepted | packages/pxe-boot-prepare/src/distro/nixos.rs:93-155 | The NixOS detector accepts a bootspec with such a kernel. |
| BuiltInMenus.PreparedEntryBoots | packages/pxe-boot-prepare/src/distro/ubuntu.rs:39-56 | Every entry of a prepared Ubuntu or RHEL ISO, with or without a script, boots the kernel and the initrd found on the disc. |
| MenuEntries.FetchIff | packages/pxe-boot-prepare/src/grub/entry.rs:74-108 | A client can read the URLs in the kernel parameters if and only if the gateway has no colon, and then gets the file of the server's rules. |
| KernelParams.UbuntuIsTold | packages/pxe-boot-prepare/src/distro/ubuntu.rs:88-108 | All parameters of an Ubuntu entry: its `url=` leads to the link of the raw ISO, and with a script its seed URL to the user-data of that script. |
| KernelParams.RhelIsTold | packages/pxe-boot-prepare/src/distro/rhel.rs:58-80 | All parameters of a RHEL entry: its `inst.repo=` leads to the root of the mounted ISO, and with a script its `inst.ks=` to the file of that script. |
| KernelParams.NixOsIsTold | packages/pxe-boot-prepare/src/distro/nixos.rs:157-200 | All parameters of a NixOS entry: its `findiso=` leads to the link of the raw ISO, and its `init=` is that of the bootspec. |
| KernelParams.EntryIsNamed | packages/pxe-boot-prepare/src/grub/entry.rs:88-129 | The title is the file name, with the script in parentheses, and the entry is limited to the architecture of the ISO. |
| MenuEntries.UrlSegments | packages/pxe-boot-prepare/src/grub/entry.rs:131-133 | Splitting the URL text of a path at slashes gives its components back exactly if none has a backslash. |
| MenuEntries.IsoUrlNamesItsLink | packages/pxe-boot-prepare/src/grub/entry.rs:70-79 | The raw-ISO URL names exactly the link of that ISO in the symlink tree. |
| GrubMenu.EscapeIsOnePass | packages/pxe-boot-prepare/src/grub/menu.rs:204-216 | The three chained replacements equal one left-to-right character map. |
| GrubMenu.QuotedReadsBack | packages/pxe-boot-prepare/src/grub/menu.rs:196-216 | Reading an escaped string by the quoting rules gives the string with line ends turned into spaces. |
| GrubMenu.ClassifyPrinted | packages/pxe-boot-prepare/src/grub/menu.rs:153-193 | Every printed line is one line and reads as what was meant. |
| GrubMenu.MenuReadsBack | packages/pxe-boot-prepare/src/grub/menu.rs:74-151 | The reader recovers from the text exactly the entries in order with cpu and cleaned title, then the placeholders, then the reload entry, and the default that was set. |
| GrubMenu.OnlySettingsDiffer | packages/pxe-boot-prepare/src/grub/menu.rs:107-129 | Two menus of the same entries differ in no line but those of timeout and default. |
| GrubMenu.ShownAt | packages/pxe-boot-prepare/src/grub/menu.rs:163-192 | A visible entry at position N is shown at N minus the number of earlier entries hidden from the client's cpu. |
| GrubMenu.DefaultSelectsIffNoneHidden | packages/pxe-boot-prepare/src/grub/menu.rs:124-126 | The N-th shown entry is entry N if and only if it is visible and no earlier one is hidden. |
| GrubMenu.RenderEntryLines | packages/pxe-boot-prepare/src/grub/menu.rs:153-193 | The rendered entry with its cpu test is exactly the lines of the specification, whose commands MenuScript.CommandsReadBack takes back out. |
| GrubMenu.StyleIsGood | packages/pxe-boot-prepare/src/grub/menu.rs:79-148 | The fixed texts of the builder have the shape that the read-back needs. |
| MenuBuilder.GrubMenuBuilder.Build | packages/pxe-boot-prepare/src/grub/menu.rs:74-151 | The loops append exactly the text of the specification, and that text reads back as the builder's entries with their kernels, parameters and initrds, its placeholders with their reasons, and its default. |
| MenuScript.CommandsReadBack | packages/pxe-boot-prepare/src/grub/menu.rs:131-151 | A reader of commands recovers from the text, for every entry in order, the kernel URL with the joined parameters on its `linux` line and the initrd URL on its `initrd` line, then what each placeholder shows, then the reload. |
| MenuScript.LoadsWordByWord | packages/pxe-boot-prepare/src/grub/menu.rs:153-161 | Where URLs and parameters hold no blank, the words of these lines are exactly the URL and the parameters. |
| MenuScript.ReasonIsShown | packages/pxe-boot-prepare/src/grub/menu.rs:225-231 | The reason that a placeholder shows is the given one, with line ends turned into spaces. |
| MenuScript.StyleSpeaksGrub | packages/pxe-boot-prepare/src/grub/menu.rs:225-237 | The fixed texts of the builder are these commands of GRUB. |
| MenuHead.TextLooksForOverride | packages/pxe-boot-prepare/src/grub/menu.rs:93-105 | The text tests for the override file of the client and loads it. |
| MenuHead.LooksForItsOverride | packages/pxe-boot-prepare/src/lib.rs:436-439 | The file that the text names for a MAC is the one that is written for it, whatever case the configuration uses. |
| MenuHead.CapitalsDoNotMatter | packages/pxe-boot-prepare/src/lib.rs:436-439 | A MAC written with capitals gives the same file. |
| MenuHead.ReloadsBase | packages/pxe-boot-prepare/src/grub/menu.rs:145-148 | The reload entry and every placeholder load the file that is written for all clients of the interface. |
| MenuHead.TextSetsTimeout | packages/pxe-boot-prepare/src/grub/menu.rs:107-122 | With a timeout, the menu is shown and both branches of the test for the style set it; without one, these lines are comments. |
| MenuHead.TextStartsNetwork | packages/pxe-boot-prepare/src/grub/menu.rs:79-88 | The text loads its modules and brings the network up first. |
| Service.EntriesAreNumbered | packages/pxe-boot-prepare/src/lib.rs:335-388 | Whatever subset of creations fails, the i-th entry has position i. |
| Service.AddIso | packages/pxe-boot-prepare/src/lib.rs:338-387 | A failed base entry skips the ISO, a failed script only that script. |
| Service.GenerateEntries | packages/pxe-boot-prepare/src/lib.rs:335-388 | The loops with the position counter build exactly the specified entry list. |
| Service.AllEntriesListed | packages/pxe-boot-prepare/src/lib.rs:338-388 | When no creation fails, every ISO has its base entry and one entry for each of its scripts, in order. |
| Service.FactoryCreatesAll | packages/pxe-boot-prepare/src/grub/entry.rs:57-65 | With boot files under the mount points no creation fails. |
| Service.ListedIsCreated | packages/pxe-boot-prepare/src/lib.rs:335-388 | Every listed entry was created at its own position for one of the ISOs, with one of its scripts or without. |
| Service.ReservationComesFirst | packages/pxe-boot-prepare/src/lib.rs:428-435 | What a reservation sets holds for its client, and what it leaves open is taken from the interface. |
| Service.FoundDefault | packages/pxe-boot-prepare/src/lib.rs:621-640 | In a numbered list the resolved position is the index of the first match, and None means there is no match. |
| Service.RenderGrubCfg | packages/pxe-boot-prepare/src/lib.rs:467-494 | The text fed entry by entry into the builder is the variant text, with its resolved default. |
| MenuFiles.GenerateGrubMenu | packages/pxe-boot-prepare/src/lib.rs:324-461 | On any directory and with writes that may fail: a run that ends well leaves exactly the specified directory, one that fails stopped at one file. |
| MenuFiles.RunWrites | packages/pxe-boot-prepare/src/lib.rs:404-450 | A run replaces the base file and the override files of exactly the MACs with an active reservation, by the text of the last one; all other override files stay. |
| MenuFiles.EffectiveMeans | packages/pxe-boot-prepare/src/lib.rs:420-449 | The last reservation for the MAC that sets a default decides, field by field before the interface; without one the interface decides. |
| MenuFiles.ClientLoadsItsVariantIff | packages/pxe-boot-prepare/src/lib.rs:414-450 | A client loads the text of the choice that holds for its MAC if and only if it has an active reservation, or there was no override file for it, or one that reads like the base file; otherwise it loads the old one. |
| MenuFiles.RemovedOverrideStays | packages/pxe-boot-prepare/src/lib.rs:420-427 | The failing case: a reservation loses its defaults and its client goes on loading the text of the run that had them. |
| MenuFiles.LoadedAfterRuns | packages/pxe-boot-prepare/src/lib.rs:397-450 | After any sequence of configurations a client loads what the last one with an active reservation for it asked for, else the base text of the last run. |
| MenuFiles.EachFileOldOrNew | packages/pxe-boot-prepare/src/lib.rs:496-501 | Wherever a run fails, every file but one is the old one or complete, and that one holds at worst the beginning of its new text. |
| MenuFiles.WriteOverride | packages/pxe-boot-prepare/src/lib.rs:420-449 | A reservation without defaults writes nothing; otherwise its override file gets the text of its own fields, completed by those of the interface. |
| MenuFiles.WriteGrubCfg | packages/pxe-boot-prepare/src/lib.rs:467-504 | The written text is the variant text; a failed write leaves the file as it was or torn. |
| Service.TextSelectsTheDefault | packages/pxe-boot-prepare/src/lib.rs:467-494 | The default read from the text is the index of the first entry that was asked for, and that entry is the menu item there; without one none fits. |
| Service.ClientStartsTheDefaultIff | packages/pxe-boot-prepare/src/lib.rs:481-483 | A client starts the entry asked for exactly when it is visible to its cpu and no earlier one is hidden. |
| Service.HiddenEntryMovesTheDefault | packages/pxe-boot-prepare/src/lib.rs:481-483 | The failing case: behind an arm64 entry, an x86_64 client shows the entry asked for and starts another one. |
| Service.VariantTextsDifferOnlyInSettings | packages/pxe-boot-prepare/src/lib.rs:463-474 | Base and override texts are equal line by line but for the timeout and default lines. |
| DefaultWarnings.PushDefaultPairWarnings | packages/pxe-boot-prepare/src/lib.rs:704-739 | The early returns and pushes add exactly the warnings about this choice. |
| DefaultWarnings.InterfaceReport | packages/pxe-boot-prepare/src/lib.rs:656-698 | The warnings of one interface: its own choice, then each reservation that sets a field. |
| DefaultWarnings.ReportIsExact | packages/pxe-boot-prepare/src/lib.rs:649-739 | The whole report corresponds one to one and in order to the choices of all interfaces whose ISO is set but for which no position resolves in the menu of that interface. |
| DefaultWarnings.CheckDefaultEntryWarnings | packages/pxe-boot-prepare/src/lib.rs:649-702 | The warnings of all interfaces, in order, each labelled with its interface and reservation. |
| DefaultWarnings.WarnedIffUnresolved | packages/pxe-boot-prepare/src/lib.rs:621-739 | When all entries are created, a choice is warned about exactly if its ISO is set and no position resolves for it. |
| DefaultWarnings.ProblemMeans | packages/pxe-boot-prepare/src/lib.rs:704-739 | A warning says unknown ISO exactly if no prepared ISO has the name, and unknown script exactly if the ISO is prepared and has no script of that name. |
| DefaultWarnings.ChoiceIff | packages/pxe-boot-prepare/src/lib.rs:656-698 | The choices looked at are those of the interfaces and of the reservations that set a field. |
| DefaultWarnings.WantedHasMatch | packages/pxe-boot-prepare/src/lib.rs:716-738 | Some wanted entry matches a choice exactly if its ISO is discovered and its script is absent, empty or listed for that ISO. |
| Preparation.FindFile | packages/pxe-boot-prepare/src/iso/info.rs:7-45 | A found file lies under the mount path and matches the pattern; if none is found, none matches. |
| Preparation.BareNameMatches | packages/pxe-boot-prepare/src/iso/info.rs:33-38 | A pattern without a slash matches a file of that name in every directory. |
| Preparation.ExtractionFindsBothFiles | packages/pxe-boot-prepare/src/distro/ubuntu.rs:39-56 | An Ubuntu or RHEL disc is accepted exactly if it has both boot files, and each is found at its own place. |
| Preparation.ExtractedPlaces | packages/pxe-boot-prepare/src/distro/ubuntu.rs:36-56 | An Ubuntu disc boots casper/vmlinuz with casper/initrd, a RHEL disc images/pxeboot/vmlinuz with initrd.img, in any case of letters. |
| Preparation.NixOsPlaces | packages/pxe-boot-prepare/src/distro/nixos.rs:93-155 | A NixOS disc is accepted exactly if its bootspec names two files that lie below boot; init path and cpu are those of the bootspec. |
| Preparation.ExtractedBootsFromMount | packages/pxe-boot-prepare/src/distro/nixos.rs:93-155 | Boot info of every built-in detector has kernel and initrd under the mount path, so entry creation cannot fail. |
| Preparation.MountIsos | packages/pxe-boot-prepare/src/lib.rs:157-171 | The mount loop collects the mounted ISOs in order and skips the others. |
| Preparation.DetectIsos | packages/pxe-boot-prepare/src/lib.rs:188-243 | The detection loop fills the prepared and the failed list as specified. |
| Preparation.PrepareIsos | packages/pxe-boot-prepare/src/lib.rs:157-243 | Both loops together, from the discovered ISOs. |
| Preparation.PrepareMenus | packages/pxe-boot-prepare/src/lib.rs:301-318 | Every interface gets its files from the same prepared and failed lists; an error in one stops no other. |
| Preparation.ClientSeesItsDefault | packages/pxe-boot-prepare/src/lib.rs:324-504 | On any directory and whatever creations fail: exactly if no outdated override is in its way, a client loads a menu that lists the entries in order and whose default is the first entry that fits its reservation or interface. |
| BuiltInMenus.BuiltInSetupIsGood | packages/pxe-boot-prepare/src/lib.rs:63-78 | The names and texts of the code have the shapes that these results need. |
| BuiltInMenus.MenusAreOneLine | packages/pxe-boot-prepare/src/grub/entry.rs:42-129 | With the built-in detectors every URL and parameter is one line, whatever ISOs and scripts are called, if no bootspec holds a line end. |
| BuiltInMenus.BuiltInClientSeesItsDefault | packages/pxe-boot-prepare/src/lib.rs:324-504 | The same for the detectors, names and texts of the code, without conditions on the entries. |
| MenuBoots.BuiltInClientBoots | packages/pxe-boot-prepare/src/lib.rs:324-504 | The text that a client loads shows the choice that holds for it; every entry in it is named after a prepared ISO and its script, is limited to its cpu and boots it; and every failed ISO is explained. |
| MenuBoots.TextMeans | packages/pxe-boot-prepare/src/grub/entry.rs:42-129 | From the text of a menu: the words after `linux` and `initrd` lead to the kernel and initrd of the mounted Ubuntu or RHEL ISO, the parameters to its raw file, mount root and seed; a NixOS entry does so exactly if the names on the disc allow it. |
| MenuBoots.TextShowsCommands | packages/pxe-boot-prepare/src/grub/menu.rs:131-151 | The text of every variant holds the commands of all entries of its interface, in order. |
| PrepareRun.PxeBootService.Prepare | packages/pxe-boot-prepare/src/lib.rs:106-322 | One whole run: without ISOs nothing is touched; otherwise mount table and collected mounts are exactly those of the loop over all discovered ISOs and hold together, the tree is new or part of the old, the seeds are those of every interleaving, and warnings and menus are about the same prepared ISOs. |
| PrepareRun.PreparedIsMounted | packages/pxe-boot-prepare/src/lib.rs:157-243 | Every prepared ISO is mounted at the mount path its entries use, and all these mounts hold at once. |
| PrepareRun.CollectTasks | packages/pxe-boot-prepare/src/autoinstall/manager.rs:46-50 | Exactly one task for each entry of each configured script list, ISO by ISO in the order of a hash map. |
| PrepareRun.SeedsAgreeIff | packages/pxe-boot-prepare/src/autoinstall/manager.rs:32-98 | For the tasks of any configuration: the interleavings agree exactly if scripts of one name are harmless, and distinct script names suffice. |
| PrepareRun.PreparedAreDistinct | packages/pxe-boot-prepare/src/lib.rs:255-258 | Prepared ISOs have distinct names, so the distribution of each is the one detected for it. |
| PrepareRun.PreparedScriptIsServed | packages/pxe-boot-prepare/src/lib.rs:255-307 | For every prepared Ubuntu or RHEL ISO and script there is a task, and unless it failed the entry's kernel parameters lead to that script's content, or with an IPv6 gateway to nothing. |
| PrepareRun.RawUrlLeadsToIso | packages/pxe-boot-prepare/src/lib.rs:106-142 | In the entry of a discovered Ubuntu or NixOS ISO, `url=` or `findiso=` holds a URL that leads, through the tree that a finished fault-free rebuild leaves, to the path of that ISO, or with an IPv6 gateway to nothing. |
| PrepareRun.MountedWhereServed | packages/pxe-boot-prepare/src/grub/entry.rs:50-55 | The mount point of an ISO is where the server looks for the files that the URLs name. |
| PrepareRun.RunWarningsAreExact | packages/pxe-boot-prepare/src/lib.rs:280-307 | The warnings of a run are about exactly the choices for which the menus of that run have no default position. |
| Preparation.RebuildOfDiscoveredSucceeds | packages/pxe-boot-prepare/src/lib.rs:113-142 | A finished fault-free rebuild of discovered ISOs succeeds on any disk and maps every name to its path. |
| Preparation.LandsOnce | packages/pxe-boot-prepare/src/lib.rs:188-243 | Every mounted ISO lands exactly once in exactly one of the two lists; an unmounted one in neither. |
| Preparation.PreparedMeans | packages/pxe-boot-prepare/src/lib.rs:188-243 | A prepared ISO carries its file name, its mount path, and the boot information that its detector found there. |
| Preparation.FailedMeans | packages/pxe-boot-prepare/src/lib.rs:188-243 | A failed ISO carries the reason of the step that failed. |
| Preparation.Status | packages/pxe-boot-prepare/src/lib.rs:529-600 | The status loop with its early continues gives one line per named ISO as specified. |
| Preparation.StatusMeans | packages/pxe-boot-prepare/src/lib.rs:529-600 | The line of an ISO names the first step that failed and why, or what was detected, and counts the entries it gives. |
| Preparation.CleanMeansPrepared | packages/pxe-boot-prepare/src/lib.rs:529-600 | The ISOs reported without an error are exactly the prepared ones, in order. |
| Preparation.StatusCountsTheMenu | packages/pxe-boot-prepare/src/lib.rs:571-586 | The reported entry counts add up to the length of the entry list when no creation fails. |
| Preparation.StatusAgreesWithEveryMenu | packages/pxe-boot-prepare/src/lib.rs:571-586 | With the built-in detectors the counts add up to the number of entries of every interface, whatever is on the discs. |
| Preparation.OnlyExtractionFails | packages/pxe-boot-prepare/src/distro/detector.rs:58-75 | While no check errors, a mounted ISO fails only in extraction. |

## Left out

- Real I/O, processes, tokio scheduling inside one file operation, the prepare lock, logging and CLI parsing: replaced by state transitions and nondeterministic outcomes.
- Handlebars: the triple-brace template is plain concatenation.
- Execution of the GRUB script: the readers take menu entries, cpu tests, the default and the commands of entries, split words at blanks, and follow the quoting rules in the code's comment; of the variables only `net_default_mac` in the override path is expanded.
- Overlapping hook runs: Kea starts the script asynchronously, and the zone is in sync only for events handled one after the other.
- Non-UTF-8 names, Unicode white space and letter case, lossy conversions, and the locale of `sort` (taken to be byte order).
- `nixosModule/functions/ipv4.nix`, the blocklist and lease-sync scripts, config validation, option wiring, the ISO builder and packaging.
- The wording of errors and warnings; a warning names the choice and the kind of problem.
- Merge.MergeSplit: holds only for inputs with safe kinds at every path, because the code breaks the law for others; Merge.SafeKindsIsExact and Merge.NestingKeepsTheLaw give the exact condition.
- Merge.MergeIsFold: holds only for inputs with foldable kinds at every path, for the same reason; Merge.FoldKindsIsExact and Merge.FoldLawOfAttrs give the exact condition.
- MountTable.UnescapeMountField: does not model the final lossy UTF-8 conversion, because bytes are characters here.
- MountTable.ScanFindsFirstSeen: assumes device names whose only white space is what the kernel encodes, and points that do not begin with other white space.
- Mounter.IsoMounter.Mount: assumes ISO names and mount points without carriage return, vertical tab and form feed; MountTable.MountedIsFoundIff shows what the scan makes of others.
- Mounter.IsoMounter.VerifyMount: path canonicalization is one fixed function with its fallback included, and trimming of the sysfs text is not modelled.
- Mounter.IsoMounter.DoMount: the kernel's choice of a free loop device is a parameter; the race of two mounts for one device is not modelled, since the code mounts one after the other.
- LeaseHook.HookScript.Handle: addresses are words that can be file names and host names hold no space or line end, as Kea supplies them.
- Autoinstall.EveryInterleavingEnds: holds only where scripts of one name are harmless, because for others the interleavings differ; SeedConflicts.OutcomeIffHarmless shows that the condition is exact. A task that has failed only counts its remaining operations off.
- SeedConflicts.Race: sources are taken to be read-only files, as the comment at manager.rs:102-107 says of the store, and modes matter only for copying onto a file that is still there.
- Urls.UrlNamesItsFile: the server is taken to end the path at a question mark or hash, split at slashes and decode each segment; dot segments and doubled slashes are not resolved.
- MenuEntries.EntryServesBootFilesIff: says what the server does with the path; GRUB is taken to name the server by the text between `(http,` and `)`; how it reads an IPv6 address there is not modelled.
- GrubMenu.MenuReadsBack: assumes URLs and kernel parameters without line ends, which BuiltInMenus.MenusAreOneLine proves for the built-in detectors; titles and reasons are free.
- MenuEntries.BuiltInSeedParams: of the generated kernel parameters only the two seed parameters matter here; the others are carried as data.
- Preparation.FindFile: compares letters in ASCII case.
- PrepareRun.PxeBootService.Prepare: the prepare lock, the clean-up of mounts and logging are not part of the run; two interfaces are taken to have different directories, and a failed mount carries no wording.
