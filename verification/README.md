# Verified model of the estate's compose compiler and its checks

The scripts modelled here keep an estate of container hosts in step with the repositories it is
built from. At the centre is a compiler and its checker: `gen-group-compose.py` merges the compose
files of several member repos into one file per host group, and `check-group-compose-drift.py`
reads that file back and decides whether every service of every repo is still declared. Around them
are scripts that each carry one hard promise: a reconciler that must converge, a textfile that must
remember the last good run, a scanner that must touch nothing but values, a block that must be
spliced without harming its surroundings, a restore that must leave nothing behind, a fold whose
verdict must be safe, and a small lexer.

Compose files are sequences of classified lines (`ComposeText`); paths are sequences of components;
dictionaries whose order matters are sequences of entries. Real character strings are kept where
the text itself is the point: escaping, scanning, splitting into lines, and names. Each method is
the script's own loop, proved equal to a function of its inputs; the lemmas about that function say
what the script promises. What the environment decides (files, requests, clocks, what a compose
file declares) is a parameter. Beside the laws about each function stand laws that name none of its
parts, on lines, values and figures as they are written: what an override does under each key, what
becomes of each form of a reference or a path, what a host in sync holds, what a reader of the
textfile finds, and which services a report names.

| files | what they model |
|---|---|
| `basics`, `names`, `dicts`, `paths`, `lines` | sequences, Python's order on names, insertion-ordered dicts, path resolution, line splitting |
| `compose_text`, `rendering` | both readers of a compose file, and what they read of a written-out one |
| `override_merge`, `merge_laws`, `merge_meaning`, `merge_limits`, `merge_order`, `nested_mappings` | merging an override file into the one before it: what it means, what it keeps, when the order of files matters, what becomes of nested mappings |
| `relocation`, `relocation_forms`, `emission`, `references` | rewriting paths and references of one service body, and what becomes of each written form of them |
| `naming`, `generation`, `sources`, `container_names` | naming, dropping and emitting the services of a group, and the container names they end up with |
| `ports` | host ports two services publish |
| `include_graph`, `sources_header`, `drift`, `drift_report`, `compare`, `coverage` | following includes, the `# Sources:` header, pairing renamed services, the report, and what it finds, said of the files |
| `repo_files`, `agreement`, `clean_report`, `sample_estates` | the generator and the checker together: the gate of a service of several files, and exactly when the report on the generated file is clean, with small estates on either side |
| `certificates`, `hosts`, `reconcile`, `convergence`, `shared_hosts`, `host_values`, `run_reports` | the proxy reconciler: that it converges, on which values, and what it reports on the way |
| `labels`, `textfile`, `history`, `figures` | the textfile of a check, what it remembers and what a reader finds in it |
| `declarations`, `splice`, `quotes`, `restore`, `dmarc` | the remaining single scripts |

## Where the code does not do what is said of it

The model follows the code. Each point below is proved, most of them as the exact condition under
which the promise does hold.

- Mapping-form `depends_on` is carried over unrenamed, so it follows its services exactly when none
  of them is renamed (`EmittedMappingRefs`).
- Extending a mapping block keys every line by its inner name alone. A nested mapping reads as meant,
  every later path with its later value and every other path with its own, exactly when the shared
  keys are in place and each new one goes under a new parent or under what the earlier block leaves
  open (`ExtendIsMeantIff`, `ExtendOnceIff`); one level of keys always does (`FlatIsMeant`). Two
  children of one name cross over (`ChildrenCross`), and a new child of one parent lands under
  another (`NewChildMoves`). The block's own key line is lost exactly when an inner entry has its
  name (`ExtendKeepsBlock`). A later list is kept whole exactly when its items are on lines of their
  own, or are inline ones the earlier file has inline too (`LaterItemsAdded`). `command` is among the
  keys that append, where the Compose Specification replaces it.
- A later inline `profiles` gets through only where no earlier file gives the service one. So the
  merged gate is the first such file's (`MergedGateIsFirst`), and it is the checker's, which is gated
  when any file gates, exactly when that first file gates or no later one does (`GateAgreesIff`).
- Merging three files may depend on which two are merged first. It does not exactly when, at every
  append key all three declare, the last two have one shape, or the last is a list after a mapping and
  shares no inner key with the first, or it is a mapping without blank lines after a list and shares
  with the first only what the list has too, or a mapping after comments without blank lines
  (`MergeAssociativeIff`). A list between two mappings of one key is the counterexample
  (`MixedShapesWitness`).
- A path is relocated exactly when it is recognised: a bare directory and a bare bind source are
  not (`PlainPathsMove`, `BareContextIsMissed`), and a `dockerfile:` spelled `./x` is moved although
  it is said to be exempt (`DockerfileStays`).
- A name pinned to a repo that does not declare it stops the run before the warning written for it
  (`NameServices`, `Generate`). A reference to a dropped service reaches the kept copy exactly when
  the group has no service of its own by that name (`DroppedMeansKept`).
- Two always-on services and a gated one on one port are a note and not a finding
  (`CollisionFailsIff`, `GatedThirdHides`); ports in an inline list are not seen
  (`InlinePortsAreMissed`).
- The checker keys repo services by bare name, the generator by repo and name. The report on the
  generated file is clean exactly when no always-on service is emitted under its repo's prefix, that
  is, when no always-on name of a repo is another repo's too, unpinned, or the group's own
  (`ReportIsCleanIff`, `CheckIsCleanIff`). Where one is, the copies outnumber the names and at least one
  is reported as an extra (`RenamedCopyIsReported`): with two repos of one always-on name
  (`TwoReposLeaveExtra`), and with one repo whose service the group's own extras declare as well
  (`OwnNameLeavesExtra`), which the generator has a branch for. A name that every repo has behind a
  profile is shared and clean (`AllGatedIsClean`). All this is of copies that stand out: one whose name
  looks like a name some repo opts into is set aside, so the same name behind a profile in a third
  repo makes the report clean although two always-on copies of it are emitted (`GatedNameHidesExtra`).
- The `# Sources:` header is read back as written exactly when every repo lists a file; one that lists
  none ends the reading and hides all repos after it (`HeaderReadsBackIff`).
- With two managed names on one proxy host one run is not enough (`OnePassIffNoneShared`): the first
  leaves the host to one of them, the second makes the others hosts of their own, and a third finds
  nothing to do (`TwoPassesConverge`). A certificate request that fails outright ends the run.
- Splicing a block into a text with only a begin marker loses, the second time, all that follows it
  (`BeginOnlySwallows`); writing twice is writing once only for clean texts whose line breaks are
  newlines or that had the block (`IdempotentIff`).
- Starting a restored project without building is safe exactly when it borrows no service name from
  another project (`NoBuildIsSafeIff`, `SharedNameIsBorrowed`).
- The figure for messages that `p=reject` would drop counts too many on streams where some messages
  pass SPF only and others DKIM only (`BothFailIsUpperBound`, `GradeIsSafe`).

## Model

| member | source | states |
|---|---|---|
| ComposeText.Read | scripts/gen-group-compose.py:209-238 | the generator's flag-driven pass finds the services of the reading fold: a repeated service starts over, a top-level key ends the section |
| ComposeText.ParseServices | scripts/check-group-compose-drift.py:216-267 | the checker's pass gives each declared service its gate and leaves at the first thing after the services |
| Rendering.ReadDocument | scripts/gen-group-compose.py:209-238 | round trip: what the generator reads of a written-out document is exactly the services written |
| Rendering.ReadRepeats | scripts/gen-group-compose.py:209-238 | of a service written more than once the generator reads the last body alone |
| Rendering.OneService | scripts/gen-group-compose.py:209-238 | two spaces and a name that starts with a letter or digit open a service for both readers, lines further in are its body, and the checker knows none whose name starts with `x-` |
| Rendering.ParseDocument | scripts/check-group-compose-drift.py:216-267 | round trip: what the checker reads of the same document is each service with its gate |
| Rendering.GatesAre | scripts/check-group-compose-drift.py:242-266 | the gates of a document are those of its bodies, `x-` names left out |
| Rendering.GatedIff | scripts/check-group-compose-drift.py:256-264 | a body is behind a profile exactly when its last `profiles:` is anything but an empty inline list |
| Paths.ResolveNormalised | scripts/gen-group-compose.py:263-266 | norm(norm(a) + b) = norm(a + b), for every two paths |
| Paths.ResolveConcat | scripts/gen-group-compose.py:356-358 | resolving a path in two parts is resolving the second from where the first leads |
| Relocation.PrefixMeansRepo | scripts/gen-group-compose.py:263-266 | the prefix read from the generated file's directory leads to the repo |
| Relocation.FixPathsKeepsMeaning | scripts/gen-group-compose.py:361-428 | a rewritten path resolved from the generated file is the original resolved from its repo; a line without a recognised path is unchanged |
| Relocation.PlainPathsMove | scripts/gen-group-compose.py:361-428 | a plain relative path keeps its meaning exactly when it is recognised |
| Relocation.ContainerPathsStay | scripts/gen-group-compose.py:375-376 | a value of a container section is never touched |
| Relocation.AnchoredPathsStay | scripts/gen-group-compose.py:394-396 | a path that starts at the root, in a variable or a home directory is never touched |
| Relocation.DockerfileStays | scripts/gen-group-compose.py:340-345 | a `dockerfile:` is left alone exactly when it is not spelled `./x` or `../x` |
| Relocation.BareContextIsMissed | scripts/gen-group-compose.py:388-398 | a build context named by its directory alone is not moved |
| RelocationForms.ExplicitMoves | scripts/gen-group-compose.py:381-385 | `./x` and `../x` become the path under the repo, under every key and as the source of a mount |
| RelocationForms.BareSlashStays | scripts/gen-group-compose.py:381-385 | with nothing after the slash it stays, under every key |
| RelocationForms.DotsMove | scripts/gen-group-compose.py:388-428 | `.` and `..` do under the six keys compose reads as paths, in plain items and items of five keys, and as the source of a plain item's mount; under other keys they stay |
| RelocationForms.FilesMove | scripts/gen-group-compose.py:388-428 | so does a file with an extension, by itself or under directories, whatever the names |
| RelocationForms.DotfilesMove | scripts/gen-group-compose.py:388-428 | and a dotfile |
| RelocationForms.BareNamesStay | scripts/gen-group-compose.py:322-331 | names without a dot stay, under every key and however deep |
| RelocationForms.AnchoredStay | scripts/gen-group-compose.py:394-396 | paths from the root, a variable or a home directory stay |
| RelocationForms.OtherMountsStay | scripts/gen-group-compose.py:381-412 | so does every mount whose source is not written from `.` or `..` |
| RelocationForms.OtherValuesStay | scripts/gen-group-compose.py:372-374 | and so does every line whose value is no single word and no mount |
| RelocationForms.ContainerLinesStay | scripts/gen-group-compose.py:349-350 | every line of the nine container sections stays |
| OverrideMerge.SplitBody | scripts/gen-group-compose.py:808-820 | one pass splits a body into its blocks and its leading lines |
| OverrideMerge.SplitIsLossless | scripts/gen-group-compose.py:808-820 | the leading lines and the blocks in order are the body again |
| OverrideMerge.JoinResplits | scripts/gen-group-compose.py:808-820 | joining well-formed blocks and splitting again gives the same blocks |
| OverrideMerge.Positions | scripts/gen-group-compose.py:863-867 | the table of where each key of a block last is |
| OverrideMerge.LayOver | scripts/gen-group-compose.py:868-873 | one pass lays a later mapping over an earlier one: in place of a key's last line, or at the end |
| OverrideMerge.OverlaidKeepsKeys | scripts/gen-group-compose.py:854-876 | laying over keeps which keys there are, line by line |
| OverrideMerge.ExtendBlock | scripts/gen-group-compose.py:854-876 | a block extended by a later one: laid over for a mapping, appended for a list |
| MergeLaws.MergeService | scripts/gen-group-compose.py:823-851 | the pass over the later blocks with its table of positions computes the merge of the two bodies; what that merge is, key by key and line by line, is spelled out in `MergeMeaning` |
| MergeLaws.MergedBlocks | scripts/gen-group-compose.py:823-851 | the earlier keys in order, then the later-only ones; each block kept, replaced or extended |
| MergeMeaning.MergeIsOverride | scripts/gen-group-compose.py:798-851 | the merged body is the earlier leading lines and one block per key, earlier keys first: a key of both has the later block, but under eighteen keys, written out, the earlier one extended by the later |
| MergeMeaning.NewKeysAre | scripts/gen-group-compose.py:837-841 | the keys added are exactly the later file's own, in its order |
| MergeMeaning.ItemsAreAppended | scripts/gen-group-compose.py:875-876 | a later list, comments before its first item aside, adds its lines after the earlier ones |
| MergeMeaning.BlanksAreDropped | scripts/gen-group-compose.py:875-876 | blank lines in it count for nothing |
| MergeMeaning.EntriesTakeTheirPlace | scripts/gen-group-compose.py:862-874 | each entry of a later mapping in turn takes the place of the last earlier entry of its name or comes at the end |
| MergeLaws.MergeResplits | scripts/gen-group-compose.py:823-851 | the merged body splits back into exactly the merged blocks |
| MergeLaws.LaterValueWins | scripts/gen-group-compose.py:854-876 | of every inner key the last line in the result is the later mapping's last where it has the key, else the earlier one's; no key is lost or invented |
| MergeLaws.ExtendKeepsBlock | scripts/gen-group-compose.py:854-876 | an extended block still opens with its key exactly when no inner entry takes that line's place |
| MergeLaws.ExtendIn | scripts/gen-group-compose.py:854-876 | no line of an extended block is invented |
| MergeLaws.OverAssociative | scripts/gen-group-compose.py:862-874 | laying mappings over one another is associative, whatever the keys |
| MergeLimits.MergeFrom | scripts/gen-group-compose.py:823-851 | every line of a merge is a line of one of the two bodies |
| MergeLimits.MergedGateIsOwed | scripts/gen-group-compose.py:823-851 | a merge is gated only if one of the two was |
| MergeLimits.MergedGateIsOr | scripts/gen-group-compose.py:823-876 | the merged gate is the OR of the two, which is what the checker computes, except in one exact case |
| MergeLimits.LaterItemsAdded | scripts/gen-group-compose.py:854-876 | all later items of a list key are added exactly when they are listed one to a line or are inline items the earlier file has inline too |
| MergeOrder.ExtendAssociativeIff | scripts/gen-group-compose.py:854-885 | extending a block by two in turn or by the two extended is the same exactly under the stated condition on shapes, shared keys and blank lines, for all blocks |
| MergeOrder.MergeBlocksAssociativeIff | scripts/gen-group-compose.py:823-885 | blocks of three files merge the same either way exactly when those of every append key all three have do |
| MergeOrder.MergeAssociativeIff | scripts/gen-group-compose.py:823-885 | merge(merge(a, b), c) = merge(a, merge(b, c)) exactly under that condition, for bodies without repeated keys |
| MergeOrder.MixedShapesWitness | scripts/gen-group-compose.py:854-885 | three concrete blocks whose extension depends on the order |
| NestedMappings.ExtendIsMeantIff | scripts/gen-group-compose.py:854-876 | with paths read off the indentation, each later path has its later line and every other its own, none twice, exactly when shared keys are in place and new ones land under their parent |
| NestedMappings.ExtendOnceIff | scripts/gen-group-compose.py:854-876 | without repeated keys that is: exactly when the keys both have are at the same paths and the new ones land under their parents |
| NestedMappings.FlatIsMeant | scripts/gen-group-compose.py:854-876 | between mappings of one level that always holds, and the result is one level with each key once |
| NestedMappings.ChildrenCross | scripts/gen-group-compose.py:862-873 | the later value for one parent's child replaces the other parent's |
| NestedMappings.NewChildMoves | scripts/gen-group-compose.py:862-873 | a new child of the first of two mappings ends up in the second |
| Emission.EmittedRefs | scripts/gen-group-compose.py:268-315 | homomorphism: the references of an emitted body are the renamed references of the original, in order (form by form: `References`) |
| Emission.EmittedMappingRefs | scripts/gen-group-compose.py:288-299 | mapping-form dependencies follow their services exactly when none is renamed |
| Emission.OtherLinesStay | scripts/gen-group-compose.py:270-299 | a line with no renamed reference, container name or recognised path comes out as it went in |
| Emission.EmissionKeeps | scripts/gen-group-compose.py:301-315 | emission keeps a service's gate and keeps its body a body |
| References.ListedNamesFollow | scripts/gen-group-compose.py:293-313 | a word in a list anywhere under `depends_on:` comes out, in its place, as what it is renamed to |
| References.OtherListsStay | scripts/gen-group-compose.py:293-313 | the same word in a list under any other key comes out as it is |
| References.InlineNamesFollow | scripts/gen-group-compose.py:285-297 | `depends_on: [..]`, `network_mode: service:x` and every host of a URL come out renamed, name by name, with all around them as it was |
| References.ContainerNameFollows | scripts/gen-group-compose.py:274-287 | a container name becomes the service's new name if it has one and stays otherwise |
| References.OthersAreMoved | scripts/gen-group-compose.py:268-299 | a line that names no service in any of these forms only has its paths moved |
| References.ReferenceFollows | scripts/gen-group-compose.py:268-315 | wherever one of the forms names a service, the same place of the emitted body names what it is renamed to |
| Naming.Contribution.Emit | scripts/gen-group-compose.py:268-315 | the pass over a body, with the section it updates as it goes, emits the rewritten body; what becomes of each form of line is spelled out in `References` |
| Naming.FindOwners | scripts/gen-group-compose.py:486-490 | each declared name with its claimants, in member order |
| Naming.DecideName | scripts/gen-group-compose.py:491-513 | one name: prefixed per repo, left to its owner's copy, or neither; unsound exactly for a wrong pin |
| Naming.PrefixOwn | scripts/gen-group-compose.py:548-554 | a name the group owns is prefixed in every repo that declares it |
| Naming.NameServices | scripts/gen-group-compose.py:486-554 | all passes together: every repo's renames and drops as specified, or a stop at a wrong pin |
| Generation.EmitServices | scripts/gen-group-compose.py:623-651 | the emission loops write the kept candidates in order and note the skipped ones |
| Generation.EmittedNamesDistinct | scripts/gen-group-compose.py:625-651 | emitted names are pairwise distinct |
| Generation.EveryServiceAccounted | scripts/gen-group-compose.py:625-641 | every service of every repo is exactly one of emitted, dropped, skipped with a note |
| Generation.EveryExtraAccounted | scripts/gen-group-compose.py:644-651 | every service of the group's own is exactly one of emitted, skipped |
| Generation.NothingSkippedIff | scripts/gen-group-compose.py:632-651 | nothing is skipped exactly when no prefixed name is another candidate's |
| Generation.SiblingIsMeant | scripts/gen-group-compose.py:625-641 | the name a repo's service goes by leads to that service exactly when it was neither dropped nor skipped |
| Generation.DroppedMeansKept | scripts/gen-group-compose.py:494-509 | a dropped service's name leads to the kept copy exactly when the group owns no service of that name |
| Generation.NamesAreDecided | scripts/gen-group-compose.py:491-554 | a service keeps its name unless the group owns it or another repo has it and none is pinned, and then has its repo's before it; it is dropped exactly when another repo has it and a repo not its own is pinned |
| Generation.MispinnedIff | scripts/gen-group-compose.py:494-509 | a pin stops the run exactly when two repos have the name and none of them is the one it is pinned to |
| Generation.ReferencesFollow | scripts/gen-group-compose.py:268-315 | wherever a line of an emitted body names a service, in one of the literal forms of `References.IsReference`, the emitted line names in the same place what the sibling, or the kept copy, was emitted as; other names are untouched |
| ContainerNames.EmittedNames | scripts/gen-group-compose.py:268-315 | an emitted body spells out the container names of its source, or its new name in place of all of them where it was renamed |
| ContainerNames.SharedContainerNameIff | scripts/gen-group-compose.py:275-287 | two emitted services have a container name in common exactly when neither was renamed and their sources had, or one was renamed to what the other's source calls its container |
| Sources.BuildMember | scripts/gen-group-compose.py:451-484 | the files of one repo folded in load order: the first with services is the base |
| Sources.MembersAre | scripts/gen-group-compose.py:448-484 | one member for each source with a service, and no two for one repo |
| Sources.BuildContributions | scripts/gen-group-compose.py:448-484 | the contributions of all sources, before any naming |
| Sources.Generate | scripts/gen-group-compose.py:433-651 | the generated file is that of the group read from the sources; the run stops exactly on a wrong pin; nothing is skipped exactly when no prefix clashes |
| IncludeGraph.Walk.Follow | scripts/check-group-compose-drift.py:342-366 | the recursion over a shared `seen` ends on every graph, cycles included, and adds exactly the files it lists, each once, the first one first |
| IncludeGraph.FollowedFiles | scripts/check-group-compose-drift.py:342-366 | the files listed are exactly those reachable through includes that can be followed |
| IncludeGraph.FollowedExactly | scripts/check-group-compose-drift.py:342-366 | a closed list of files each included by an earlier one holds exactly the reachable files |
| IncludeGraph.PreorderConcat | scripts/check-group-compose-drift.py:359-366 | the order is that of a depth-first walk, which may be taken in two parts |
| IncludeGraph.PreorderReaches | scripts/check-group-compose-drift.py:342-366 | the walk from a file lists exactly what can be reached from it |
| IncludeGraph.FollowsIff | scripts/check-group-compose-drift.py:360-365 | a file leads to what it names, from the root or its own directory, of the files there are; a path with `$` or `*` leads nowhere |
| IncludeGraph.EffectiveCompose | scripts/check-group-compose-drift.py:369-387 | a service is declared when some followed file declares it, gated when some file gates it, and attributed to its first declarer |
| Drift.CollectRepoServices | scripts/check-group-compose-drift.py:474-480 | repos in order, names in order, the first claim kept |
| Names.OrderIs | scripts/check-group-compose-drift.py:536-536 | names are ordered by the first character that differs, and by length where none does |
| Drift.Best | scripts/check-group-compose-drift.py:566-573 | the candidate a descending sort on score and name puts first |
| Drift.PairingIsMatching | scripts/check-group-compose-drift.py:559-575 | the greedy pairing is one-to-one and pairs only names that look renamed |
| Drift.PairingIsMaximal | scripts/check-group-compose-drift.py:559-575 | no missing service is left beside a name it could have taken |
| Drift.PairingPrefersScore | scripts/check-group-compose-drift.py:563-569 | no name left over at the end would have been preferred by any pair |
| Drift.LooksRenamedIff | scripts/check-group-compose-drift.py:417-431 | two names look renamed exactly when one is the other with a dashed part put before or after, or a whole dashed word of it |
| Drift.MaximalIsHalf | scripts/check-group-compose-drift.py:559-575 | a maximal matching has at least half the pairs of any other |
| SourcesHeader.HeaderReadsBackIff | scripts/check-group-compose-drift.py:275-301 | round trip: the entries read from a header are those written, in order, exactly when every one lists a file |
| SourcesHeader.OneLineReads | scripts/check-group-compose-drift.py:270-301 | one line of the header as it stands in a file, read as its repo and file |
| DriftReport.AddHeader | scripts/check-group-compose-drift.py:289-300 | the flag-driven pass over one file adds the entries under the title, up to the first line that is none |
| DriftReport.DeployedSources | scripts/check-group-compose-drift.py:275-301 | repo to deployed files, over every followed file's header |
| DriftReport.ReadMember | scripts/check-group-compose-drift.py:489-522 | the files of one repo that are compared, and their union with gates OR-ed; none for a repo with a host of its own (said of the files: `Coverage.MemberIs`) |
| DriftReport.CollectMembers | scripts/check-group-compose-drift.py:489-523 | every member repo with its services |
| Compare.PairFindings | scripts/check-group-compose-drift.py:558-577 | the pairing loop over a shrinking table computes the greedy pairing |
| Compare.FindAll | scripts/check-group-compose-drift.py:535-543 | every always-on repo service the group lacks, then every always-on group name no repo has |
| Compare.SetFindingsAside | scripts/check-group-compose-drift.py:549-593 | what pairs is taken out, then what is the group's own |
| Compare.OwnHostPass | scripts/check-group-compose-drift.py:601-612 | an exemption for a repo that is deployed is a finding, one for a repo that is absent a warning |
| Compare.CompareServices | scripts/check-group-compose-drift.py:534-613 | the passes together produce the specified report |
| Compare.CompareGroup | scripts/check-group-compose-drift.py:483-613 | from the group file to the report: headers, members, includes, findings; the report is the one `Coverage` characterises |
| Coverage.MemberIs | scripts/check-group-compose-drift.py:506-523 | what the check holds of a repo: a service is declared, or gated, exactly when a file the repo is held to declares, or gates, it; those are the files a header lists for it, or all of them where none is listed |
| Coverage.TableIs | scripts/check-group-compose-drift.py:275-301 | a file is in the table for a repo exactly when a header of a file the group file reaches lists it |
| Coverage.GroupIs | scripts/check-group-compose-drift.py:369-387 | the group runs a service exactly when a file it reaches declares it and none gates it |
| Coverage.MissingIff | scripts/check-group-compose-drift.py:483-577 | a service some repo runs and the group does not is reported missing or paired, never both, on account of the first repo that runs it; and nothing else is |
| Coverage.ExtraIff | scripts/check-group-compose-drift.py:535-593 | a service the group runs and no repo does is exactly one of taken by a pair, excused, reported; excused exactly when not taken and a known name of the group's or one resembling what a repo offers |
| Coverage.PairsResemble | scripts/check-group-compose-drift.py:559-577 | every pair is of names that resemble each other, each in one pair only |
| Coverage.NothingLeftResembles | scripts/check-group-compose-drift.py:559-577 | no service is reported missing beside a name left over that resembles it |
| Coverage.RepoNameWins | scripts/check-group-compose-drift.py:409-414 | a service is paired with a name that begins with its repo's, if any left over does, and among equals with the last in order |
| Coverage.OwnHostIff | scripts/check-group-compose-drift.py:601-612 | a repo with a host of its own is a finding exactly when a header names it, and a warning exactly when none does and it is not there |
| Compare.MissingOfAre | scripts/check-group-compose-drift.py:534-538 | a missing finding is exactly an always-on repo service the group does not declare always on, attributed to its repo |
| Compare.FindingsPartitioned | scripts/check-group-compose-drift.py:535-593 | every finding is exactly one of paired, set aside, reported |
| Compare.ReportedAreViolations | scripts/check-group-compose-drift.py:441-472 | nothing the report still lists is let through |
| Compare.RenamesAreMaximal | scripts/check-group-compose-drift.py:549-577 | the renames of the report are a maximal matching, at least half the size of any other |
| Compare.CleanMeansCovered | scripts/check-group-compose-drift.py:535-593 | with no missing finding there is an injection from always-on repo names into declared names |
| RepoFiles.MergedGateIsFirst | scripts/gen-group-compose.py:451-484 | the fold over a repo's files: a merged service is gated exactly when the first file that gives it a `profiles:` gates it |
| RepoFiles.MergedGateIsOrIff | scripts/gen-group-compose.py:451-484 | it is gated as some file gates it exactly when that first file gates or no later one does |
| Agreement.GateAgreesIff | scripts/check-group-compose-drift.py:517-523 | generator and checker agree on the gate of a service of several files exactly under that condition |
| Agreement.ViewDeclares | scripts/check-group-compose-drift.py:517-523 | the checker's view of a repo declares a service exactly when some file does |
| Agreement.ViewGates | scripts/check-group-compose-drift.py:517-523 | the checker's view gates it exactly when some file does |
| Agreement.NothingToReport | scripts/check-group-compose-drift.py:535-612 | what it takes for a report to be empty |
| Agreement.EmittedIsDeclared | scripts/check-group-compose-drift.py:216-267 | the generated file, read by the checker, declares each emitted service under its emitted name with its own gate |
| CleanReport.OnIsEmitted | scripts/gen-group-compose.py:625-641 | every service the checker takes to be always on and no pin drops is declared always on, under its own name or its repo's prefix |
| CleanReport.RenamedCopyIsReported | scripts/check-group-compose-drift.py:474-593 | on a comparable estate, where an always-on service is renamed a copy is reported as an extra: there are more copies than names for them to answer for |
| CleanReport.ReportIsCleanIff | scripts/check-group-compose-drift.py:483-613 | on a comparable estate the report on the generated file is empty exactly when no always-on service is renamed |
| CleanReport.GeneratedFilePasses | scripts/check-group-compose-drift.py:483-613 | in particular it is empty when repos and extras share no name and the extras are under names the checker knows |
| CleanReport.HeaderIsWanted | scripts/gen-group-compose.py:571-574 | the header in the generated file gives the checker the table the generator was run with |
| CleanReport.CheckIsCleanIff | scripts/check-group-compose-drift.py:483-613 | the same condition for the whole check, through the group file that includes the generated one and the header written in it |
| SampleEstates.TwoReposLeaveExtra | scripts/check-group-compose-drift.py:474-593 | every two repos with one always-on name: a copy is reported |
| SampleEstates.OwnNameLeavesExtra | scripts/gen-group-compose.py:548-554 | one repo whose always-on service the extras declare too: no name is shared by repos, and the repo's copy is reported |
| SampleEstates.AllGatedIsClean | scripts/check-group-compose-drift.py:575-593 | repos that all have one name behind a profile: it is shared, and the report is empty |
| SampleEstates.GatedNameHidesExtra | scripts/check-group-compose-drift.py:583-593 | the same name behind a profile in a third repo: the report is empty although two always-on copies are emitted |
| Ports.FindBinds | scripts/gen-group-compose.py:914-932 | the scan of the generated text collects the specified binds |
| Ports.ScanFinds | scripts/gen-group-compose.py:914-932 | it finds what every service's block-form list publishes, and nothing else |
| Ports.GatedFinds | scripts/gen-group-compose.py:906-912 | a service is taken for gated exactly when one of its name has a `profiles:` key |
| Ports.IndexBinds | scripts/gen-group-compose.py:938-940 | the nested table holds, for each port and address bound, exactly the services bound there |
| Ports.ClusterPort | scripts/gen-group-compose.py:944-949 | the clusters of one port: every address bound, with whoever is bound everywhere |
| Ports.PortCollisions | scripts/gen-group-compose.py:888-963 | the findings and the notes are the clusters of two or more services without and with a gated one, in whatever order ports are visited |
| Ports.ClusterIsClique | scripts/gen-group-compose.py:934-951 | every two services of a cluster have binds Docker cannot both give |
| Ports.ConflictIsClustered | scripts/gen-group-compose.py:934-951 | every two services with conflicting binds share the cluster where they meet, and it is reported |
| Ports.CollisionFailsIff | scripts/gen-group-compose.py:958-962 | where two always-on services meet is a finding exactly when no gated service is bound there, and otherwise a note |
| Ports.FailsIff | scripts/gen-group-compose.py:958-962 | there is a finding exactly when two always-on services collide where no gated one is bound |
| Ports.GatedThirdHides | scripts/gen-group-compose.py:958-962 | two always-on services on one port that are only noted |
| Ports.OrderIsIrrelevant | scripts/gen-group-compose.py:934-963 | writing the services in another order changes neither findings nor notes |
| Ports.InlinePortsAreMissed | scripts/gen-group-compose.py:921-927 | a list on the key's own line publishes nothing the check sees |
| Ports.EntryPublishes | scripts/gen-group-compose.py:773-795 | the host port is the last part but one, the address the first part's of three or more, the protocol the one written or TCP; an entry of one part, or with no port there, publishes nothing |
| Ports.DeepPortsCount | scripts/gen-group-compose.py:920-922 | a `ports:` further in than a service's own keys counts for the service, whatever it is under |
| Ports.EdgeEnds | scripts/gen-group-compose.py:908-910 | a `profiles:` gates the service above it unless another line two spaces in comes between |
| Certificates.CertIndex | scripts/subscribe-hosts.py:135-154 | the nested loops build the table of first certificates by pattern, wildcards put back |
| Certificates.IndexIsFirst | scripts/subscribe-hosts.py:146-153 | a pattern is in the table exactly when a certificate has it, with the first one's id |
| Certificates.CoveredIff | scripts/subscribe-hosts.py:171-183 | nothing is found exactly when no certificate covers the name, a wildcard standing for one label only |
| Certificates.ExactComesFirst | scripts/subscribe-hosts.py:177-179 | a listed name is served with the first certificate listing it |
| Certificates.WildcardComesFirst | scripts/subscribe-hosts.py:180-183 | an unlisted one with the first whose wildcard fits |
| Certificates.PatternsAre | scripts/subscribe-hosts.py:135-154 | a certificate's patterns are its names in lower case and, where its display name says it is an uploaded wildcard, each with the `*.` it was listed without |
| Certificates.WildcardPutBack | scripts/subscribe-hosts.py:135-183 | a wildcard serves a name one label down whichever way it is listed, and a certificate for the bare domain that domain alone |
| Hosts.Differences | scripts/subscribe-hosts.py:231-249 | the loop lists the managed fields that do not read as wanted, and the gate; on values: `HostValues.ListedIff` |
| Hosts.SettledIff | scripts/subscribe-hosts.py:231-249 | no drift is listed exactly when every managed field reads as wanted and there is no gate; on values: `HostValues.ListedIff` |
| HostValues.ListedIff | scripts/subscribe-hosts.py:231-249 | a field is listed exactly when it does not hold what the page needs, field by field: the one name, `http`, the portal's host and port, the certificate, the flags, no access list, the two `meta` entries; the gate exactly when one of three markers is spelled in the config in any case |
| Hosts.UpdatePayload | scripts/subscribe-hosts.py:252-263 | the steps build the payload: what is accepted of the host, what is managed, merged `meta`, a cleared gate |
| Hosts.UpdatedIsSettled | scripts/subscribe-hosts.py:252-263 | a host updated with its payload shows no drift |
| Hosts.UpdateSends | scripts/subscribe-hosts.py:81-87 | a payload holds only accepted fields and repeats what it does not own |
| Reconcile.FindLive | scripts/subscribe-hosts.py:329-330 | each listed name with the last host listing it |
| Reconcile.ReconcileName | scripts/subscribe-hosts.py:337-396 | one name: reported, given a certificate, created, updated or left |
| Reconcile.Reconcile | scripts/subscribe-hosts.py:324-396 | the loop over a changing proxy and index is the run over its first snapshot |
| Convergence.OnePassConverges | scripts/subscribe-hosts.py:335-396 | with every name resolving, no request refused and no shared host, nothing is reported, all names end in sync (what they then hold: `HostValues.OnePassSetsValues`), and a second run changes and reports nothing |
| Convergence.SettledRunIsQuiet | scripts/subscribe-hosts.py:379-382 | a run over names in sync writes and reports nothing |
| Convergence.RunKeepsTheRest | scripts/subscribe-hosts.py:252-263 | whatever is refused, other hosts are untouched, and updated ones keep every unmanaged field and `meta` entry but a cleared gate |
| Convergence.CheckReports | scripts/subscribe-hosts.py:345-386 | a check writes nothing and reports exactly the names that do not resolve or are out of sync |
| SharedHosts.OneIsLost | scripts/subscribe-hosts.py:368-394 | of two names on one host a run leaves one on none |
| SharedHosts.OnePassIffNoneShared | scripts/subscribe-hosts.py:335-396 | on a proxy that lists each name under one host at most, a second run writes nothing exactly when no two names share a host |
| SharedHosts.TwoPassesConverge | scripts/subscribe-hosts.py:335-396 | there two runs are always enough: after the first no two names share a host, after the second all are in sync, and a third changes and reports nothing |
| HostValues.OnePassSetsValues | scripts/subscribe-hosts.py:335-396 | under the conditions of one pass, the last host to list each name holds every value it should for the certificate that covers the name |
| HostValues.TwoPassesSetValues | scripts/subscribe-hosts.py:335-396 | after two passes that is so however the names were spread over hosts |
| HostValues.CheckFindsValues | scripts/subscribe-hosts.py:345-386 | a check reports a name exactly when it does not resolve or is not so served |
| HostValues.FieldsKept | scripts/subscribe-hosts.py:252-263 | of every host there was, each field but the ten managed ones, the config and the locations is what it was, whatever was refused |
| HostValues.ConfigKept | scripts/subscribe-hosts.py:260-262 | a config is what it was, or empty where it held a marker |
| HostValues.AddedAreNew | scripts/subscribe-hosts.py:201-224 | whatever hosts a run adds hold the values of a page of one of its names |
| RunReports.ReportsIff | scripts/subscribe-hosts.py:337-396 | whatever is refused: a run breaks off exactly when asking for some certificate does, and reports exactly the names before that which do not resolve, are refused a certificate, or need a write that is refused |
| Declarations.ScanDeclarations | standards/unity/apply.py:227-268 | the index-driven loop computes the rewritten text |
| Declarations.IdentityLaw | standards/unity/apply.py:227-268 | leaving every value alone returns the text |
| Declarations.CompositionLawIff | standards/unity/apply.py:227-268 | scanning twice is scanning once with both rewrites, for every text and second rewrite, exactly when the first writes no delimiter |
| Declarations.OnlyValuesChange | standards/unity/apply.py:227-268 | the same properties in the same order with rewritten values, and the same text around them |
| Declarations.OneRule | standards/unity/apply.py:227-268 | for every text, after a `{`, after a `;` or at the start: the rewriter is given the property and the value and nothing else, its answer stands in the value's place, and what follows the delimiter is rewritten by itself |
| Declarations.NoDeclaration | standards/unity/apply.py:227-268 | a text without a colon is copied |
| Labels.LabelIsOnePass | scripts/estate_check.py:172-174 | three replacements in a row are one pass of escaping |
| Labels.LabelRoundTrip | scripts/estate_check.py:172-174 | unescaping a label gives the value back, so labels are injective |
| Labels.LabelIsLabel | scripts/estate_check.py:172-174 | a label holds no newline and no bare quote |
| Textfile.Textfile.PriorMetric | scripts/estate_check.py:159-169 | the value on the first line of the file that carries the key |
| Figures.FirstLineIsRead | scripts/estate_check.py:159-169 | what is read under a key is the value on the first line that begins with it and a space, wherever lines end in newlines or carriage returns |
| Textfile.Textfile.WriteProm | scripts/estate_check.py:241-267 | the file is replaced by the body made from the run and the prior value; what a reader finds in that body is `Figures` |
| History.NoteMisses | scripts/estate_check.py:215-226 | no note can pass for the last success, whatever it says, carriage returns included |
| History.BodyRemembers | scripts/estate_check.py:177-238 | what a written file says of the last success is this run's time if it was clean, else what the file before said |
| History.HistoryIsKept | scripts/estate_check.py:241-254 | after any runs from no file, the time recovered is that of the most recent clean run, or none |
| Figures.VerdictIsRead | scripts/estate_check.py:196-212 | whoever reads the file finds 1 exactly for a check that ran to the end with no failing finding and 0 otherwise, and the time of the run to the nearest second |
| Figures.CountsAreRead | scripts/estate_check.py:197-224 | and the number of findings of each level, counted straight from what was found |
| Figures.CountsAreAbsent | scripts/estate_check.py:197-213 | a check that got nowhere has no count of any level |
| Figures.NotesAreListed | scripts/estate_check.py:225-234 | every note is a line of the file with its code and message as labels |
| Figures.LastSuccessIsRead | scripts/estate_check.py:200-254 | after any runs from no file, what is read under the last success is the time of the last run that ended with no failing finding, and nothing exactly when none did |
| History.SpaceLosesHistory | scripts/estate_check.py:164-166 | a check with a space in its name never recovers anything |
| History.ExtraForges | scripts/estate_check.py:235-237 | a series filed under the check's own key passes for a success that never was |
| TextLines.JoinSplits | scripts/trust-estate-hosts.py:141-143 | joined lines split into the same lines |
| TextLines.BreaksSplit | scripts/trust-estate-hosts.py:136-141 | a line ends at any of ten characters, and at a carriage return with its newline at once |
| Splice.ReadsBackIff | scripts/trust-estate-hosts.py:123-145 | the block written is the block read back exactly when the text has neither marker or its first begin before its first end |
| Splice.IdempotentIff | scripts/trust-estate-hosts.py:131-145 | writing twice is writing once exactly for clean texts that had the block or break lines only with newlines |
| Splice.OutsideSurvives | scripts/trust-estate-hosts.py:131-145 | in a clean text every line outside the block survives in order, up to empty lines at the end |
| Splice.BlockIsReplaced | scripts/trust-estate-hosts.py:131-145 | a block that stands in a text is replaced where it stands, between the very lines that were before and after it |
| Splice.BeginOnlySwallows | scripts/trust-estate-hosts.py:131-145 | with only a begin, the second write drops everything after it |
| Quotes.StringSpans | scripts/secret-scan.py:219-246 | the nested loops end and give the spans |
| Quotes.InsideIffInLiteral | scripts/secret-scan.py:219-250 | a position is inside a span exactly when a character-by-character lexer is inside a literal there; spans are ordered, disjoint and start at a quote |
| Quotes.EveryQuoteOpens | scripts/secret-scan.py:230-236 | every quote outside a literal opens a span |
| Restore.DeclaredServices | scripts/migrate-stack.py:252-275 | one set for each used list of files, in order of first use |
| Restore.BuildRestorePlans | scripts/migrate-stack.py:716-756 | the loops over containers and sets build the plan of every project, in order of first mention |
| Restore.PlanIsExact | scripts/migrate-stack.py:738-755 | a plan lists, once each, exactly the services packed for its project (same directory, same files) or declared by its files, less the excluded |
| Restore.FirstMentionedFirst | scripts/migrate-stack.py:738-755 | what is mentioned first comes first |
| Restore.RestoreIsComplete | scripts/migrate-stack.py:252-275 | packing and planning together: every service of a container and every service its files declare is started again with those files |
| Restore.NoBuildIsSafeIff | scripts/migrate-stack.py:913-928 | when nothing seems added, everything started was packed for that project exactly when no name is borrowed |
| Restore.UniqueNamesAreSafe | scripts/migrate-stack.py:737-737 | names of one project only, on containers that all have a directory, are never borrowed |
| Restore.SharedNameIsBorrowed | scripts/migrate-stack.py:913-928 | two projects that declare one name, with a container in one of them, make the other start it unbuilt |
| Dmarc.Stream.Add | scripts/check-dmarc-alignment.py:272-283 | one record added to a stream's figures |
| Dmarc.Collect | scripts/check-dmarc-alignment.py:264-283 | after any reports each key has one stream, holding exactly what the records say of it |
| Dmarc.Fold | scripts/check-dmarc-alignment.py:540-568 | every payload folded in; unreadable exactly when no report could be used |
| Dmarc.OrderIsIrrelevant | scripts/check-dmarc-alignment.py:264-283 | any order of the records gives the same streams |
| Dmarc.MessagesAreConserved | scripts/check-dmarc-alignment.py:264-283 | the streams together hold the sum of all positive counts |
| Dmarc.BothFailIsUpperBound | scripts/check-dmarc-alignment.py:166-169 | the figure is what is dropped plus the smaller half-passing group: exact when one of those is empty |
| Dmarc.TallyIsMail | scripts/check-dmarc-alignment.py:264-283 | a stream's figures against the records themselves: its messages, those that failed SPF, those that failed DKIM, those that failed both, and what was done with them; there is one exactly for each key with a counted record |
| Dmarc.GradeIs | scripts/check-dmarc-alignment.py:319-349 | each grade exactly, by how much mail failed each mechanism: the smaller figure against the threshold, then whichever mechanism some mail failed |
| Dmarc.PoliciesAre | scripts/check-dmarc-alignment.py:552-562 | the policy kept for a domain is that of the last report on it, of the domains asked for |
| Dmarc.RecordsAre | scripts/check-dmarc-alignment.py:552-568 | the records taken in are exactly those of the reports on the domains asked for, under the receiver that reports |
| Dmarc.Evaluate | scripts/check-dmarc-alignment.py:286-349 | one finding per policy, in domain order and saying whether it is `none`, and one per stream; no failure exactly when there is a stream and none reaches the threshold |
| Dmarc.GradeIsSafe | scripts/check-dmarc-alignment.py:319-349 | a stream that does not fail loses less than the threshold, and one that loses less fails exactly when mixed messages make up the difference |
| Dmarc.NoFailureIsSafe | scripts/check-dmarc-alignment.py:286-349 | a run without failures means every stream loses fewer messages than the threshold |

## Left out

- Reading and writing files, ssh, docker, IMAP, HTTP and Vault: their results are parameters.
- The regular expressions that classify raw YAML lines: lines come in classified, without trailing comments.
- Lines with several relative paths, and free text around one, in path rewriting.
- YAML anchors, volumes, networks and the header of a generated file: they are given text before and after the services.
- Notes and warnings of the generator other than skipped services and the stop at a wrong pin.
- The comment after an emitted service's key, which names its repo and profile.
- Symbolic links and names that differ in case only, in following includes.
- Compare.CompareGroup: the report's file attributions, variant counts and list of opt-in names are not modelled, they are only printed; the default compose file of a directory is given, not searched for.
- Ports.PortCollisions: the wording and the sorted order of the messages are not modelled; a cluster stands for its message.
- Reconcile.Reconcile: lower-casing is that of ASCII letters, and an accepted update sets exactly the fields it sends; logging in and listing the pages are not modelled.
- Hosts.Differences: a certificate id is a number or nothing, as the proxy sends it; one sent as text reads as zero here and as its number in the script.
- Textfile.Textfile.PriorMetric: reads a whole number, as the file shows times; the script also reads any other float written there by hand.
- NestedMappings.ExtendIsMeantIff: of keys only, two spaces to a level; list items and comments inside a mapping have no path and may be anything.
- MergeOrder.MergeAssociativeIff: for bodies in which no block has an inner entry named as its own key, and RepoFiles.MergedGateIsFirst likewise; what becomes of such a block is `ExtendKeepsBlock`.
- CleanReport.ReportIsCleanIff: of estates that can be compared. Left out are emitted names that clash, a pin that keeps a copy behind a profile where a dropped one is always on, copies whose names the checker sets aside, and extras that are neither known to it nor a repo's: there the outcome hangs on which names the greedy pairing happens to match.
- SourcesHeader.HeaderReadsBackIff: digits are ASCII, file names hold no comma and no space at their ends.
- ContainerNames.SharedContainerNameIff: container names are compared as they are spelled, quotes included.
- History.HistoryIsKept: seconds are rounded as the file shows them; floating-point error of the clock is not modelled.
- Splice.ReadsBackIff: the two markers are any two distinct one-line texts; the options written between them are given.
- Dmarc.Evaluate: the order in which streams are listed is given, and parsing the XML is not modelled.
- Per-host audits, mail checks, dashboards and one-off scripts: threshold tables with nothing beyond one branch to prove.
- Secret, placeholder and credential heuristics: judgement lists without an independent specification.
