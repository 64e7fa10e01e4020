# FreeSCP: verified models of the application core

Dafny 4.11 models of the algorithms under FreeSCP's user interface, with proofs of what they promise.
`dafny verify dfyconfig.toml` checks everything. Each module's opening comment names the source file it models.

| modules | subject |
|---|---|
| `Text`, `Utf8`, `Protocols` | trimming, joining, splitting, ordering strings; UTF-8 (RFC 3629); protocols and their ports |
| `RemotePaths` | remote path normalisation, joining, parents |
| `TreeWalk`, `RemoteSearch`, `RemoteSearchNames`, `RemoteSearchResults` | the breadth-first, depth-capped, cancellable remote search, and which directories and matches it comes to |
| `RemoteTree` | a server with symbolic links that may fail any call, as the SFTP backend shows it |
| `RemoteDelete`, `RemoteDeleteLinks`, `RemoteDeleteReach`, `RemoteDeleteSuccess` | recursive delete: what a run removes, when nothing else goes, when it succeeds |
| `RemotePermissions` | recursive chmod, and what its links change elsewhere |
| `RouteCaching`, `RouteRanking`, `Failover` | the probe cache against an event log, route ranking, the failover loop |
| `RouteKeys`, `RouteAlignment` | the cache key, the bound on cached probes, and when probes line up with candidates |
| `Transport` | proxy and jump host from dialog to connector, LAN injection, candidate tags |
| `SlintContexts`, `SlintLexing`, `SlintPieces`, `SlintReading`, `SlintCoverage` | translations and their components in `.slint` text: the tracker, the lexer, written text, how it is read, and that every text is written text |
| `PoStrings`, `PoWrapping`, `PoBlocks`, `PoCatalogue`, `PoReading`, `PoOrder`, `PoFill`, `PoAdditions`, `PoSecondRun` | the PO catalogue tool |
| `ConsoleRuns`, `Console` | terminal rows as styled runs; the row cache behind its dirty flag |
| `LocalTree`, `LocalCopy`, `LocalTransfer`, `LocalMove` | local copy and move on a disk with links, faults and cancellation |
| `SearchMatching` | search patterns compiled to regexes |
| `SizeFormat` | IEC size formatting over exact rationals |
| `PercentCoding`, `RecentServers`, `RecentIdentity` | percent-encoding (RFC 3986) and the recent-server identity |
| `RecentLists` | capped most-recently-used lists |
| `Sessions` | lending of session clients, tabs and their terminals |
| `Debounce` | the directory watcher |

Code that updates state is modelled by classes and by methods with loops; each such method is proved against a
function, and the promises are lemmas about that function or invariants of the class. Everything the models do not
decide (server replies, faults, the user's cancel flag, clocks, case folding, the terminal emulator, the regex engine
beyond what compiled wildcards use) is a parameter, constrained only by the law stated next to it.

## What the proofs found

Each of these is a property the code's comments or tests suggest and the code does not keep on all inputs. The lemma
named gives the exact condition or a concrete input.

- Deleting a remote directory with a link to a directory in it never succeeds, and on the way it can delete entries of
  the directory the link leads to (`RemoteDeleteSuccess.LinkToDirectoryExample`). Nothing outside the named entries is
  at risk exactly when no sequence of single removals comes to something outside
  (`RemoteDeleteReach.StaysInsideExactly`); unless missing entries are skipped and links lead back in, that is when no
  name below them leads to something removable outside (`RemoteDeleteLinks.StaysInsideExactlyWhen`). A delete always
  succeeds exactly when no link of its tree gets in the way (`RemoteDeleteSuccess.SucceedsExactlyWhen`).
- A dangling remote link, with missing entries to be skipped, is reported as deleted and stays
  (`RemoteDeleteSuccess.DanglingLinkExample`); inside a deleted directory it goes
  (`RemoteDeleteSuccess.DanglingInsideExample`).
- A recursive chmod gives its mode to what the links of the tree lead to. Nothing outside changes exactly when every
  link leads into the tree or to something that had the mode (`RemotePermissions.SuccessStaysInsideExactlyWhen`,
  `RemotePermissions.LinkedTargetExample`).
- Copying a local file over a link writes what the link leads to (`LocalTransfer.StaysAtDestinationExactlyWhen`,
  `LocalTransfer.WrittenThroughLinkExample`).
- Copying or moving onto a destination that holds the source, with overwrite, removes the source and then fails
  (`LocalTransfer.CopyLocal`, `LocalMove.MoveLocal`, `LocalMove.ClearingLoses`).
- A move across devices drops links and special files (`LocalMove.OthersAreDropped`).
- Probes and candidates fall out of step when a candidate without a first hop precedes one that has one
  (`RouteAlignment.FreshAlignedExactlyWhen`, `RouteAlignment.UnprobeablePrimaryExample`), and when a site's routes are
  reordered while their probes are cached, since the key forgets the order
  (`RouteAlignment.ServedAlignedExactlyInOrder`, `RouteAlignment.ReorderedRoutesExample`). The wrong route is then
  tried first.
- A route label may spell the cache key of two other routes; their cached probes are then more than its candidates, and
  the source indexes past the end (`RouteKeys.CraftedLabelSharesKey`, `RouteKeys.CraftedLabelOverruns`). Whatever the
  sites in use record, cached probes stay within the candidates of every site of their key exactly when, of any two
  sites of one key, what is probed for one and every label of it are labels of the other
  (`RouteKeys.BoundedExactlyWhen`).
- A probe round that names a route twice makes the cache forget later failures of it, exactly then
  (`RouteCaching.BackoffLostExactlyWhen`, `RouteCaching.DuplicateRouteLosesBackoff`). As long as all rounds of a key
  name one list of labels, as one site's rounds do, backoff is what the log says in every run exactly when the list
  names the route at most once (`RouteCaching.BackoffRefinesExactlyWhen`); a doubled route then only loses marks
  (`RouteCaching.NothingStaysInBackoff`, `RouteCaching.DoubledBackoff`). Staying in backoff after a success takes
  rounds of one key with different lists: calls of the cache's own public functions, or two sites of which a label of
  one spells the key of the other (`RouteCaching.BackoffKeptExactlyWhen`, `RouteCaching.DuplicateRouteStaysInBackoff`).
  Candidate tags repeat exactly when the user's own do, or when a LAN candidate is due and both its names are taken
  (`Transport.TagsDistinctExactlyWhen`).
- The connector applies the user's ssh configuration again, without the guard the route builder uses, so a direct or a
  LAN route can be given a jump host and a proxied one a conflict (`Transport.DirectStaysDirectExactlyWhen`,
  `Transport.ConnectorConflictsExactlyWhen`, `Transport.LanRouteTunnelledExample`).
- A search whose flag is raised inside its last listing ends without `canceled`: a flag that stays raised is reported
  exactly when the search stopped with a directory still queued (`RemoteSearchResults.SearchRemote`,
  `TreeWalk.UnreportedCancelExample`).
- Normalising a remote path twice can differ from normalising it once, exactly when white space stands before the
  trailing slashes (`RemotePaths.IdempotentExactlyWhen`, `RemotePaths.NotIdempotentExample`).
- Two slashes in a translated text start a comment, as in a web address (`SlintReading.AddressExample`). Written text
  is read as its pieces' tokens exactly when no translated text holds two slashes (`SlintReading.TokensExactlyWhen`);
  where the pieces nest and every translation stands in a component, exactly then is each found with its components
  (`SlintReading.FoundExactlyWhen`).
- A PO value comes back from its printed lines exactly when no line ends in the first half of an escape pair; the hard
  cut at 72 can do that (`PoWrapping.RoundTripExactlyWhen`, `PoWrapping.HardCutExample`).
- A second run of the PO tool adds nothing exactly when every text the first one added comes back whole and no added
  translation comes back empty (`PoSecondRun.SecondRunAddsNothingExactlyWhen`); a text of seventy-one letters and a
  quote is added again by the second (`PoSecondRun.AddedAgainExample`).
- A search pattern with a metacharacter is refused exactly when it starts with a repetition or ends in an odd number of
  backslashes, so `*.txt` and `?.txt` are (`SearchMatching.RefusedExactlyWhen`,
  `SearchMatching.WildcardBeforeDotExample`); `.*` matches every name (`SearchMatching.DotStarExample`).
- A percent escape may carry a sign: `%+f` decodes (`PercentCoding.SignIsAcceptedExample`).
- A preset with port 0 decodes to its protocol's default port (`RecentIdentity.DecodedExactlyWhen`,
  `RecentIdentity.DecodedInFull`).
- Bytes typed while no transport is attached are dropped when one is attached (`Console.ConsoleState.Attach`), and the
  buffer is past its bound exactly when the last nonempty send alone is (`Console.BufferOverflowsExactlyWhen`).

## Model

| member | source | states |
|---|---|---|
| `RemotePaths.CollapseMeaning` | crates/freescp-app/src/remote.rs:998-1000 | collapsing slashes leaves no double slash and changes only texts that have one |
| `RemotePaths.NormalizePath` | crates/freescp-app/src/remote.rs:990-1005 | the replace-until-stable loop terminates and yields the one-step collapsed path |
| `RemotePaths.NormalizeMakesNormal` | crates/freescp-app/src/remote.rs:990-1005 | every result is rooted, has no empty component and no trailing slash but the root's |
| `RemotePaths.NormalizeFixed` | crates/freescp-app/src/remote.rs:990-1005 | a normal path is a fixed point exactly when it does not end in white space |
| `RemotePaths.IdempotentExactlyWhen` | crates/freescp-app/src/remote.rs:990-1005 | normalising is idempotent exactly when no white space stands just before the trailing slashes of the raw text |
| `RemotePaths.NotIdempotentExample` | crates/freescp-app/src/remote.rs:990-1005 | "/a /" is a path on which normalising twice differs from once |
| `RemotePaths.JoinPutsOneSlash` | crates/freescp-app/src/remote.rs:1009-1017 | base and name are joined by exactly one slash, the base's own if it ends in one |
| `RemotePaths.JoinIsNormal` | crates/freescp-app/src/remote.rs:1009-1017 | joining a plain entry name to a normal directory is normal already |
| `RemotePaths.ParentUndoesJoin` | crates/freescp-app/src/remote.rs:1021-1033 | the parent of a joined path is the directory it was joined to |
| `Text.TrimIsMiddle` | crates/freescp-app/src/routing.rs:134-150 | trimming takes away all white space at the ends and nothing else |
| `TreeWalk.StepKeepsSound` | crates/freescp-app/src/remote.rs:160-187 | every turn of the search keeps: no directory listed twice, errors counted per failed listing, the cap respected, truncated exactly at the cap, canceled only on a load that saw the flag |
| `TreeWalk.StepKeepsLevels` | crates/freescp-app/src/remote.rs:160-187 | the queue is always one depth followed by the next, so a turn lowers the work left at its depth: the measure that ends the search on cyclic or endless servers |
| `TreeWalk.TreeIsWhatChainsReach` | crates/freescp-app/src/remote.rs:90-189 | the recursive reference walk lists a directory or reports a hit exactly when a chain of listable directories below the depth cap leads to it |
| `TreeWalk.StepConserves` | crates/freescp-app/src/remote.rs:160-187 | for every measure, what an undisturbed walk has done plus what its queue stands for is always the whole tree |
| `TreeWalk.EndIsWhole` | crates/freescp-app/src/remote.rs:160-187 | an empty queue means directories, matches and error count are those of the whole tree, with multiplicities |
| `TreeWalk.StepStaysWithin` | crates/freescp-app/src/remote.rs:102-187 | disturbed or not, a turn keeps: nothing was listed or reported more often than the whole tree has it |
| `TreeWalk.EndIsWithin` | crates/freescp-app/src/remote.rs:160-189 | so wherever the search stops, what it listed and reported is part of the whole tree, with multiplicities |
| `TreeWalk.TurnKeepsRunning` | crates/freescp-app/src/remote.rs:160-187 | one turn keeps the running invariant and lowers the termination measure |
| `TreeWalk.EndDelivers` | crates/freescp-app/src/remote.rs:160-189 | wherever the search stops, its outcome is sound, whole when it was neither cancelled nor truncated, and a flag that stays raised was reported exactly when a load saw it and the search stopped before its queue was empty |
| `TreeWalk.CancelInListingReportedExactlyWhenWorkIsLeft` | crates/freescp-app/src/remote.rs:109-111 | the step behind that: a cancellation first seen inside a listing is not reported by that turn, and by the next exactly when there is one |
| `TreeWalk.UnreportedCancelExample` | crates/freescp-app/src/remote.rs:109-111 | a one-directory search that loses a match to a cancellation and does not say so |
| `RemoteSearch.ProcessEntries` | crates/freescp-app/src/remote.rs:105-144 | the loop over one listing reports and descends exactly as the listing's effects say, with its early exit |
| `RemoteSearch.Turn` | crates/freescp-app/src/remote.rs:160-187 | one iteration of the queue loop is one step of the walk |
| `RemoteSearch.SearchRecursive` | crates/freescp-app/src/remote.rs:155-189 | the recursive search terminates and delivers: sound always, and the whole tree's matches and failed listings when undisturbed |
| `RemoteSearchNames.ListingHitsDistinct` | crates/freescp-app/src/remote.rs:118-131 | entries with distinct plain names have distinct relative paths |
| `RemoteSearchNames.TreeContained` | crates/freescp-app/src/remote.rs:90-189 | everything found below a directory has a path below it, each once |
| `RemoteSearchNames.OnePathEach` | crates/freescp-app/src/remote.rs:90-189 | on a server with distinct, slash-free names not ending in white space, no directory and no match occurs twice in the whole tree |
| `RemoteSearchResults.ListedExactly` | crates/freescp-app/src/remote.rs:110-187 | on a server whose entries have plain names the directories are exactly those with a way from the base: at each step an entry that is a directory, has not both bits of 0xA000 in its mode, is not called "", "." or "..", is not dotted unless that was asked for, and the way is below the depth cap |
| `RemoteSearchResults.FoundExactly` | crates/freescp-app/src/remote.rs:110-145 | and the hits are exactly the entries of those directories that are shown and whose name matches, links and directories too, each by its names from the base on |
| `RemoteSearchResults.SearchRemote` | crates/freescp-app/src/remote.rs:90-189 | the directories listed are distinct, each has such a way, and all of them are listed when nothing cut the search short; errors are the listings that failed; only shown, matching entries are reported, all of them when nothing cut it short; never more than 5000, truncated exactly at that; canceled only on a load that saw the flag and, for a flag that stays raised, exactly when the search stopped with work left; an error only from the flat listing |
| `RemoteTree.ReachStays` | crates/freescp-core/src/backends/sftp.rs:324-349 | while the links to directories that stay are kept, every name of such a directory keeps leading to it |
| `RemoteTree.RemoteServer.RemoveDir` | crates/freescp-core/src/backends/sftp.rs:197-225 | the backend's breadth-first removal, links followed at its root: its loops end on any links and faults and do what the run by depths does, files as they are found, directories deepest first |
| `RemoteTree.RemoveDirOfLeavable` | crates/freescp-core/src/backends/sftp.rs:197-225 | where nothing but skipped dangling links is left in the directory, that comes to removing those in listing order and then the directory, which may not be a link |
| `RemoteDelete.DeleteOne` | crates/freescp-app/src/remote.rs:322-365 | the recursive delete ends, on any links and faults, and does what its run does |
| `RemoteDelete.DeleteEntries` | crates/freescp-app/src/remote.rs:292-318 | the batch tries every name whatever happens to the others, and counts successes and failures |
| `RemoteDelete.DeleteRan` | crates/freescp-app/src/remote.rs:322-365 | for any links, order and faults: a run is a sequence of removals under names at or below the path, each of something loose (or, when skipping, of a link in a directory of dangling links) in its turn; unless it succeeds only below the path; the backend is never asked to remove a directory with more in it than skipped dangling links |
| `RemoteDelete.SuccessDeletes` | crates/freescp-app/src/remote.rs:322-365 | a success removed exactly the tree at the name's own place, or nothing when nothing was found and that was to be skipped; a directory is never deleted through a link to it |
| `RemoteDeleteLinks.StepsStayInside` | crates/freescp-app/src/remote.rs:292-318 | any sequence of such removals keeps everything outside the named entries, if at the start none of the names leads to something outside that can go or may come to hang |
| `RemoteDeleteLinks.FirstTaken` | crates/freescp-app/src/remote.rs:333-348 | a fault-free run on a server that lists the way to something removable first removes that first, through links too |
| `RemoteDeleteLinks.StaysInsideExactlyWhen` | crates/freescp-app/src/remote.rs:292-365 | whatever the order of names and listings, the fault-free batch changes nothing outside the named entries exactly when no name below them leads to something removable outside; when missing entries are skipped, as long as no link outside leads back in, and otherwise each half in its own form |
| `RemoteDeleteReach.StaysInsideExactly` | crates/freescp-app/src/remote.rs:292-365 | whatever links there are, skipping or not, the fault-free batch changes nothing outside in any order exactly when no sequence of single removals under the names comes to something outside |
| `RemoteDeleteReach.Progress` | crates/freescp-app/src/remote.rs:292-365 | as long as one way of removing has taken something that another has not, the other can go on: the order of removals does not decide what can go in the end |
| `RemoteDeleteLinks.BatchStaysInside` | crates/freescp-app/src/remote.rs:292-318 | whatever fails, a batch keeps everything outside the named entries unless one of the names leads to something outside that can go or may come to hang |
| `RemoteDeleteSuccess.CleanRun` | crates/freescp-app/src/remote.rs:322-365 | without faults a tree whose links do not get in the way is deleted, however it is listed |
| `RemoteDeleteSuccess.SucceedsExactlyWhen` | crates/freescp-app/src/remote.rs:322-365 | the fault-free delete succeeds in every listing order exactly when nothing is found and that is skipped, or no link of the tree leads to a directory and, unless skipping, each leads to something outside the tree |
| `RemoteDeleteSuccess.BatchSuccess` | crates/freescp-app/src/remote.rs:292-318 | a batch in which nothing failed removed nothing but the named trees, and what still stands under a name is a dangling link that was skipped |
| `RemoteDeleteSuccess.BatchCounts` | crates/freescp-app/src/remote.rs:292-318 | successes and failures add up to the number of names |
| `RemoteDeleteSuccess.LinkFreeDelete` | crates/freescp-app/src/remote.rs:322-365 | on a tree without links success removes exactly the subtree, failure only descendants, and without faults it succeeds |
| `RemoteDeleteSuccess.LinkFreeBatch` | crates/freescp-app/src/remote.rs:292-318 | on trees without links a batch touches nothing outside, whatever fails |
| `RemoteDeleteSuccess.LinkFreeBatchSucceeds` | crates/freescp-app/src/remote.rs:292-318 | and without faults, skipping missing entries, none of its names fails |
| `RemoteDeleteSuccess.LinkToDirectoryExample` | crates/freescp-app/src/remote.rs:333-348 | a directory with a link to another: deleting it always fails, and the other one's file can be gone by then |
| `RemoteDeleteSuccess.DanglingLinkExample` | crates/freescp-app/src/remote.rs:322-365 | a dangling link, skipped: reported as deleted and still there |
| `RemoteDeleteSuccess.DanglingInsideExample` | crates/freescp-core/src/backends/sftp.rs:197-225 | a directory that holds a dangling link is deleted exactly when missing entries are skipped: the backend sweeps it |
| `RemotePermissions.NameReaches` | crates/freescp-app/src/remote.rs:403-447 | the walk's names lead where its places lead, from any name of the root |
| `RemotePermissions.BalancedAfterListing` | crates/freescp-app/src/remote.rs:415-427 | listing a popped directory keeps: each node is logged once or waits under exactly one pending item |
| `RemotePermissions.BalancedAfterEntry` | crates/freescp-app/src/remote.rs:428-444 | handing an entry to the stack, if it is a directory, or else to the log keeps that balance |
| `RemotePermissions.PoppedIsNew` | crates/freescp-app/src/remote.rs:415-445 | a popped directory was never logged, so the work left shrinks |
| `RemotePermissions.ProcessDirectory` | crates/freescp-app/src/remote.rs:415-445 | one turn of the chmod walk keeps balance and progress |
| `RemotePermissions.ChangePermissionsRecursive` | crates/freescp-app/src/remote.rs:403-447 | at any exit each place was asked for at most once, on success each place of the tree exactly once; what the places lead to has the requested low nine bits and the root's other bits, and nothing else changed; without faults it succeeds on a directory in which no link dangles |
| `RemotePermissions.OutsideKeptExactlyWhen` | crates/freescp-core/src/backends/sftp.rs:351-366 | wherever the call ended, nothing outside the tree changed exactly when no link asked for led outside to something of another mode |
| `RemotePermissions.SuccessStaysInsideExactlyWhen` | crates/freescp-core/src/backends/sftp.rs:351-366 | a success changed nothing outside exactly when every link of the tree leads into it or to something that had the mode |
| `RemotePermissions.LinkedTargetExample` | crates/freescp-core/src/backends/sftp.rs:351-366 | after a success the target of a link in the tree has the mode, wherever it is |
| `RouteCaching.ReplayAgrees` | crates/freescp-app/src/routing.rs:451-559 | after any log of rounds, failures and successes the cache entry of a key is what the log says |
| `RouteCaching.MarkIsLastFailure` | crates/freescp-app/src/routing.rs:497-559 | a route is marked failed at a time exactly when the last event that settled it is that failure |
| `RouteCaching.BackoffRefinesLog` | crates/freescp-app/src/routing.rs:482-494 | a route that no round of its key named twice is demoted exactly when its last settling event is a failure less than 60 seconds old |
| `RouteCaching.BackoffIsLastOutcome` | crates/freescp-app/src/routing.rs:482-494 | when every round covers the route, that event is simply its last failure or success |
| `RouteCaching.StickyIsLastSuccess` | crates/freescp-app/src/routing.rs:477-479 | the sticky label is the route of the last success |
| `RouteCaching.FreshRefinesLog` | crates/freescp-app/src/routing.rs:451-475 | probes are fresh exactly within max(ttl, 1 s) of the last round; their labels are that round's with the stray failures since appended, and without strays they are that round in milliseconds |
| `RouteCaching.FreshServesRound` | crates/freescp-app/src/routing.rs:451-475 | each result of the last round is served under its label: a latency cut to whole milliseconds, with its LAN flag, and what could not be probed as unreachable |
| `RouteCaching.NothingFreshBeforeProbing` | crates/freescp-app/src/routing.rs:451-475 | without a round nothing is fresh |
| `RouteCaching.OutcomesNeverRefresh` | crates/freescp-app/src/routing.rs:538-559 | failures and successes never extend freshness |
| `RouteCaching.BackoffLostExactlyWhen` | crates/freescp-app/src/routing.rs:497-551 | one more round can make a recorded failure disappear, in some continuation, exactly when it names the route twice |
| `RouteCaching.BackoffKeptExactlyWhen` | crates/freescp-app/src/routing.rs:497-559 | one more round can keep a route in backoff after a success, in some continuation, exactly when it names the route twice while it is marked |
| `RouteCaching.DuplicateRouteLosesBackoff` | crates/freescp-app/src/routing.rs:497-536 | the smallest run in which a doubled route's failure is forgotten |
| `RouteCaching.DuplicateRouteStaysInBackoff` | crates/freescp-app/src/routing.rs:553-559 | the smallest run of the cache's public functions in which a doubled route connects and stays in backoff; its two rounds name different lists under one key |
| `RouteCaching.DoubledBackoff` | crates/freescp-app/src/routing.rs:497-551 | where all rounds of a key name one list, a route that it names twice is in backoff exactly for a recent failure since the last round |
| `RouteCaching.NothingStaysInBackoff` | crates/freescp-app/src/routing.rs:497-559 | there no route, doubled or not, is in backoff against the log |
| `RouteCaching.BackoffRefinesExactlyWhen` | crates/freescp-app/src/routing.rs:497-559 | there backoff is what the log says, in every run and at every time, exactly when the list names the route at most once |
| `RouteCaching.RouteCache.RecordProbes` | crates/freescp-app/src/routing.rs:497-536 | the loop over probes turns the entries into those after one more round of the log |
| `RouteCaching.RouteCache.RecordFailure` | crates/freescp-app/src/routing.rs:538-551 | the entries become those after one more failure |
| `RouteCaching.RouteCache.RecordSuccess` | crates/freescp-app/src/routing.rs:553-559 | the entries become those after one more success |
| `RouteRanking.SortFacts` | crates/freescp-core/src/route.rs:304-305 | sorting permutes and sorts |
| `RouteRanking.SortIsStable` | crates/freescp-core/src/route.rs:304-305 | equal keys keep their order |
| `RouteRanking.RankIsPermutation` | crates/freescp-core/src/route.rs:291-314 | the ranking holds every probe index exactly once |
| `RouteRanking.RankRespectsClasses` | crates/freescp-core/src/route.rs:291-314 | LAN before other reachable before the rest, always |
| `RouteRanking.RankDecides` | crates/freescp-core/src/route.rs:291-335 | the whole order from the statuses alone: a route on the LAN before one elsewhere, a reachable one before one that is not, one that could not be probed before one that did not answer; among reachable routes of one kind the sticky one first, unless one is more than a fifth and more than 5 ms faster, then by latency, and else as probed |
| `RouteRanking.OnlyOneBefore` | crates/freescp-core/src/route.rs:291-335 | of any two routes exactly one comes before the other, so that order is the only one |
| `RouteRanking.RankedByLatency` | crates/freescp-core/src/route.rs:291-341 | within a class order is by latency, but for the sticky route moved to the front |
| `RouteRanking.StickyFirstUnlessBeaten` | crates/freescp-core/src/route.rs:318-341 | the last good route leads its class unless another beats it by a fifth and by more than 5 ms |
| `Failover.RunProbes` | crates/freescp-app/src/routing.rs:716-741 | one result per probeable candidate, in order, with what probing its label told; a label that came before has no answer left and counts as unprobeable |
| `Failover.SortByTwoValues` | crates/freescp-app/src/routing.rs:647-650 | a stable sort by a flag is a stable partition |
| `Failover.OrderIsPartitionedRanking` | crates/freescp-app/src/routing.rs:644-650 | the attempt order is the ranking stably split into candidates whose route is not in backoff, then the others |
| `Failover.OrderIsPermutation` | crates/freescp-app/src/routing.rs:641-653 | it tries every probed index exactly once |
| `RouteKeys.KeyIgnoresOrder` | crates/freescp-app/src/routing.rs:351-378 | reordering the candidates keeps the cache key |
| `RouteKeys.KeyFixesLabels` | crates/freescp-app/src/routing.rs:351-378 | for candidates without the key's separators in labels and hosts, equal key texts mean equal descriptors, so the same labels |
| `RouteKeys.KeyTextExactlyWhen` | crates/freescp-app/src/routing.rs:351-378 | for candidates without the key's separators in labels and hosts: the key texts are equal exactly when the candidates are the same but for their order, in label, host, port and first hop |
| `RouteKeys.ProbedExactlyWhen` | crates/freescp-app/src/routing.rs:309-347 | a label is probed exactly when a candidate of that label names a jump host or proxy that is not blank, or a host |
| `RouteKeys.CraftedLabelSharesKey` | crates/freescp-app/src/routing.rs:351-378 | a label with separators in it can spell the key of two other routes |
| `RouteKeys.CraftedLabelOverruns` | crates/freescp-app/src/routing.rs:625-653 | and is then served more probes than it has candidates |
| `RouteKeys.BoundedStep` | crates/freescp-app/src/routing.rs:497-559 | a round, failure or success of one site keeps every cached vector's labels among the labels of every site of that key |
| `RouteKeys.BoundedExactlyWhen` | crates/freescp-app/src/routing.rs:497-559 | over all logs that the sites in use may record, every cached vector fits every site of its key exactly when of any two sites of one key the probed labels of one are, with their numbers, labels of the other, and so is every label of it |
| `RouteKeys.FittingProbes` | crates/freescp-app/src/routing.rs:625-653 | so no served vector is longer than its candidate list |
| `RouteKeys.PlainKeysAreFaithful` | crates/freescp-app/src/routing.rs:351-378 | without separators and hash collisions one key stands for one multiset of labels, which is more than the bound needs |
| `RouteAlignment.FreshAlignedExactlyWhen` | crates/freescp-app/src/routing.rs:641-653 | fresh probes line up with the candidates exactly when the probed labels are the first labels; with distinct labels, exactly when no candidate without a first hop precedes one with |
| `RouteAlignment.ServedAlignedExactlyWhen` | crates/freescp-app/src/routing.rs:625-653 | a round of one list served to another lines up exactly when its labels, with the stray failures since appended, are the first labels of the other |
| `RouteAlignment.ServedAlignedExactlyInOrder` | crates/freescp-app/src/routing.rs:351-378 | for plain lists of one key, all probed, exactly when the order is the same |
| `RouteAlignment.ReorderedRoutesExample` | crates/freescp-app/src/routing.rs:351-378 | two routes swapped within the time to live: the wrong one is tried first |
| `RouteAlignment.UnprobeablePrimaryExample` | crates/freescp-app/src/routing.rs:716-741 | a primary without a host or a jump, which has no first hop, is tried in the place of the route that answered, and the last route never |
| `Failover.TryInOrder` | crates/freescp-app/src/routing.rs:656-704 | attempts are a prefix of the order in which all but the last failed with a failover error; result, failed labels and recorded failures are exactly theirs; the no-route error needs an empty order |
| `Failover.ConnectRouted` | crates/freescp-app/src/routing.rs:597-704 | pinned, single and automatic paths choose the order they should; a success is that of the last attempt and names its route and host, and the routes given up before it by label, or host for the primary; an error is that of the last attempt; latency and LAN flag are those of the route's probe; on the automatic path the route that connected is the sticky one and unmarked, every other route given up is in backoff for the next 60 seconds, and no other site's entry changed; otherwise the cache is untouched; the bound that keeps the indexing in range survives |
| `Failover.MetaIsLastProbe` | crates/freescp-app/src/routing.rs:641-676 | what is reported of a chosen route is its own last probe: latency and LAN flag if it was reachable, else nothing |
| `Failover.UseAll` | crates/freescp-app/src/routing.rs:597-704 | from an empty cache, after any calls, warm-ups and prunings in any order, every served vector fits its candidates: no index is ever out of range |
| `Failover.ObtainProbes` | crates/freescp-app/src/routing.rs:625-640 | fresh probes are reused and leave the cache alone; otherwise one round is recorded, with what probing each label told |
| `Failover.GivenUpRoutesAreDemoted` | crates/freescp-app/src/routing.rs:686-698 | a route given up in this call is in backoff for the next 60 seconds |
| `Transport.FromDialog` | crates/freescp-app/src/connect.rs:336-389 | no dialog state yields both proxy and jump host; a jump host is taken exactly when the protocol supports it, it is enabled and not blank, and otherwise the proxy where the protocol has one; hosts and keys are trimmed, ports kept to 16 bits or set to their defaults, empty texts left unset |
| `Transport.DefaultsKeepTransport` | crates/freescp-app/src/connect.rs:683-754 | the guarded ssh-config defaults never add a conflict nor touch an explicit transport |
| `Transport.DefaultsFillGaps` | crates/freescp-app/src/connect.rs:683-754 | those defaults replace the host by its true name, fill user, port and key where they are open, add the configured jump host only where that is allowed and nothing else is set, and complete a jump host's port, user and key |
| `Transport.SetValuesWin` | crates/freescp-app/src/connect.rs:683-754 | a user, key, port, jump host, jump port, jump user or jump key that the options set is kept |
| `Transport.RouteOwnsItsTransport` | crates/freescp-app/src/routing.rs:120-225 | a route candidate uses exactly the transport its route names and never both |
| `Transport.InjectLan` | crates/freescp-app/src/routing.rs:229-292 | at most one LAN candidate is appended, and only when due |
| `Transport.LanIsDueExactlyWhen` | crates/freescp-app/src/routing.rs:229-292 | a LAN candidate is due exactly when the primary has a jump host or a proxy, its host is a LAN address, and no candidate reaches its endpoint without either |
| `Transport.LanCandidateIs` | crates/freescp-app/src/routing.rs:229-292 | it is the primary without jump host and proxy, called "LAN", or "LAN direct" when a candidate is called that in either case |
| `Transport.LanInjectionIsIdempotent` | crates/freescp-app/src/routing.rs:229-292 | after an injection none is due, and the injected candidate is direct with the primary's endpoint |
| `Transport.BuildCandidates` | crates/freescp-app/src/routing.rs:120-225 | primary, then one candidate per route, then perhaps the LAN one; each candidate has its route's host, port, user and key, or the site's where these are open, the route's own jump host or proxy with its port, and the credentials of that by the same rule, completed by the ssh configuration; only the primary can conflict, and only if the site does; tags are distinct exactly when the routes' own are and no LAN candidate is due while both its names are taken |
| `Transport.SilentRoute` | crates/freescp-app/src/routing.rs:131-222 | where the ssh configuration says nothing about a route's hosts its candidate is exactly that |
| `Transport.TagsDistinctExactlyWhen` | crates/freescp-app/src/routing.rs:229-292 | candidate tags are distinct exactly when the routes' own are and no LAN candidate is due while both "LAN" and "LAN direct" are taken |
| `Transport.CandidatesFromDialog` | crates/freescp-app/src/connect.rs:336-409 | from any dialog and any route list, no candidate conflicts |
| `Transport.OnlyThePrimaryConflicts` | crates/freescp-app/src/routing.rs:120-225 | a conflicting candidate is the primary of a conflicting site |
| `Transport.DirectStaysDirectExactlyWhen` | crates/freescp-core/src/ssh_config.rs:284-373 | options that are direct stay direct through the connector's own config pass exactly when the config names no jump host for them |
| `Transport.ConnectorConflictsExactlyWhen` | crates/freescp-core/src/ssh_config.rs:284-373 | that pass creates a conflict exactly for proxied options with such a config |
| `Transport.ConnectorEndpoint` | crates/freescp-core/src/ssh_config.rs:284-373 | the connector's pass again takes the host's true name, and the configured port where the options have the default |
| `Transport.ConnectorCredentials` | crates/freescp-core/src/ssh_config.rs:284-373 | it fills a blank user and a blank key |
| `Transport.ConnectorJump` | crates/freescp-core/src/ssh_config.rs:284-373 | it takes the configured jump host where none is set, whatever the proxy, with its port, and its user unless one is set |
| `Transport.LanRouteTunnelledExample` | crates/freescp-app/src/connect.rs:422-429 | a direct route that ends up behind a jump host |
| `SlintContexts.UnescapeLoop` | scripts/po_fill_slint_contexts.py:126-140 | the escape loop computes the pairwise unescaping |
| `SlintContexts.UnescapeMeans` | scripts/po_fill_slint_contexts.py:110-140 | a pair stands for a newline, for a tab or for its second character, any other character for itself |
| `SlintContexts.SlintPairs` | scripts/po_fill_slint_contexts.py:41-70 | the one-pass tracker collects the pairs of its stack machine over the tokens |
| `SlintContexts.MachineRefinesWalk` | scripts/po_fill_slint_contexts.py:41-70 | on every well-nested forest the machine reports each translation with exactly its enclosing components, as a recursive walk does, and ends where it began |
| `SlintContexts.PairsOfWellNestedText` | scripts/po_fill_slint_contexts.py:34-70 | the collected pairs are each translation with its innermost enclosing component |
| `SlintLexing.StrippedHasNone` | scripts/po_fill_slint_contexts.py:43 | cutting comments leaves none, and keeps a text exactly when it has none |
| `SlintLexing.ContextPairs` | scripts/po_fill_slint_contexts.py:34-70 | the pairs of all files are those of each file's tokens, comments cut |
| `SlintPieces.WrittenIsStripped` | scripts/po_fill_slint_contexts.py:43 | cutting comments from written text cuts each piece's own comments and nothing else, as long as no translated text holds two slashes |
| `SlintCoverage.EveryTextIsWritten` | scripts/po_fill_slint_contexts.py:30-70 | every text without comments is written text: nothing else is asked of a file |
| `SlintReading.KeywordIsWord` | scripts/po_fill_slint_contexts.py:30-50 | a keyword is recognised only where the whole word is that keyword |
| `SlintReading.OtherWordsDeclareNothing` | scripts/po_fill_slint_contexts.py:30-50 | so a word that is none of the three keywords starts no declaration, wherever it ends |
| `SlintReading.PieceIsPassed` | scripts/po_fill_slint_contexts.py:30-70 | a declaration, translation, brace, word or mark, whatever stands behind it, is read as exactly its tokens |
| `SlintReading.TokensExactlyWhen` | scripts/po_fill_slint_contexts.py:30-70 | written text is read as its pieces' tokens exactly when no translated text holds two slashes |
| `SlintReading.FoundExactlyWhen` | scripts/po_fill_slint_contexts.py:34-70 | where the pieces nest and every translation stands in a component, each translation is found with exactly its enclosing components if and only if no translated text holds two slashes |
| `SlintReading.PairsOfWrittenText` | scripts/po_fill_slint_contexts.py:34-70 | from the text on: the pairs of written text whose pieces nest are each translation with its innermost enclosing component |
| `SlintReading.AddressExample` | scripts/po_fill_slint_contexts.py:43 | a translated web address is not collected |
| `PoStrings.ThreeReplacementsEscape` | scripts/po_fill_slint_contexts.py:145 | the three replacements in their order are one character-wise escape |
| `PoStrings.EscapeRoundTrip` | scripts/po_fill_slint_contexts.py:111-123 | escaped text is made of whole units and unescapes to the value |
| `PoStrings.CutIsWholeOrRagged` | scripts/po_fill_slint_contexts.py:150-159 | a cut leaves whole units or splits one pair, and only a cut after a backslash splits |
| `PoWrapping.WrapKeepsText` | scripts/po_fill_slint_contexts.py:143-161 | the lines join to the escaped value and none is longer than 72 |
| `PoWrapping.AsPoString` | scripts/po_fill_slint_contexts.py:143-161 | the loop terminates and prints the wrapped, quoted lines |
| `PoWrapping.CutExactlyWhere` | scripts/po_fill_slint_contexts.py:149-158 | a line is cut behind the last newline escape it has room for, else behind the last space, else at 72 |
| `PoWrapping.OnlyHardCutsSplit` | scripts/po_fill_slint_contexts.py:151-157 | only a cut at 72 through text without a space splits a pair |
| `PoWrapping.WholeTextReads` | scripts/po_fill_slint_contexts.py:97-108 | wrapped text reads back exactly when all lines are whole, and strictly shorter otherwise |
| `PoWrapping.RoundTripExactlyWhen` | scripts/po_fill_slint_contexts.py:97-161 | a value read back from its printed lines is the value exactly when no line ends in the first half of a pair |
| `PoWrapping.HardCutExample` | scripts/po_fill_slint_contexts.py:154-155 | seventy-one letters and a quote do not come back |
| `PoBlocks.LinesComeBack` | scripts/po_fill_slint_contexts.py:78 | joined lines split into the same lines |
| `PoBlocks.BlocksComeBack` | scripts/po_fill_slint_contexts.py:195-198 | joined solid blocks split into the same blocks |
| `PoBlocks.AppendedBlocks` | scripts/po_fill_slint_contexts.py:192-198 | text appended behind a newline keeps the blocks of both sides, whatever newlines the old text ends with |
| `PoCatalogue.ParseOne` | scripts/po_fill_slint_contexts.py:75-91 | the loop over a block's lines runs the line machine |
| `PoCatalogue.ParseAll` | scripts/po_fill_slint_contexts.py:73-94 | the loop over blocks keeps exactly the entries with a msgid, in order |
| `PoReading.FieldReads` | scripts/po_fill_slint_contexts.py:78-91 | a field of an entry holds the strings quoted on the last line that starts it and on the lines that directly continue that one, in order, and nothing else |
| `PoReading.EntriesAreBlocks` | scripts/po_fill_slint_contexts.py:73-94 | the entries are exactly what the blocks with a msgid line read as |
| `PoCatalogue.BlankAround` | scripts/po_fill_slint_contexts.py:88-91 | blank lines around a block do not change its entry |
| `PoCatalogue.AppendedEntries` | scripts/po_fill_slint_contexts.py:192-198 | the new file's entries are the old ones followed by the appended ones |
| `PoCatalogue.BlockReads` | scripts/po_fill_slint_contexts.py:184-188 | a printed block parses to its context and to what its lines read back as |
| `PoFill.TallyCounts` | scripts/po_fill_slint_contexts.py:167-174 | the counters hold exactly the translations that occur, with their numbers |
| `PoFill.PickBest` | scripts/po_fill_slint_contexts.py:183 | the choice beats every other by count, then by text |
| `PoFill.BestIsMostFrequent` | scripts/po_fill_slint_contexts.py:183 | no translation of the text occurs more often than the chosen one, ties going to the first in order |
| `PoAdditions.AddedExactlyWhen` | scripts/po_fill_slint_contexts.py:164-190 | an entry is added exactly when its pair is wanted, no entry translates the text under that context, and its translation occurs for the text under another one, no other more often, ties going to the first in order |
| `PoOrder.SortPairs` | scripts/po_fill_slint_contexts.py:177 | the wanted pairs, each once, in ascending order |
| `PoOrder.SortedOnce` | scripts/po_fill_slint_contexts.py:177 | there is only one such list: the set's own order does not matter |
| `PoFill.Fill` | scripts/po_fill_slint_contexts.py:164-199 | from the file and the set of wanted pairs: unless nothing is missing, the text, closed by a newline, is followed by a blank line and the blocks of exactly the missing translatable entries in the pairs' order; their number is returned; each block starts with its comment |
| `PoFill.FilledReadsExactlyWhen` | scripts/po_fill_slint_contexts.py:164-199 | the new file parses to the old entries plus the added ones exactly when no added line ends inside a pair |
| `PoSecondRun.NoNewMsgids` | scripts/po_fill_slint_contexts.py:180-183 | adding entries makes no further text translatable |
| `PoSecondRun.SecondRunAddsNothingExactlyWhen` | scripts/po_fill_slint_contexts.py:164-199 | a second run adds nothing, and leaves the file alone, exactly when every added text comes back whole and no added translation comes back empty |
| `PoSecondRun.SettledByLonger` | scripts/po_fill_slint_contexts.py:164-199 | the step behind that: what settles the pair of an addition that did not come back is a longer one that did not either |
| `PoSecondRun.AddedAgainExample` | scripts/po_fill_slint_contexts.py:164-199 | a text of seventy-one letters and a quote, wanted in another context, is added again by the second run |
| `PoFill.CleanInputsPrint` | scripts/po_fill_slint_contexts.py:164-199 | word-character contexts and strings without odd separators make every added entry printable |
| `ConsoleRuns.BuildRuns` | crates/freescp-app/src/console.rs:828-890 | the loop builds the runs of the row |
| `ConsoleRuns.RunsKeepPicture` | crates/freescp-app/src/console.rs:832-888 | from any column on, extending a correct picture yields a correct picture |
| `ConsoleRuns.PictureIsUnique` | crates/freescp-app/src/console.rs:826-890 | a row has only one list of ordered, disjoint, maximal runs that shows it |
| `ConsoleRuns.RunsArePicture` | crates/freescp-app/src/console.rs:826-890 | on a row whose wide cells have their continuation, a list of runs shows every cell's glyph and style, leaves only blanks uncovered and has no two touching runs alike exactly when it is the one built |
| `ConsoleRuns.RunTellsGlyph` | crates/freescp-app/src/console.rs:839-858 | the run over a glyph has its colours, black shown as dark grey and the defaults where none are set, and its bold, italic, dim and inverse; and there is something to see |
| `ConsoleRuns.SeenGlyphHasRun` | crates/freescp-app/src/console.rs:859-869 | a glyph with a character other than the space, or drawn on a background other than the default, which inverse swaps, is covered by a run |
| `Console.BufferOverflowsExactlyWhen` | crates/freescp-app/src/console.rs:811-823 | whatever was typed, the pending buffer is past its bound exactly when the last nonempty send alone is |
| `Console.BufferKeepsLatest` | crates/freescp-app/src/console.rs:811-823 | the buffer always holds whole sends, the latest ones without a gap |
| `Console.ConsoleState.constructor` | crates/freescp-app/src/console.rs:445-481 | at least two columns and one row, and a valid state |
| `Console.ConsoleState.Attach` | crates/freescp-app/src/console.rs:489-495 | the transport is told the grid size and the buffer is emptied |
| `Console.ConsoleState.TakeSession` | crates/freescp-app/src/console.rs:498-501 | the transport is handed out and the state stays valid |
| `Console.ConsoleState.SetClosed` | crates/freescp-app/src/console.rs:513-516 | the transport is gone and the state stays valid |
| `Console.ConsoleState.Send` | crates/freescp-app/src/console.rs:811-823 | bytes go to the transport, else to the bounded buffer |
| `Console.ConsoleState.Resize` | crates/freescp-app/src/console.rs:542-556 | a new size reaches screen, rows and transport together and dirties the view; the same size changes nothing |
| `Console.ConsoleState.ApplyEvents` | crates/freescp-app/src/console.rs:794-808 | replies go out in order; a requested size of rows and columns, at least one row and two columns, becomes that of grid, screen and transport, and without a request the size stays; title and bell are taken |
| `Console.ConsoleState.Feed` | crates/freescp-app/src/console.rs:520-527 | the screen becomes the emulator's, replies are sent, a size that the output asks for is taken and told to the transport, with rows and columns as asked, and else kept; the view is dirty; no bytes change nothing |
| `Console.ConsoleState.RebuildRows` | crates/freescp-app/src/console.rs:759-770 | row by row comparison leaves cache and published rows equal to the screen from scratch |
| `Console.ConsoleState.RefreshScrollback` | crates/freescp-app/src/console.rs:784-792 | measuring the history leaves the offset where it was and yields the true length |
| `Console.ConsoleState.Render` | crates/freescp-app/src/console.rs:530-537 | the published rows are the screen rendered from scratch, the cursor is placed under the scroll offset, the screen is unchanged |
| `Console.ConsoleState.ScrollLines` | crates/freescp-app/src/console.rs:633-643 | the offset moves and is clamped; the view is dirtied exactly when it moved |
| `Console.ConsoleState.ScrollToBottom` | crates/freescp-app/src/console.rs:645-650 | the live screen is shown again, dirty exactly when it was not |
| `Console.ConsoleState.Clear` | crates/freescp-app/src/console.rs:653-663 | an empty screen of the same size, dirty |
| `Console.ConsoleState.Paste` | crates/freescp-app/src/console.rs:597-629 | the clipboard text, its line breaks as Return and bracketed when asked, goes to the transport or else to the bounded buffer, and the live screen is shown |
| `Console.PasteUnifiesLineBreaks` | crates/freescp-app/src/console.rs:607-623 | what is sent does not depend on how the text writes its line breaks |
| `Console.PlainPaste` | crates/freescp-app/src/console.rs:607-623 | text without line breaks is pasted as its UTF-8 bytes |
| `Console.PasteBreaks` | crates/freescp-app/src/console.rs:607-623 | a line break is pasted as one Return |
| `Console.Drive` | crates/freescp-app/src/console.rs:520-663 | after any run of output, sizes, scrolling, typing, clearing, refreshes, transports attached, taken and closed, the published rows are the emulator's screen from scratch, the attached transport was last told its size, and on an emulator that keeps wide cells whole each live row is its exact picture |
| `LocalCopy.Disk.CopyChunks` | crates/freescp-app/src/local_fs.rs:427-449 | whatever the read sizes, success leaves exactly the source's bytes; reports climb and never pass the file's end |
| `LocalCopy.Disk.CopyOneFile` | crates/freescp-app/src/local_fs.rs:399-450 | skip, refusal and copy each leave exactly what they should, at the place the destination leads to; faults touch only that place and the directories on the way to it |
| `LocalTree.GrownIsSameTree` | crates/freescp-app/src/local_fs.rs:354-382 | images of all walked items over an empty directory are the source's directories and regular files, byte for byte, and nothing more |
| `LocalTree.SourceIntact` | crates/freescp-app/src/local_fs.rs:325-395 | a change confined to the destination leaves an apart source alone |
| `LocalTree.PlaceStays` | crates/freescp-app/src/local_fs.rs:325-395 | a name whose way is clear of what changed keeps its place |
| `LocalTransfer.PrescanTree` | crates/freescp-app/src/local_fs.rs:502-526 | never counts too many bytes, and counts directories, files and bytes exactly when every size was readable, which it was when no call failed; its guard against directories seen before skips none |
| `LocalTransfer.CopyItems` | crates/freescp-app/src/local_fs.rs:357-382 | at every exit the source is untouched and reports climb within the tree's size; success copied every item and counted every byte |
| `LocalTransfer.CopyLocal` | crates/freescp-app/src/local_fs.rs:325-395 | success leaves the same tree and returns its byte total; the total shown never exceeds it, and for an undisturbed directory copy that succeeds is what it returns; reports never fall, never pass the source's size and end with what is returned; a call cancelled at its start, onto itself, or onto something that it is to skip or may not replace ends as such; changes stay at the destination, or where a link there leads when a file is copied, at any exit; over a destination that holds the source directory, with overwrite, the source is removed and the call fails; a copy that no fault and no cancellation disturbs succeeds exactly when it is a skip, or a directory beside a destination that can be made, or a file that can be read and written, and no other copy succeeds |
| `LocalTransfer.FreeNameCopies` | crates/freescp-app/src/local_fs.rs:325-395 | so a directory or a readable file copies to any free name in a directory outside it |
| `LocalTransfer.StaysAtDestinationExactlyWhen` | crates/freescp-app/src/local_fs.rs:399-425 | a copy that was made changed nothing outside its destination exactly when that was no link to other bytes, or the source is a directory |
| `LocalTransfer.WrittenThroughLinkExample` | crates/freescp-app/src/local_fs.rs:399-425 | a file copied over a link: the link stays, its target has the source's bytes |
| `LocalMove.Rename` | crates/freescp-app/src/local_fs.rs:479-480 | a rename moves the whole tree, links included, exactly when there is a directory to move it to, neither place holds the other and no directory is put over a link; nothing else changes |
| `LocalMove.MoveLocal` | crates/freescp-app/src/local_fs.rs:456-488 | what was at neither place stays as it was; between places apart from each other every regular file is at source or destination at every exit; where one place holds the other, nothing but the clearing of the destination happens, wholly or in part, it stays at the destination, and it ends in an error; the destination is cleared exactly when it exists, is another entry, overwriting is asked for and nothing fails first; a move that no fault and no cancellation disturbs succeeds exactly when it is a skip, a rename to an existing directory, or a copy across devices that would succeed, once what existed there is gone, and no other move succeeds |
| `LocalMove.OthersAreDropped` | crates/freescp-app/src/local_fs.rs:481-485 | after a move across devices a link or special file of the source is at neither place |
| `LocalMove.ClearingLoses` | crates/freescp-app/src/local_fs.rs:470-478 | clearing a destination that overlaps the source loses every source file in it |
| `SearchMatching.WildcardToRegex` | crates/freescp-app/src/local_fs.rs:644-656 | the loop builds the anchored source text |
| `SearchMatching.CompiledReads` | crates/freescp-app/src/local_fs.rs:644-656 | that text reads as an anchored regex of one token per pattern character, for every pattern |
| `SearchMatching.RegexMeansWildcard` | crates/freescp-app/src/local_fs.rs:580-656 | for every pattern and name the compiled regex finds a match exactly when a recursive matcher, whose wildcards exclude newlines, accepts the whole name |
| `SearchMatching.NewlineFreeNames` | crates/freescp-app/src/local_fs.rs:644-656 | on names without newlines that is plain wildcard matching |
| `SearchMatching.NewlinesOnlyReject` | crates/freescp-app/src/local_fs.rs:644-656 | on other names the regex accepts no more than plain wildcard matching does |
| `SearchMatching.WildcardMatcherIsExact` | crates/freescp-app/src/local_fs.rs:590-656 | a wildcard pattern without other metacharacters always yields a matcher, and it is exact |
| `SearchMatching.PlainMatcherIsExact` | crates/freescp-app/src/local_fs.rs:590-629 | a pattern without metacharacters and wildcards accepts exactly the names in which it occurs, case folded |
| `SearchMatching.RawPatternIsRegex` | crates/freescp-app/src/local_fs.rs:590-621 | one with a metacharacter is taken for a regex as it stands, or refused |
| `SearchMatching.InvalidExactlyWhen` | crates/freescp-app/src/local_fs.rs:598-606 | a raw pattern whose meaning is modelled is no regex exactly when it starts with a repetition or ends in an odd number of backslashes |
| `SearchMatching.RefusedExactlyWhen` | crates/freescp-app/src/local_fs.rs:590-621 | a pattern is refused exactly when it is blank, or has a metacharacter and is no regex |
| `SearchMatching.WildcardBeforeDotExample` | crates/freescp-app/src/local_fs.rs:602-606 | `*.txt` and `?.txt` are refused |
| `SearchMatching.DotStarExample` | crates/freescp-app/src/local_fs.rs:602-606 | `.*` is taken and matches every name |
| `SizeFormat.FormatIec` | crates/freescp-app/src/local_fs.rs:787-813 | both loops terminate at the unit and mantissa of the formatted size |
| `SizeFormat.UnitsAre` | crates/freescp-app/src/local_fs.rs:787-813 | the units are the first five powers of 1024 |
| `SizeFormat.OverflowsExactlyWhen` | crates/freescp-app/src/local_fs.rs:802-807 | re-promotion happens exactly for counts within half a last-place step of the next unit |
| `SizeFormat.PromotedAtMostOnce` | crates/freescp-app/src/local_fs.rs:802-807 | the re-promotion loop runs at most once |
| `SizeFormat.PrintedIsWithinHalfStep` | crates/freescp-app/src/local_fs.rs:787-813 | the printed mantissa, in ones, tenths or hundredths of its unit, is within half a last-place step of the true size |
| `SizeFormat.PrintedIsInRange` | crates/freescp-app/src/local_fs.rs:787-813 | units below PiB show at least 1 and less than 1024 |
| `SizeFormat.PrintedIsMonotone` | crates/freescp-app/src/local_fs.rs:787-813 | more bytes never show a smaller unit, nor a smaller mantissa of one unit |
| `Utf8.DecodeEncode` | crates/freescp-app/src/history.rs:426-454 | strict decoding undoes encoding |
| `Utf8.EncodeDecode` | crates/freescp-app/src/history.rs:439-455 | bytes that decode are the encoding of what they decode to |
| `PercentCoding.DecodeLoop` | crates/freescp-app/src/history.rs:439-455 | the byte loop decodes as specified, with its failures |
| `PercentCoding.EscapesLikeThis` | crates/freescp-app/src/history.rs:426-437 | letters, digits and `-._~` stand for themselves, every other byte is a percent sign and two upper-case hexadecimal digits |
| `PercentCoding.DecodeUndoesEncode` | crates/freescp-app/src/history.rs:426-455 | decoding undoes encoding, for every string |
| `PercentCoding.EncodeUndoesDecodeExactlyWhen` | crates/freescp-app/src/history.rs:426-455 | encoding undoes decoding exactly on texts that escape only what must be, in upper case |
| `PercentCoding.SignIsAcceptedExample` | crates/freescp-app/src/history.rs:445-446 | a sign is accepted as the first hexadecimal digit |
| `RecentServers.PortReads` | crates/freescp-app/src/history.rs:299-345 | a written port parses back |
| `RecentServers.NamesRoundTrip` | crates/freescp-core/src/types.rs:192-267 | protocol and scheme names parse back |
| `RecentServers.NamesIgnoreCase` | crates/freescp-core/src/types.rs:192-267 | they are read in either case |
| `RecentServers.EncodeRecentServer` | crates/freescp-app/src/history.rs:288-323 | the pushes produce the joined pairs of the preset's fields |
| `RecentServers.EncodedText` | crates/freescp-app/src/history.rs:288-323 | the stored text in full: protocol, folded host, port and user, then what belongs to the protocol and differs from its default; nothing without a host |
| `RecentIdentity.DecodeRecentServer` | crates/freescp-app/src/history.rs:327-405 | the loop over pairs decodes as specified, with its failures |
| `RecentIdentity.EncodedFieldsRead` | crates/freescp-app/src/history.rs:337-354 | every field the encoder writes is collected again: no separator survives encoding |
| `RecentIdentity.DecodedExactlyWhen` | crates/freescp-app/src/history.rs:288-405 | decoding an encoding yields the canonical preset exactly when it has a host and a port above 0 |
| `RecentIdentity.DecodedInFull` | crates/freescp-app/src/history.rs:288-405 | decoding an encoding with a host always yields the canonical preset, with port 0 replaced by 22, 21, 990, 443, 445, 23 or 992, as the protocol has it |
| `RecentIdentity.CanonicalEncodesAlike` | crates/freescp-app/src/history.rs:288-405 | the canonical preset has the same encoding and is its own canonical form |
| `RecentIdentity.EncodingIsFaithful` | crates/freescp-app/src/history.rs:288-323 | two presets, one of them with a host, encode equally exactly when their canonical forms are equal |
| `RecentLists.CappedIsPrefix` | crates/freescp-app/src/history.rs:81-89 | truncating after every use gives the first items of the list nobody truncates |
| `RecentLists.EverythingDistinct` | crates/freescp-app/src/history.rs:86-87 | the untruncated list holds each key once |
| `RecentLists.EverythingOrdered` | crates/freescp-app/src/history.rs:86-87 | it holds the last use of each key, latest first |
| `RecentLists.FindsLastUse` | crates/freescp-app/src/history.rs:176-183 | looking a key up finds its last use |
| `RecentLists.KeptExactlyWhen` | crates/freescp-app/src/history.rs:164-183 | a key is still listed exactly when fewer other keys than the cap were used since |
| `RecentLists.RecentList.Prepend` | crates/freescp-app/src/state.rs:813-821 | the list stays the 20 most recent trimmed nonblank values of everything added |
| `RecentLists.LastPaths.Remember` | crates/freescp-app/src/history.rs:164-174 | the entries stay the 50 most recently set servers with their latest paths |
| `RecentLists.LastPaths.Lookup` | crates/freescp-app/src/history.rs:176-183 | the latest path of a server, exactly until fifty other servers were set |
| `Sessions.HeldOnce` | crates/freescp-app/src/state.rs:532-551 | a borrowed client is in no slot and has no second borrower |
| `Sessions.LendKeeps` | crates/freescp-app/src/state.rs:532-540 | lending keeps slots and loans consistent |
| `Sessions.ReturnKeeps` | crates/freescp-app/src/state.rs:544-551 | so does giving back, whether or not the session is still open |
| `Sessions.InstallKeeps` | crates/freescp-app/src/main.rs:4618-4650 | a new connection gets an id no client ever had |
| `Sessions.ActiveTabStays` | crates/freescp-app/src/state.rs:572-576 | removing a tab keeps the same tab active unless it was the one removed |
| `Sessions.ChangeConsoles` | crates/freescp-app/src/console.rs:382-410 | opening or closing a tab's terminal keeps: the live terminals are those of the terminal tabs, none of which hosts a session |
| `Sessions.AppState.TakeSessionClient` | crates/freescp-app/src/state.rs:532-540 | a client is lent exactly when its session exists and is idle |
| `Sessions.AppState.ReturnSessionClient` | crates/freescp-app/src/state.rs:544-551 | a returned client goes to its own session while that is open and nowhere else |
| `Sessions.AppState.RemoveTab` | crates/freescp-app/src/state.rs:566-578 | removes the tab and its session, never the last tab |
| `Sessions.AppState.PushBlankTab` | crates/freescp-app/src/state.rs:555-559 | appends a tab with a new id |
| `Sessions.AppState.Install` | crates/freescp-app/src/main.rs:4618-4680 | hosts the session in the tab that asked when it is free, else in the active one when that is, else in a new one; that tab becomes active and no other tab changes |
| `Sessions.AppState.InstallConsole` | crates/freescp-app/src/main.rs:4800-4865 | hosts the terminal in a tab chosen in the same way, which becomes active, under an id that had no terminal |
| `Sessions.AppState.ActivateTab` | crates/freescp-app/src/main.rs:4062-4078 | shows the tab asked for, or the last one |
| `Sessions.AppState.DisconnectConsole` | crates/freescp-app/src/main.rs:3963-3988 | ends only the active tab's terminal, if it has one |
| `Sessions.AppState.Disconnect` | crates/freescp-app/src/main.rs:5025-5041 | ends only the active tab's session |
| `Sessions.AppState.CloseTab` | crates/freescp-app/src/main.rs:4161-4195 | a closed tab takes its session and its terminal along, and the same tab stays active unless it was the one closed; the last tab is emptied |
| `Sessions.Perform` | crates/freescp-app/src/state.rs:473-578 | one step of any interleaving of lending, returning, connecting, opening terminals, switching tabs, disconnecting and closing does what was asked to sessions, tabs and active tab, and keeps the invariant, the last tab and every client's session |
| `Sessions.RunAll` | crates/freescp-app/src/state.rs:473-578 | over any run: borrowers hold exactly the lent clients, none of which is in a slot, and once there is a tab there always is one |
| `Debounce.Settle` | crates/freescp-app/src/watcher.rs:153-165 | the waiting loop ends at the first quiet interval, or on a stop or hang-up |
| `Debounce.DebounceLoop` | crates/freescp-app/src/watcher.rs:138-149 | the callbacks are those of the two-state machine |
| `Debounce.WatcherFiresOncePerBurst` | crates/freescp-app/src/watcher.rs:138-165 | without a stop there is exactly one callback per maximal burst, 400 ms after its last change |
| `Debounce.StopEndsFiring` | crates/freescp-app/src/watcher.rs:122-165 | with a stop, whenever its flag was raised, one callback per burst that was over when the watcher noticed, and none after, whatever is queued |
| `Debounce.WatchState.SetPath` | crates/freescp-app/src/watcher.rs:95-119 | exactly the current directory is watched, and a failure other than a missing directory changes nothing |

## Left out

- Slint dialogs, menus, alerts, translations lookup, the CLI, `build.rs`, the website checker: no algorithm.
- Sockets, SSH and Telnet sessions, tokio scheduling, keychain calls, `secrets.rs`: replaced by parameters and abstract state.
- TOML loading and saving of the caches and histories, and pruning of the histories; errors while saving are only logged by the source.
- Integer widths: counters, ids and times are unbounded; id overflow and saturation are not modelled.
- `f64` rounding in `format_iec`: values are exact rationals, and the tie rule of the printed digits is a parameter; more than two decimals, which no caller asks for, are treated as two.
- Text of sizes ("1 byte", digits after the point, unit names) and of recent-server labels: layout only.
- `DefaultHasher`: the hash of a key text is a parameter; where it matters, no collision among the sites in use is a hypothesis.
- ConnectRouted: starts from a cache that fits the sites in use, which is proved of every run of this code from an empty cache (`UseAll`) as long as the sites of one key are compatible in the sense of `BoundedExactlyWhen`; a cache file edited by hand is not covered. For runs of `connect_routed` alone the condition is sufficient only, since it records no failure of a route it did not try. Calls do not overlap: two users of the cache that read before either writes are not modelled.
- Parsing of the ssh configuration, `parse_proxy_jump`, `probe_targets`, `is_probably_lan`: parameters.
- Proxy and jump-host records are grouped; their remaining fields (passwords, key paths) travel with them.
- The remote modules from `RemoteTree` on work on sequences of names; that slash-joined strings behave like them is proved in RemotePaths for plain names.
- Word characters and white space of Python's regular expressions: parameters with the laws they are known to have.
- Reading the `.slint` files from disk: their texts are arguments.
- Escape sequences of special keys and Ctrl characters: `Type` takes the bytes; selection text is not modelled.
- The `vt100` emulator: output and resizing are functions that keep a well-formed screen of the right size.
- The 256-colour table and the LAN address table: parameters.
- PrescanTree: a walk has one order per tree and one fault per call.
- CopyLocal: a destination inside the source directory is not modelled, because the walk would see its own output; nor, when the source is a directory and something stands at the destination, are names whose way leads through a link that lies in the destination and goes with it.
- MoveLocal: such names are left out here too. Related places are on one device.
- Chains and loops of links: a link leads to the place it finally resolves to, or dangles.
- Remote names longer than the server takes fail every call; the bound is a parameter. On a cyclic server it is what ends a recursive delete.
- Backends other than SFTP: the remote models follow its calls.
- `delete_batch`, `RemoteWriteabilityCache`, sorting and filtering of listings, local search: simple bookkeeping without a hard property.
- The match test of a search entry is a parameter of the search query; `SearchMatching` is about that test.
- Raw regex patterns: only what `Read` covers is given a meaning; case folding is a per-character function.
- Session records lose their options and start times; the transfer queue's own client pool is not modelled.
- `AppState::clone`, which copies the id counters but not the registry.
- Callbacks of the watcher take no time, and an event exactly one quiet interval after the last counts as a new burst.
