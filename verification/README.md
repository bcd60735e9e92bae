# Verified model of dftp

`dftp` is a distributed, read-only file system: nodes scan a local directory, push the list
of their files to every other node, and each node keeps a tree of all announced files. This
project models its core and proves what it keeps and where it falls short.

* **The tree** (`Announcements`, `FileTree`, `TreeNodes`). Announcements and tree nodes are
  objects, updated in place as the program does: a batch is cut into runs with the same first
  component; a run's leaf announcements overwrite its entry, last writer wins; the others
  lose their first component and are applied below the entry, whose owner is then
  recalculated from its children. `TreeNode.Update` is proved against `FileTree.Updates`, a
  relation on tree values. It is a relation because the recalculation loops over a map in no
  fixed order, which can show (`Owners.OrderIndependentIff`).
* **What an update means** (`Meaning`, `Convergence`, `Ownership`, `Aggregation`,
  `Agreement`, `Consequences`): a per-path reading of every batch on every tree; independence
  of grouping, batching, order and repetition, owners of directories included where no batch
  leaves a directory other than by descending through it; ownership of directories over all
  histories; idempotence; and the inputs for which these fail.
* **The greeting and push protocol** (`Protocol`, `Safety`, `Mesh`, `MeshSteps`,
  `Termination`, `Clusters`, `Undisturbed`, `DroppedUpdate`, `LostGreet`): a transition
  system of any number of named nodes, with one step per locked section or unlocked read,
  arbitrary interleaving, loss of greetings and answers, and failing pushes; and one node as
  an object whose methods are the same sections. Termination, push exclusivity and a complete
  mesh, exactly if no greet is left pending, are proved over all runs; and with the trees
  (`FileLists`), that connected nodes then show the same files.
* **Local files** (`Paths`, `Scans`, `LocalFiles`), **FTP working directory** (`Ftp`) and
  **read routing** (`Requests`, `Routing`).

Conventions. `Announcement` is what the update makes of an announcement: a path of at least
one component, and a stat. A deletion is never shifted by the program, so its path is its
first component alone; that is how the results about updates hold for batches with deletions
too. Paths are sequences of components, and `p < q` says that `p` is a proper prefix.
Timestamps, sizes and modes are integers without width: the program only compares and copies
them. A nil map of children behaves as an empty one and is modelled as one. `Updates` of one
tree are sequential; the per-node locks are not modelled there. In the protocol, nodes are
addressed by name, and `answered`, `lost`, `pushFailed`, `applied` and `discarded` only
record history.

Where the code differs from its documentation, the code is followed:

* README.md:224 says that a deletion makes the named file unavailable. For a name of several
  components it overwrites the first component's entry instead
  (`Consequences.DeletionOfNamedFile`).
* README.md:156-157 promises the more recent update and eventual consistency. Equal
  timestamps keep whichever came first (`Consequences.FilesConvergeIff`), and the owner of a
  directory announced by two nodes depends on the order
  (`Consequences.DirectoriesConvergeIff`), unless every announcement of it comes with
  something in it (`Agreement.FullAgreement`), as scans do where no directory is empty
  (`Scans.ListingAggregates`).
* README.md:148-149 promises a full mesh. A lost answer can leave a greet pending for good,
  and then it is not complete (`MeshSteps.FullMesh`, `LostGreet.LossBreaksMesh`).
* README.md:149-151 has every node push its list to every other. A list that arrives before
  its sender is known is dropped, although the sender counts it as pushed
  (`MeshSteps.ListsDelivered`, `DroppedUpdate.ListNeverApplied`).
* src/dftp/cluster/proxy.go:55 puts a file's name into a URL as it is, so a name with '#',
  '?' or '%' is not the one the owner is asked for (`Requests.ArrivesIff`), and the redirect
  count may be lost with the rest of the name (`Routing.BoundedIff`, `Routing.RedirectsRestart`).
* src/dftp/main.go:16 takes any spelling of the local root. Files below "./files" are not
  opened by their names (`LocalFiles.DottedRootFails`, `LocalFiles.OpensAllIff`), and other
  spellings give names that are not below the mount point (`LocalFiles.OpenInvertsScan`).

## Model

| member | source | states |
|---|---|---|
| TreeNodes.FileAnnouncement.EnsureInit | src/dftp/dfsfat/update.go:19-26 | An announcement not yet split gets components without slashes that, joined by slashes, are its name without one leading slash; one already split keeps what is left of them; a deletion gets size -1; nothing else changes. |
| TreeNodes.FileAnnouncement.NameShift | src/dftp/dfsfat/update.go:36-38 | The announcement becomes the same one, seen from one level further down. |
| TreeNodes.GroupAnnouncementsByFilepart | src/dftp/dfsfat/update.go:57-76 | The groups are, in order, exactly the maximal runs of announcements with equal first components, whatever the components, the empty one included. |
| Announcements.LastRun | src/dftp/dfsfat/update.go:57-76 | Where the last maximal run begins: all first components from there on are equal, and the one before differs. |
| TreeNodes.TreeNode.EntryFor | src/dftp/dfsfat/update.go:80-95 | The child of that name is kept if there is one, else a new child is added that has this base name, no children, and nothing else set; all other children stay, and the nodes still form a tree. |
| TreeNodes.TreeNode.ApplyLeaves | src/dftp/dfsfat/update.go:97-116 | The entry's stat ends as the in-order last-writer-wins fold of the run's leaf announcements and deletions, and the others are returned in order, each one component shorter. |
| TreeNodes.TreeNode.SetAsDir | src/dftp/dfsfat/update.go:126-134 | The node becomes a directory of size 0 and keeps everything else. |
| TreeNodes.TreeNode.RecalculateOwner | src/dftp/dfsfat/update.go:136-152 | A directory's owner becomes what the accumulator loop gives for some enumeration of its children, each taken once; a node that is no directory is unchanged. |
| TreeNodes.TreeNode.ApplyGroup | src/dftp/dfsfat/update.go:97-122 | A run has the effect `RunEffect` on its entry's value, and no node loses or replaces a child. |
| TreeNodes.TreeNode.UpdateRuns | src/dftp/dfsfat/update.go:78-124 | The recursive update terminates on distinct announcements, deletions included; it turns the tree's value into one `Updates` allows; nodes keep forming a finite tree with disjoint subtrees, and none loses or replaces a child. |
| TreeNodes.TreeNode.Update | src/dftp/dfsfat/update.go:42-50 | The same for announcements as received, split or not; announced stats are left alone except for deletions. |
| TreeNodes.SeekStable | src/dftp/dfsfat/update.go:78-95 | Whatever path led to a node before an update leads to the same node object afterwards. |
| TreeNodes.TreeNode.SeekFinds | src/dftp/dfsfat/fat.go:84-96 | Seeking a path of components finds a node exactly if the tree's value has that path, and the node found stands for the subtree there. |
| TreeNodes.TreeNode.SeekSpelled | src/dftp/dfsfat/fat.go:74-82 | Seeking a path string gives the node at its components, with or without a slash at either end. |
| TreeNodes.TreeNode.Walk | src/dftp/dfsfat/fat.go:98-113 | For any callback and any order of children: exactly the existing paths below the root are reported that lie below no skipped directory, each once and none after a path below it, with its node, and seeking the reported string finds that node; for trees of ordinary names, as `Consequences.NamesStayClean` gives them. |
| Ownership.UpdateTotal | src/dftp/dfsfat/update.go:78-124 | Every batch has some outcome on every tree. |
| Convergence.UpdateTraverses | src/dftp/dfsfat/update.go:97-134 | For every tree, batch and path, the stat afterwards up to its owner, kind and size of files that are also passed through included: run by run, the announcements for the path are absorbed, and going on below makes it a directory of size 0. |
| Meaning.UpdateMeans | src/dftp/dfsfat/update.go:42-134 | For every tree, batch and path: a path no announcement reaches is unchanged; one reached exists, its stat being the in-order last-writer-wins fold of exactly its own announcements -- in all fields if no announcement lies below it, else except kind, size and owner; and it is then a directory of size 0 unless announced otherwise. |
| Convergence.BatchingIrrelevant | src/dftp/dfsfat/update.go:57-134 | Any two ways to cut the same sequence of announcements into batches agree on the paths, on the full stat of every path with no announcement below, and elsewhere on all but kind, size and owner -- all but owner if what lies above announced paths is announced as directories. |
| Convergence.UpdateRefinesOneByOne | src/dftp/dfsfat/update.go:57-124 | The grouped recursive update agrees, in the same sense, with applying the announcements one at a time. |
| Convergence.FoldIsNewest | src/dftp/dfsfat/update.go:105-113 | The fold keeps the old stat exactly if nothing is newer; else it is a newest announced stat, up to the owner of a directory. |
| Convergence.EventuallyConsistent | README.md:156-157 | From equal trees, any two histories delivering the same set of announcements, in any order, batches and number of repetitions, reach the same paths and the same stats, up to owners of directories, if equal timestamps on a path mean equal stats; files agree in full. |
| Agreement.FullAgreement | README.md:156-157 | From equal trees, two histories that deliver the same announcements, in any order, batches and number of repetitions, end with the same stat at every path, owners of directories included: if equal timestamps on a path mean equal stats, what is passed through is announced as directories, and every batch leaves each directory it announces or passes through by descending through it. |
| Agreement.ContiguousAggregates | src/dftp/dfsfat/update.go:57-76 | A contiguous batch does so exactly if it announces no directory without something in it. |
| Convergence.ParentIsDirectory | src/dftp/dfsfat/update.go:118-134 | Over all type-consistent histories of a new root, a node with something below it is a directory of size 0. |
| Consequences.NeverOlder | src/dftp/dfsfat/update.go:78-134 | No update, with deletions or not, removes a path or lowers its time of last information. |
| Consequences.TwoFilesConvergeIff | src/dftp/dfsfat/update.go:106-108 | Two newer announcements of one file path give the same stat in either order exactly if their timestamps differ or they say the same. |
| Consequences.FilesConvergeIff | src/dftp/dfsfat/update.go:105-108 | Any number of announcements of one file, among whatever others that do not pass through it: every order and repetition gives the same stat exactly if the newest ones agree, or none is newer than what is known. |
| Consequences.DirectoriesConvergeIff | src/dftp/dfsfat/update.go:105-113 | Any number of announcements of one directory by its owners, ties included, among whatever others that do not pass through it: every order and repetition gives the same stat exactly if none is newer than what is known; or the newest agree up to their owner, and either what is known has another owner than any of these, or everything newer has theirs. |
| Consequences.DirectoryOwnersConvergeIff | src/dftp/dfsfat/update.go:107-112 | For two announcements, one newer than the other and both newer than what is known: exactly if they have the same owner, or the directory has another owner than the newer one's already. |
| Consequences.NamesStayClean | src/dftp/dfsfat/update.go:80-95 | If all announced names are ordinary path components, so are all names in the tree. |
| Consequences.NodesCalledByPath | src/dftp/dfsfat/update.go:80-95 | Over all histories whose announcements carry the last component of their path as base name, every node is called by the last component of its path, those created on the fly included. |
| Consequences.GrownFromNewRoot | src/dftp/dfsfat/update.go:42-50 | Over all histories of a new root, the root stays a directory without name, owner, size, mode or times; and the nodes are called so. |
| Consequences.CreatedOnTheFly | src/dftp/dfsfat/update.go:86-95 | A path that did not exist, is passed through and is not announced itself ends as a directory of its name, with size, mode and all times 0, whatever the history. |
| Consequences.DeletionOfNamedFile | src/dftp/dfsfat/update.go:100-113 | A deletion newer than an existing file marks that file deleted exactly if its name has one component; otherwise the file is unchanged and the first component's entry is overwritten. |
| Consequences.SplitRunNotIdempotent | src/dftp/dfsfat/update.go:58 | A family of batches, not contiguous, that leave a directory "(multiple)" although all its children have one owner, and change the tree when applied again. |
| Owners.FoldFromFirst | src/dftp/dfsfat/update.go:143-150 | The owner loop yields the first non-empty owner if all later ones equal it, else "(multiple)". |
| Owners.OwnedRecalculation | src/dftp/dfsfat/update.go:136-152 | If all children have owners, the results possible are exactly their common owner, or "(multiple)" if they differ, whatever the iteration order. |
| Owners.OrderIndependentIff | src/dftp/dfsfat/update.go:143-150 | The result is independent of the iteration order exactly unless some child has no owner and all the others share a single one. |
| Ownership.SingleOwnerSoundness | src/dftp/dfsfat/update.go:97-152 | Over all owned, type-consistent histories of a new root, sorted or not: every node below the root has an owner, one with children is a directory, and below a node owned by a single node everything belongs to that node. |
| Aggregation.ExactAggregation | src/dftp/dfsfat/update.go:118-152 | After an owned batch on a tree with owners, every directory whose last touching run descends through it has as owner exactly its children's common owner, or "(multiple)". |
| Aggregation.ContiguousDescends | src/dftp/dfsfat/update.go:57-76 | In a contiguous batch, that is every directory with an announcement below. |
| Aggregation.UpdateIdempotent | src/dftp/dfsfat/update.go:57-152 | Applying the same owned batch again leaves the tree identical, if the last run touching each directory passed through descends through it, as in a contiguous batch. |
| Safety.PushExclusivity | src/dftp/cluster/communication.go:80-107 | In every state of every run, failures included, a peer has exactly one live push task if its push is pending, and none otherwise. |
| Safety.GreetMovesForward | src/dftp/cluster/cluster.go:35-39 | Over every run, peers are never forgotten and greet states never move back. |
| Safety.GreetScheduledOnce | src/dftp/cluster/communication.go:89-97 | Over every run, a node schedules at most one greet per peer. |
| MeshSteps.StepInv | src/dftp/cluster/communication.go:46-107 | Every step keeps the invariant: whoever is known is or will be greeted and pushed to; whoever was answered is known to the answerer and knows it, or will, or something was lost; of two nodes that have read a third's answers, one has been told of the other, and answers on their way are such that this will hold again. |
| MeshSteps.FullMesh | src/dftp/cluster/mgmthttp.go:36-71 | In every reachable state without tasks, whatever was lost, and for any group of nodes: "knows" is symmetric and transitive among them with all greets done, exactly if none of them has a greet of another pending; and none has if nothing was lost. |
| MeshSteps.ConnectedComplete | README.md:148-149 | Any two nodes linked by a chain of acquaintances know each other, so every connected group without pending greets is complete. |
| MeshSteps.JoinedKnow | src/dftp/cluster/mgmthttp.go:74-88 | A node told to greet another ends up known to it if the greeting was answered, and knowing it unless the other's own greet is pending; if nothing was lost, they know each other. |
| MeshSteps.ListsDelivered | src/dftp/cluster/communication.go:116-174 | In every reachable state without tasks, whatever was lost or failed, no push is pending, and all are done if none failed; and a peer to which a push is done has received the list, and has applied it exactly if it knew the sender when it last received it. |
| MeshSteps.AppliedIff | src/dftp/cluster/communication.go:161-167 | In every state of every run: a list received has been applied exactly if its sender was known when it was last received. |
| FileLists.SameListsIff | README.md:149-151 | At rest, in a group of nodes that know none outside it and have no pending greets of each other: those that know each other have applied the same lists exactly if every list has been applied by all nodes its owner knows. |
| FileLists.GroupsAgree | README.md:148-157 | Then any two connected nodes of the group show the same paths and stats, up to owners of directories, in whatever order lists were applied and whatever was lost, failed or discarded before or elsewhere, if the lists have no conflicting ties or kinds; and the owners too if no list leaves a directory other than by descending through it. |
| DroppedUpdate.ListNeverApplied | src/dftp/cluster/communication.go:161-167 | For any two nodes there is a run with nothing lost or failed that ends in a complete mesh, all pushes done, in which one has never applied the other's list. |
| LostGreet.PendingForever | src/dftp/cluster/communication.go:27-53 | When all tasks have ended, whatever was lost, each known peer's greet is done or pending; and it stays as it is in every continuation in which the node is not told to greet that peer again. |
| LostGreet.LossBreaksMesh | README.md:148-149 | For any two nodes there is a run in which an answer and a greeting are lost that ends with one knowing the other, its greet pending, but not known to it. |
| Undisturbed.UndisturbedPath | src/dftp/cluster/communication.go:56-87 | `UpdateNode` run without interruption is a path of the transition system with the same effect on the peer table and the same tasks started. |
| Termination.StepMeasure | src/dftp/cluster/communication.go:46-107 | Every step but a join lowers a measure over unscheduled pairs of nodes and remaining work; a join raises it by a constant. |
| Termination.RunsAreFinite | src/dftp/cluster/communication.go:46-107 | With n nodes and j joins, no run has more than (10n + 28)n^2 + (10n + 29)j steps, whatever is lost. |
| Termination.Progress | src/dftp/cluster/communication.go:46-107 | As long as there are tasks, some task can take a step without a loss. |
| Clusters.UndisturbedUpdate | src/dftp/cluster/communication.go:56-87 | `UpdateNode` leaves the peer greeted, or about to be, and pushed to, or about to be, and starts exactly the greet and push that were missing. |
| Clusters.Cluster.InsertNode | src/dftp/cluster/communication.go:60-69 | An unknown peer is added with both states `Never`; a known one keeps its record object. |
| Clusters.Cluster.ScheduleGreet | src/dftp/cluster/communication.go:89-97 | The section's effect on the peer table and on the tasks started is the transition system's. |
| Clusters.Cluster.SchedulePush | src/dftp/cluster/communication.go:99-107 | The same for scheduling a push. |
| Clusters.Cluster.FinishPush | src/dftp/cluster/communication.go:147-156 | The push state becomes `Done`, or `Never` after a failure. |
| Clusters.Cluster.UpdateNode | src/dftp/cluster/communication.go:56-87 | Information about the node itself is ignored; otherwise the table and tasks are those of the sections in order. |
| Clusters.Cluster.ReadAnswer | src/dftp/cluster/communication.go:46-53 | Whatever order the answer's entries are read in, the table ends the same, with every listed node known, and exactly the missing greets and pushes are started, once each, and no greet for the answerer. |
| Clusters.Cluster.Serve | src/dftp/cluster/mgmthttp.go:36-71 | A greeting without name or addresses changes nothing; else the greeter is recorded, the greet and pushes started are stated exactly, and the answer lists all peers known then. |
| Clusters.Cluster.ReceiveUpdate | src/dftp/cluster/communication.go:159-174 | A known sender's list is applied to the tree; an unknown sender's leaves it unchanged. |
| Scans.ScanRebuilds | src/dftp/localfs/scanner.go:12-56 | The scan of any local tree applied to a new root gives, at every path, exactly the local file or directory there below the mount point, with its name, kind, modification time and mode, its size if it is a file, and the time of the scan; above the mount point, directories with nothing but their names; this node as the owner of all; and nothing else. |
| Scans.ListingOrder | src/dftp/localfs/scanner.go:19-42 | Announcements come in the order of the walk: each directory before what it contains, its entries in their order, none twice. |
| Scans.ListingContiguous | src/dftp/localfs/scanner.go:19-42 | A scan announces a contiguous batch. |
| Scans.ListingAggregates | src/dftp/localfs/scanner.go:19-42 | A scan's list leaves every directory by descending through it exactly if no directory it announces is empty. |
| Scans.RepeatedListChangesNothing | src/dftp/localfs/scanner.go:44-52 | Receiving a scan's list a second time leaves any tree of owned nodes identical. |
| LocalFiles.LocalFs.constructor | src/dftp/localfs/localfs.go:28-42 | The local root ends with a slash, and one leading slash of the mount point is dropped. |
| LocalFiles.LocalFs.Visit | src/dftp/localfs/scanner.go:23-41 | Whatever the root and mount point, a file below the root is announced, in a new announcement, at its path below the mount point or below what the root's spelling adds to it; the root as the mount point, if there is one; with the local name, kind, modification time and mode, a file's size, the time of the scan and this node as owner. |
| LocalFiles.LocalFs.WalkLocal | src/dftp/localfs/scanner.go:19-42 | The walk announces the local tree in preorder, in distinct announcements, each named so. |
| LocalFiles.LocalFs.ScanOnce | src/dftp/localfs/scanner.go:12-56 | The tree is updated with that list, and the list kept for pushing still says the same afterwards. |
| LocalFiles.ScanIsListing | src/dftp/localfs/scanner.go:36-40 | If the local root fits and the mount point consists of ordinary components, that list is the listing of the local tree below the mount point. |
| LocalFiles.OpenInvertsScan | src/dftp/localfs/localfs.go:54-64 | For any root and mount point: every file below the root is named by its path below the mount point and opened again by that name, exactly if the root is spelled as it is cleaned plus a slash, or is "." or "/", or the mount point makes up for its path, and the mount point, if any, is spelled as it is cleaned, with or without a slash, and not ".". |
| LocalFiles.OpensAllIff | src/dftp/localfs/localfs.go:54-64 | For any root and mount point: every file below the root is opened again by the name it got, whatever that is, exactly if the mount point starts what all names have in common, and what remains of that leads nowhere from the root. |
| LocalFiles.CleanRootOpens | src/dftp/localfs/localfs.go:54-64 | For every root of ordinary components, rooted or after any number of "..", and every mount point of ordinary components: which path each file is walked by, which name it gets and which path that name opens, spelled out. |
| LocalFiles.ParentRootOpens | src/dftp/localfs/localfs.go:61 | So "../files": its file x is named x, and that name opens ../files/x. |
| Paths.CleanKeepsPlace | src/dftp/localfs/localfs.go:61 | The cleaning done when paths are joined makes of any relative path some number of ".." and then ordinary components, which lead from every directory where the path does. |
| Paths.CleanSameIff | src/dftp/localfs/localfs.go:61 | Two relative paths are cleaned alike exactly if they lead to the same place from every directory. |
| Paths.RootedKeepsPlace | _vendor/src/github.com/goftp/server/conn.go:202 | A rooted path is cleaned to the ordinary components of the place it leads to from the root. |
| Paths.UpsStay | src/dftp/localfs/localfs.go:61 | Any number of leading ".." stays in a relative path, and is dropped from a rooted one. |
| Paths.CleanRemoves | src/dftp/localfs/localfs.go:61 | An empty component, a "." and an ordinary component followed by ".." make no difference. |
| LocalFiles.DottedRootFails | src/dftp/localfs/localfs.go:39-41 | A root spelled "./files" fails both: its file x is named files/x, and that name opens files/files/x. |
| LocalFiles.ScannedFoundOpened | src/dftp/localfs/localfs.go:54-64 | After scanning into a new tree with fitting root and mount point, seeking any local file's DFS name finds a node with its name, kind, size, mode and modification time, the time of the scan and this node as owner, and the object opens that file by that name. |
| LocalFiles.DfsNamesDistinct | src/dftp/localfs/scanner.go:36-37 | Distinct local files get distinct DFS names, whatever the root and mount point. |
| LocalFiles.RootNameDistinct | src/dftp/localfs/scanner.go:36-37 | With a fitting root and mount point, the root's name is none of theirs. |
| LocalFiles.RefusedIff | src/dftp/localfs/localfs.go:55-60 | A DFS name is refused exactly if it lies neither below the mount point nor beside it, in a directory whose name extends the mount point's. |
| LocalFiles.OpensOutsideMount | src/dftp/localfs/localfs.go:55-60 | A name beside the mount point, whose last component extends the mount point's by x, opens the local file x and what follows, for which it does not stand. |
| Ftp.BuiltPath | _vendor/src/github.com/goftp/server/conn.go:200-210 | Whatever the client asks for, the path built is "/" and ordinary components: an absolute name leads from the root, whatever the working directory, and any other from the working directory; "" and "-a" change nothing. So "/" and a path of ordinary components give these, such a path alone is appended, and ".." removes one. |
| Ftp.CwdLeads | _vendor/src/github.com/goftp/server/cmd.go:222-231 | For any parameter, CWD moves to the directory that an absolute parameter names from the root, and another from the working directory, exactly if it exists as a directory, and stays otherwise; so the working directory remains an existing one with a clean, rooted path. |
| Ftp.CwdThenCdup | _vendor/src/github.com/goftp/server/cmd.go:201-231 | CWD into a subdirectory, then CDUP, restores the working directory exactly unless the name is "-a", below the root. |
| Ftp.StaysDirectory | src/dftp/dfsfat/update.go:97-134 | With consistently announced kinds, what has become a directory stays one. |
| Ftp.WorkingDirectory | src/dftp/ftpface/server.go:79-109 | In every session that mixes CWD, CDUP and consistent updates, the working directory stays a clean, rooted path that resolves to an existing directory. |
| Ftp.Conn.DriverChangeDir | src/dftp/ftpface/server.go:98-109 | The driver's lookup on the tree object gives what its value has at the path: not found, not a directory, or a directory. |
| Ftp.Conn.ExecuteCwd | _vendor/src/github.com/goftp/server/cmd.go:222-231 | The working directory becomes the one the specification of CWD gives for the tree's value: with an absolute path, that path from whatever working directory, with a relative one the working directory and that path, if it is a directory, else what it was. |
| Ftp.Conn.ExecuteCdup | _vendor/src/github.com/goftp/server/cmd.go:201-204 | The same for CDUP. |
| Requests.ArrivesIff | src/dftp/cluster/proxy.go:55-56 | The request for a file arrives with its path and redirect count exactly if the path has none of '#', '?' and '%'. |
| Requests.ReceivedShorter | src/dftp/httpface/server.go:58-61 | Whatever the path, the one the receiver looks up is no longer, and shorter if the path has one of these characters; without '#' and '?', the redirect count is as sent. |
| Requests.InvalidIff | src/dftp/cluster/proxy.go:55-59 | A path without '#' and '?' makes no valid URL exactly if a '%' in it is not followed by two hexadecimal digits. |
| Requests.EscapedArrives | src/dftp/cluster/proxy.go:55-56 | Any path of ordinary components would arrive, with its redirect count, if at least '#', '?' and '%' in it were spelled '%' and their code in two hexadecimal digits, capital or small. |
| Requests.SpaceArrives | src/dftp/cluster/proxy.go:55 | A file called "a%20b" is asked for as "a b". |
| Requests.BlankRefused | src/dftp/cluster/proxy.go:55-62 | A path with a '?' and, after it, a blank or control character is refused. |
| Requests.NameSetsCount | src/dftp/httpface/server.go:144-147 | The first redirect count after a '?' in a name is taken for the request's, whatever was sent, and 0 if it is no number; the path is what comes before the '?'. |
| Routing.BoundedIff | src/dftp/cluster/proxy.go:44-55 | For any path, redirect count and n: no trees and peer tables make a read take more than n hops exactly if following the requests for it, by the strings alone, gets no further. |
| Routing.CountedKeepsLimit | src/dftp/cluster/proxy.go:43-46 | A path without '#' and '?', now and in the requests that follow, keeps the limit of 2 hops, from any redirect count. |
| Routing.ServeRoutes | src/dftp/cluster/proxy.go:34-64 | For a path that arrives as it is sent, a request with redirect count k takes at most 2 - k more hops, and opens a file exactly if the chain of owners reaches, within them, a node that takes itself for the owner, and then there. |
| Routing.ServeEnds | src/dftp/cluster/proxy.go:34-64 | And how any other read of such a path ends, at the node the chain of owners leads to: not found, or a directory; too many redirects if two are used up; unknown owner if the node does not know the next one; or that one does not answer. |
| Routing.TwoHopsAllowed | src/dftp/cluster/proxy.go:24-45 | Of three nodes that name the next one, the third opens its own file after two hops, or ends with too many redirects if it names yet another. |
| Routing.RequestFails | src/dftp/cluster/proxy.go:55-62 | A name that makes no valid URL fails where the owner would be asked, one whose request is refused one hop further. |
| Routing.AgreedOwner | src/dftp/httpface/server.go:143-149 | If the node asked and another, known one agree that the latter is the owner, its file is opened after one hop, exactly if the path has none of '#', '?' and '%'. |
| Routing.FragmentExceeds | src/dftp/cluster/proxy.go:55 | A path with a '#' after an otherwise plain one exceeds the limit. |
| Routing.RedirectsRestart | src/dftp/cluster/proxy.go:55 | On every network where the owners of its parts are so linked, such a read takes three hops and opens another file. |

## Left out

- HTTP, JSON, UDP multicast, sockets and timeouts: messages are values, and a node found by multicast is a `Join`.
- Addresses, `combineHostAndPort` and `KnownMgmtAdr`: nodes are addressed by their names, which are taken to be unique.
- `LastAlive` and the other times kept per peer: nothing in the code reads them.
- The locks inside one tree: updates of a tree are applied one after the other.
- Errors of the local walk: entries that cannot be read are not part of the local tree.
- `GetReadonly`, `ListDir`, HTML listings and sorting: copies and presentation of what `Seek` finds.
- Other FTP commands, authentication and data connections: the working directory is the only state modelled.
- `GetHttpProxy`: a cache no caller uses.
- Pruning after full updates, pings, removal of peers and incremental updates: announced in the documentation, absent from the code.
- Meaning.UpdateMeans: says nothing about the kind and size of a path that is passed through and also announced as a file, which depend on the runs (`Convergence.UpdateTraverses`).
- Convergence.EventuallyConsistent: leaves the owners of directories open; `Agreement.FullAgreement` settles them, under more conditions.
- FileLists.GroupsAgree: takes each node's list as fixed, as a node scans once, when it starts.
- Routing.ServeRoutes: takes the trees and tables as fixed during one read, and a listing or other page served in place of a file as an outcome of its own, wherever redirects to it lead.
- Requests.ArrivesIff: names are sequences of characters, without encoding, and with control characters, which newer versions of Go refuse in URLs.
