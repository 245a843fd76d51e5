# UNFS2GO, a model and its proofs

UNFS2GO serves a Go file tree over NFS version 3 (RFC 1813). C code inherited from unfs3 decodes
calls and encodes replies; exported Go functions do the work. This project models the path an NFS
handle takes through both halves: handle bytes, the id in them, the path that id stands for in the
table `fdCache`, the object at that path, the directory page or file bytes read there, and the XDR
bytes (RFC 4506) that go back.

`dafny verify dfyconfig.toml` checks everything.

## How it is put together

| part | files |
|---|---|
| bytes, strings, integer layouts | `Bytes.dfy` |
| `path.Clean` and its rules, prefixes, component lists | `Paths.dfy`, `CleanRules.dfy` |
| the handle table: value, object, interleavings | `HandleTable.dfy`, `FdCache.dfy`, `TableRuns.dfy`, `CStringRuns.dfy` |
| the back end's tree, and the Go functions over tree and table | `Namespace.dfy`, `Server.dfy`, `LostHandles.dfy`, `Status.dfy`, `GoServer.dfy` |
| `cat_name` | `CatName.dfy` |
| file handles, and those that lead nowhere | `FileHandle.dfy`, `StaleHandles.dfy` |
| XDR: types and values, the mutable stream, the protocol's own types, the bytes on the wire | `Xdr.dfy`, `XdrStream.dfy`, `NfsTypes.dfy`, `WireBytes.dfy` |
| READDIR: buffers, the Go loop, the reply, a paging client | `Memory.dfy`, `Readdir.dfy`, `ReaddirReply.dfy`, `ReaddirClient.dfy` |
| result structs with overlaid unions; attributes; LOOKUP, CREATE, RENAME; REMOVE, RMDIR, MKDIR; READ | `Results.dfy`, `PathAttributes.dfy`, `Procedures.dfy`, `TreeProcedures.dfy`, `ReadFile.dfy`, `ReadRuns.dfy` |
| the mount list | `MountRuns.dfy`, `Mounts.dfy` |

Code that changes things in place is modelled by classes and methods (`FdCache`, `GoServer`,
`XdrStream`, `StaticResult`, `MountTable`, the byte buffers of READDIR, `cat_name` and handles),
each proved against a function or predicate on values; the main theorems are lemmas about those.
Procedures return, as a ghost result, the trace of `Server` steps they amount to, so the theorems
about runs apply to them. The back end may fail at will; for one that is `reliable`, refusing
nothing without cause, each contract also says exactly when a call succeeds.

The main results:

* **Handles follow objects.** Over every run of lookups, listings, creates, removes and renames, the
  id a path carries keeps resolving to wherever its object is now, until the object is gone
  (`Server.HandlesFollowObjects`, over NFS procedures `Server.HandlesFollowThroughProcedures`), and
  so does the handle a client kept as wire bytes (`FileHandle.KeptHandleFindsObject`).
* **Renaming a subtree is one simultaneous substitution**, for every order in which Go may range over
  the map being changed and whichever inserted keys it visits (`HandleTable.ReplaceIsSubstitution`);
  exactly when that loop ends under every order is `HandleTable.RenameEndsExactly`.
* **READDIR's hand-built buffers are the list they should be**, byte by byte, and what is encoded by
  following the pointers is the encoding of the page (`Readdir.GoReaddirFull`, `Memory.LaidIsList`,
  `ReaddirReply.NfsReaddir`); the reply is within the requested count exactly when that is at least
  104 (`ReaddirReply.ReplyWithinCount`); a client that pages to eof gets the names of the directory's
  children, each once, exactly when every name leaves room for 137 bytes in the count, or in 4096,
  so always with a count of 4096 (`ReaddirClient.ListDirectory`).
* **Every message round-trips** and no encoding runs into what follows it (`Xdr.RoundTrip`,
  `NfsTypes.CallsAndReplies`), and the stream methods refine that codec (`XdrStreams.XdrStream.Put`,
  `XdrStreams.XdrStream.Get`). The bytes themselves are given in `WireBytes`.
* **`path.Clean` is the only function with the rules its documentation gives** for rooted paths
  (`CleanRules.OnlyClean`).
* **Reading a file to its end** takes the expected number of calls and yields exactly the file,
  unless the back end faults in one of them (`ReadFile.ReadToEnd`); between the calls the file may be
  renamed, or a directory above it (`ReadRuns.ReadAcrossRenames`).
* **The mount list** holds exactly the granted mounts nobody has removed since
  (`MountRuns.ListIsSurvivors` with `Mounts.MountTable.RemoveMount`).

## Where the code does less than its comments or RFC 1813 suggest

The model keeps the code as it is. For each, the condition under which the promise holds is proved.

* Renaming a path without an id stores the map default 0 as its id, and the path cannot be resolved
  again: exactly then (`HandleTable.StuckExactly`, `HandleTable.LookupRoundTrip`,
  `TableRuns.UntrackedRenameSticks`).
* The two maps stay inverse across a rename exactly when the source has an id and, unless it is
  renamed to itself, nothing the rename lands on has one (`HandleTable.ReplaceKeepsInverse`), and across the write step of `GetFD` exactly when
  no other thread issued an id for the path meanwhile (`HandleTable.IssueKeepsInverse`; a race is
  shown in `TableRuns.RaceLeavesTwoIds`). What holds regardless is `TableRuns.EveryInterleaving`.
* Renaming a directory to itself, which a back end may accept as a no-op, makes `ReplacePath` delete and
  insert again every key below it while it ranges over the map. The loop then has runs of every
  length, exactly when some key lies below the path (`HandleTable.RenameEndsExactly`, with an
  instance in `HandleTable.SelfRenameNeedNotEnd`). Runs that do end change nothing that matters
  (`HandleTable.SelfRename`).
* Removing an object leaves its path in the table, so a later object at that path takes the old
  handle over, where RFC 1813 expects a stale handle. A handle never names anything but its object
  exactly until a CREATE, MKDIR or RENAME brings another to the path it leads to
  (`LostHandles.HandleTakenOver`); one that names nothing goes on naming nothing exactly until then
  (`LostHandles.SilentUntil`); an instance is `LostHandles.HandleReused`.
* A malformed handle, or one whose id leads nowhere, is read as the root by every procedure that passes
  on what `fh_decomp` answers without a test, READ and READDIR among them, where RFC 1813 has
  NFS3ERR_BADHANDLE and NFS3ERR_STALE: of the handles that do not mean the root, exactly those
  (`StaleHandles.ServedForRootExactly`). Right after a restart every handle with an id is one
  (`StaleHandles.AfterRestart`). LOOKUP, MKDIR, REMOVE, RMDIR and RENAME answer NFS3ERR_STALE.
* A READDIR cookie of 2^63 or more is negative as a Go int, passes the test for bad cookies and makes
  the first index panic; exactly those cookies do, if the directory could be read
  (`Readdir.GoReaddirFull`).
* CREATE overwrites the status of `cat_name` (unfs3/nfs.c:262-272); for a name that was refused it
  creates whatever path the buffer on the stack spelled (`Procedures.NfsCreate`), which may be any
  (`Procedures.RefusedNameMakes`, with an instance in `Procedures.RefusedNameInstance`).
* A READDIR count below 104 makes the 32-bit budget wrap, and then a reply with attributes is always
  longer than what was asked for (`ReaddirReply.ReplyWithinCount`).
* A name whose charge exceeds the page budget stops paging: the page is empty and eof is false
  (`ReaddirReply.PagingExact`).
* The comment at unfs3/nfs.h:1012-1017 derives 170 entries from the wire size of an entry; with a
  count of at least 104 at most 120 are ever listed, and the limit decides nothing
  (`ReaddirReply.EntryLimitUnused`).
* `fh_length` counts ten bytes for a nine-byte struct, so the tenth byte of a handle is whatever lies
  behind it in memory; handles work for every value of it. An id is passed back as a C `int`; while
  the maps are inverse exactly the ids below 2^31 survive (`FileHandle.HandleSurvivesExactly`), and
  the handle of another may lead to a different path (`FileHandle.HandleAliases`).

## Model

| member | source | states |
|---|---|---|
| HandleTable.ReplaceIsSubstitution | unfs2go_exports.go:512-534 | For every iteration order, and whether or not inserted keys are visited, renaming a directory sends each path at or below the old one to its image below the new one in the forward map and leaves paths outside both subtrees alone; an id above 100 follows its path if that was moved and otherwise leads where it did. |
| HandleTable.ReplaceFileIsSubstitution | unfs2go_exports.go:512-519 | Renaming a plain file changes that one path in both maps and nothing else. |
| HandleTable.SelfRename | unfs2go_exports.go:512-534 | If renaming a path to itself ends, no path but that one changes its entry and every id above 100 leads where it did. |
| HandleTable.RenameEndsExactly | unfs2go_exports.go:520-532 | For the renames a back end accepts, of unrelated paths or of a path to itself, the loop ends under every iteration order exactly unless it is the latter and a key lies below the path. |
| HandleTable.UnrelatedRunEnds | unfs2go_exports.go:520-532 | For unrelated paths no run visits more than twice as many keys as the map had. |
| HandleTable.SelfRenameRunsOn | unfs2go_exports.go:523-530 | Renaming a path to itself with a key below it has iteration runs of every length. |
| HandleTable.SelfRenameNeedNotEnd | unfs2go_exports.go:512-534 | With /a and /a/b looked up, renaming /a to itself need not end. |
| HandleTable.RunKeeps | unfs2go_exports.go:520-532 | After any number of iterations of the rename loop, for any two paths, an id above 100 in the forward map still maps back to its path. |
| HandleTable.ReplacedKeeps | unfs2go_exports.go:512-534 | Every outcome of ReplacePath, overwriting and untracked renames included, keeps both table invariants and issues no id. |
| HandleTable.AgreeInjective | unfs2go_exports.go:491-496 | Under the invariant no two paths share an id above 100. |
| HandleTable.StuckExactly | unfs2go_exports.go:514-518 | In a table without an id 0, a rename of unrelated paths, or of a path to itself, puts one there exactly when its source path had no id. |
| HandleTable.LookupRoundTrip | unfs2go_exports.go:498-510 | GetPath of GetFD of a path is that path exactly when the path is not stuck at id 0. |
| HandleTable.IssueKeepsInverse | unfs2go_exports.go:543-549 | The write step of GetFD leaves the two maps inverse exactly when the path has no id yet at that moment. |
| HandleTable.ReplaceKeepsInverse | unfs2go_exports.go:512-534 | A rename of unrelated paths, or of a path to itself, leaves the two maps inverse exactly when the source has an id and, unless it is to itself, no path it moves onto has one. |
| FdCaches.FdCache.constructor | unfs2go_exports.go:24-30 | A fresh table is empty, with both maps inverse. |
| FdCaches.FdCache.GetPath | unfs2go_exports.go:498-510 | The path an id leads to; an error below 100 and for unknown ids. |
| FdCaches.FdCache.GetFD | unfs2go_exports.go:536-550 | Alone on the table, the id the path already has, or a new one greater than every earlier one, entered in both maps. |
| FdCaches.FdCache.ReplacePath | unfs2go_exports.go:512-534 | For any two paths, keeps the invariant and yields one of the outcomes of ranging over the changing map. |
| FdCaches.FdCache.RangeOver | unfs2go_exports.go:520-532 | For any two paths, every run that ends: all keys there at the start are produced, of those inserted meanwhile any finite number. |
| TableRuns.EveryInterleaving | unfs2go_exports.go:498-550 | With any number of threads interleaving the two steps of GetFD with GetPath and ReplacePath: a path's id above 100 maps back to it, every nonzero id was handed out and is in (100, FDcounter], and ids were handed out in increasing order. |
| TableRuns.FreshIds | unfs2go_exports.go:543-547 | Of two ids handed out in one run the later is greater, so none is reused. |
| TableRuns.TrackedRenames | unfs2go_exports.go:498-550 | If every rename's source has an id, then in every reachable state looking a path up and resolving the id gives the path back. |
| TableRuns.UntrackedRenameSticks | unfs2go_exports.go:514-518 | One rename of any path never looked up makes that fail for its new name. |
| TableRuns.RaceLeavesTwoIds | unfs2go_exports.go:536-550 | Two threads that both miss a path leave two ids leading to it, one of them current. |
| Paths.CleanIsCanonical | unfs2go_exports.go:197 | Cleaning a rooted path always gives a canonical path, and canonical paths are exactly its fixed points. |
| Paths.CleanMiddle | unfs2go_exports.go:197 | Repeated slashes count as one and "." as nothing, anywhere in a rooted path. |
| Paths.CleanEnd | unfs2go_exports.go:197 | A trailing slash changes nothing, nor does a "." after one. |
| Paths.CleanParent | unfs2go_exports.go:197 | ".." takes away the component in front of it, and at the root nothing. |
| CleanRules.CleanKeepsRules | unfs2go_exports.go:197 | Cleaning keeps all of these rules and leaves paths alone to which none applies. |
| CleanRules.OnlyClean | unfs2go_exports.go:197 | Any function that keeps them agrees with it on every rooted path. |
| Paths.ExtraSlash | unfs2go_exports.go:256-257 | The extra slash put in front of a path changes nothing after cleaning. |
| Paths.RenderInjective | unfs2go_exports.go:197 | Two canonical paths are equal only if they have the same components. |
| Paths.CleanJoined | unfs2go_exports.go:122 | Directory, slash and name, cleaned, is the directory's components with the name applied to them. |
| Paths.PrefixIsDescent | unfs2go_exports.go:521-524 | On canonical paths the textual prefix test holds exactly for strict descendants by components, and for nothing when the directory is the root. |
| Paths.ImageOfDescendant | unfs2go_exports.go:527 | The textual replacement on a descendant swaps exactly the leading components. |
| Paths.ReplaceIsImage | unfs2go_exports.go:527 | Replacing the first instance replaces the leading prefix, and the result lies below the new path. |
| Paths.UnrelatedSubtrees | unfs2go_exports.go:520-532 | Nothing lies at or below both of two unrelated paths. |
| Namespace.MovedKeeps | unfs2go_exports.go:268 | A successful move leaves a tree: canonical paths, one path per object, only directories with something below them. |
| Namespace.ListingExists | unfs2go_exports.go:84 | Every directory has a listing of its children's names, once each. |
| Server.EveryRun | unfs2go_exports.go:195-418 | In every state of every run of the exported calls, each key of the table is a canonical absolute path, the tree is a tree, and the table invariant holds. |
| Server.HandlesFollowObjects | unfs2go_exports.go:255-280 | Over every run: once an object's path carries id d above 100, at every later moment d resolves to wherever the object is and is the id of that path, and d names that object exactly as long as it exists. |
| Server.HandlesFollowThroughProcedures | unfs3/nfs.c:249-418 | The same over any sequence of procedures, each of them several calls, at any moment within a later one; CREATE, MKDIR, REMOVE, RMDIR and RENAME, which change the tree, and LOOKUP, READ and READDIR are shown to be such calls. |
| LostHandles.HandleTakenOver | unfs2go_exports.go:255-418 | Over every run, from when an object carries the id: the id never names anything else exactly when no call creates an object at the path the id leads to, or brings one there by a rename. |
| LostHandles.NamesNext | unfs2go_exports.go:255-418 | After any call an id names the object the call brought to its path, if it did, and otherwise what it named before or nothing. |
| LostHandles.ComesBack | unfs2go_exports.go:255-418 | An id that names nothing names something after a call exactly if the call is a creation at its path, or a rename that brings something there; never a LOOKUP, READDIR, REMOVE or RMDIR. |
| LostHandles.SilentUntil | unfs2go_exports.go:255-418 | Over a run, an id that names nothing goes on naming nothing exactly until such a call. |
| LostHandles.AtTheEnd | unfs2go_exports.go:255-406 | The call that ends an object leaves its id leading to its path; the id then names the new file of CREATE, or what a rename brought there, and nothing after a removal. |
| LostHandles.LeadsTo | unfs2go_exports.go:255-418 | Where an id leads changes only by a rename of its path or of a directory above it, live or not. |
| LostHandles.HandleReused | unfs2go_exports.go:296-379 | After REMOVE and CREATE of one name the old handle names the new file. |
| Server.HandlesTellObjectsApart | unfs2go_exports.go:491-550 | In no state of any run do two paths share an id above 100. |
| Server.StepFollows | unfs2go_exports.go:254-418 | No single call, whether it succeeds or fails, takes a live object's id away from it. |
| Server.TrackAllKeeps | unfs2go_exports.go:104-126 | A listing gives every listed path an id, changes none already given, and keeps the invariants. |
| Status.ErrTranslator | unfs2go_exports.go:173-193 | Success is translated only from no error, and the I/O error is sent exactly for errors not recognised. |
| Status.ContainsExactly | unfs2go_exports.go:187 | A string contains another exactly when it occurs at some position. |
| Status.NotEmptyRecognised | unfs2go_exports.go:186-189 | "directory not empty" is sent as status 66. |
| GoServers.GoServer.GoLstat | unfs2go_exports.go:196-207 | On success the path exists and the number reported is its id in the table; on failure nothing changes; over a reliable back end the status is 0 for a path that exists and 2 for any other. |
| GoServers.GoServer.GoRename | unfs2go_exports.go:255-280 | One step of the server: tree and table move together, or, on any error, neither changes; over a reliable back end it succeeds exactly where a move is possible. |
| GoServers.GoServer.GoCreate | unfs2go_exports.go:296-314 | On success a new plain file exists at the cleaned path, exactly where there is room for one if the back end is reliable; the table is untouched. |
| GoServers.GoServer.GoCreateOver | unfs2go_exports.go:317-352 | On success a new file has replaced a plain file or nothing, never a directory, and no other path changed; over a reliable back end it succeeds exactly then. |
| GoServers.GoServer.GoRemove | unfs2go_exports.go:355-379 | Removes exactly a plain file, or fails and changes nothing; over a reliable back end with 2 for a missing path and 21 for a directory. |
| GoServers.GoServer.GoRmdir | unfs2go_exports.go:382-406 | Removes exactly an empty directory, or fails and changes nothing; over a reliable back end with 2 for a missing path, 20 for a file and 66 for a directory in use. |
| GoServers.GoServer.GoMkdir | unfs2go_exports.go:409-418 | Makes the directory exactly when it reports success. |
| NameJoining.CatName | unfs3/nfs.c:12-35 | The status, in numbers, for every input; on success the joined path and its NUL lie within the 1024-byte buffer, on failure the buffer is untouched. |
| NameJoining.ListedNameAccepted | unfs3/nfs.c:22-26 | The name of anything in a directory is accepted whenever path and name take at most 1022 bytes. |
| NameJoining.JoinedMeans | unfs3/nfs.c:28-34 | Joined and cleaned, "." is the directory, ".." its parent (the root its own), any other name the child. |
| NameJoining.LookupAgreesWithListing | unfs3/nfs.c:104-113 | For a name in a directory listed earlier in a run, with any calls but renames since, LOOKUP arrives at READDIR's key, finds it in the table and reports the id READDIR put in the entry. |
| Server.IdStaysOver | unfs2go_exports.go:195-418 | A path keeps its id for as long as no call is a rename. |
| FileHandle.FhComp | unfs3/fh.c:60-67 | The ten bytes sent for an id: the id little-endian, length 1, and the byte that was already there. |
| FileHandle.FhCompPost | unfs3/fh.c:72-88 | The optional handle of a reply is present and carries those ten bytes. |
| FileHandle.Decompose | unfs3/fh.c:45-57 | Refuses invalid handles, takes length 0 for the root and otherwise asks the table. |
| FileHandle.HandleRoundTrip | unfs3/fh.c:17-67 | A handle for an id between 100 and 2^31, sent and received with anything behind it, is valid and leads where the id leads, whatever its tenth byte. |
| FileHandle.HandleLeadsTo | unfs3/fh.c:45-67 | In any good state the handle of a path's id leads to the path, for ids between 100 and 2^31. |
| FileHandle.HandleSurvivesExactly | unfs3/fh.c:56 | For every 64-bit id that leads somewhere, its handle leads where the id left of it as a C int does: to its own path, while the maps are inverse, exactly below 2^31. |
| FileHandle.HandleAliases | unfs3/fh.c:56 | The handle of id 2^32 + 150 leads to the path of id 150. |
| FileHandle.RootHandles | unfs3/fh.c:17-54 | Nine bytes with a zero length byte always mean the root, and valid handles with a zero length are nine bytes long. |
| FileHandle.KeptHandleFindsObject | unfs3/fh.c:45-57 | A handle given out in one state of a run and presented in any later one is decoded to the path its object has then. |
| StaleHandles.ServedExactly | unfs3/fh.c:45-57 | The path the Go side works on is the one the handle leads to, and the root for a handle that leads nowhere. |
| StaleHandles.ServedForRootExactly | unfs3/fh.c:45-57 | Of the handles that do not mean the root, exactly those malformed or with an id that leads nowhere are served for it. |
| StaleHandles.ServedInEveryRun | unfs3/fh.c:45-57 | That holds in every state of every run of calls that come from C. |
| StaleHandles.AfterRestart | unfs2go_exports.go:24-30 | With a fresh table every handle with an id is served for the root. |
| CStringRuns.TraceNulFree | unfs2go_exports.go:160-170 | Over runs of calls with C strings no path in the table has a NUL in it, so C sees all of every path handed back. |
| Xdr.RoundTrip | unfs3/xdr.c:341-555 | Decoding the encoding of any value of any type, followed by any bytes, gives the value and exactly those bytes. |
| Xdr.ListRoundTrip | unfs3/xdr.c:1308-1332 | The same for pointer-linked lists of any length. |
| Xdr.AllRoundTrip | unfs3/xdr.c:29-39 | The same for counted arrays, such as the authentication flavours of a mount. |
| Xdr.PrefixFree | unfs3/xdr.c:341-555 | Two encodings of one type, each followed by something, agree only if the values and the rests do. |
| Xdr.Decode | unfs3/xdr.c:1308-1332 | Terminates on every byte string, and yields only values of the type, with no more bytes left than there were. |
| Xdr.DecodeConsumes | unfs3/xdr.c:341-555 | Decoding any bytes consumes whole four-byte units from the front and nothing else. |
| Xdr.FourByteUnits | unfs3/xdr.c:341-555 | Every encoding is a multiple of four bytes long. |
| Xdr.FixedWidth | unfs3/xdr.c:341-370 | A type without strings, lists or choices always takes its computed width. |
| WireBytes.NumberBytes | unfs3/xdr.c:144-207 | The bytes of every number: four or eight, highest first, in two's complement. |
| WireBytes.StringBytes | unfs3/xdr.c:209-330 | A string is its length, its bytes and zeros up to a multiple of four; a fixed opaque is without the length. |
| WireBytes.ListBytes | unfs3/xdr.c:1308-1332 | A node is a TRUE, its element and the rest; the end is a FALSE. |
| WireBytes.ReplyBytes | unfs3/xdr.c:679-694 | A reply starts with the four bytes of its status, and resok follows exactly after success. |
| WireBytes.OptionalBytes | unfs3/xdr.c:372-387 | An optional value is a TRUE and the value, or a FALSE. |
| WireBytes.FileidBytes | unfs3/xdr.c:341-370 | The id among the attributes is the 64-bit number at byte 56, the type at 4 and the size at 24. |
| WireBytes.EntryBytes | unfs3/xdr.c:1308-1321 | An entry of READDIR is its id, its name and its cookie. |
| WireBytes.PageBytes | unfs3/xdr.c:1323-1343 | A page is the attributes, eight zeros, the entries and eof. |
| WireBytes.ReadBytes | unfs3/xdr.c:789-802 | A successful READ is the attributes, the count, eof and the bytes. |
| WireBytes.LookupBytes | unfs3/xdr.c:661-694 | A successful LOOKUP is the handle, the object's attributes and the directory's. |
| WireBytes.NewObjectBytes | unfs3/xdr.c:925-958 | A successful CREATE or MKDIR is the optional handle, the attributes, and the directory's before and after. |
| WireBytes.RenameBytes | unfs3/xdr.c:1216-1249 | RENAME answers the old directory before and after and then the new one, whatever the status. |
| WireBytes.MountBytes | unfs3/xdr.c:29-54 | A granted mount is the ten bytes of the handle and one flavour, 1; a refused one its status alone. |
| WireBytes.NamedCallBytes | unfs3/xdr.c:557-564 | LOOKUP, REMOVE and RMDIR take a handle and a name, RENAME two of each. |
| WireBytes.ReadCallBytes | unfs3/xdr.c:778-787 | READ takes a handle, a 64-bit offset and a 32-bit count. |
| WireBytes.ReaddirCallBytes | unfs3/xdr.c:1295-1306 | READDIR takes a handle, a cookie, eight bytes of verifier and a count. |
| WireBytes.CreateCallBytes | unfs3/xdr.c:896-923 | CREATE takes a handle and a name, the mode, and attributes or, if exclusive, a verifier. |
| XdrStreams.XdrStream.PutUint64 | unfs3/xdr.c:155-166 | Eight shifts into a buffer append the big-endian number. |
| XdrStreams.XdrStream.PutNumber | unfs3/xdr.c:300-305 | Appends the four bytes of a 32-bit number, highest first and in two's complement. |
| XdrStreams.XdrStream.GetUint64 | unfs3/xdr.c:167-175 | Two halves, each from network order, are the number that was encoded. |
| XdrStreams.XdrStream.Put | unfs3/xdr.c:341-1652 | Encoding succeeds exactly on values of the type and appends exactly their encoding, whose bytes WireBytes gives. |
| XdrStreams.XdrStream.Get | unfs3/xdr.c:341-1652 | Decoding returns and consumes exactly what the pure decoder does on the bytes that remain, failures included. |
| XdrStreams.XdrStream.PutList | unfs3/xdr.c:1308-1332 | Following the next pointers appends the encoding of the list. |
| XdrStreams.XdrStream.GetList | unfs3/xdr.c:70-126 | Reads a list of any length, with the bytes that remain as its measure. |
| NfsTypes.CallsAndReplies | unfs3/xdr.c:557-1652 | The arguments and the results of every procedure, unions and lists included, round-trip before any bytes and are multiples of four. |
| NfsTypes.MountMessages | unfs3/xdr.c:29-126 | The same for the mount list, groups, exports and the reply to MNT. |
| NfsTypes.OptionalTyped | unfs3/xdr.c:372-387 | An optional value is absent, or present and of its type; no other discriminant is accepted. |
| NfsTypes.FailedReply | unfs3/xdr.c:679-694 | A failed reply is the status and then the failure part, for every status but success. |
| NfsTypes.PostOpAttrLength | unfs3/xdr.c:341-387 | Optional attributes take 88 bytes when present and 4 when not. |
| Memory.LaidIsList | unfs3/nfs.h:749-755 | Buffers with the listed slots filled in, walked from the head by the next pointers as C does, are exactly those entries, and end. |
| Memory.LaidBytes | unfs3/nfs.h:749-755 | Byte by byte: fileid, name pointer, cookie and next pointer of each slot, little-endian, and its name with a NUL. |
| Bytes.LittleEndianBytes | unfs2go_exports.go:126 | The eight bytes of such a number, lowest first. |
| Memory.AddedIsLaid | unfs2go_exports.go:113-153 | The stores of one iteration, back-patched pointer included, extend the list by the new entry and disturb none before it. |
| Memory.FourStores | unfs2go_exports.go:125-153 | Words stored one behind the other are all there in the end. |
| Readdir.AddEntry | unfs2go_exports.go:113-153 | The moving indexes of one iteration write slot k of both buffers and the next pointer of the entry before, and nothing else. |
| Readdir.FillPage | unfs2go_exports.go:98-156 | Ends with a page laid out as a list, every listed path tracked, and 0 exactly at the end of the directory; the page holds at least k entries exactly when their names and 33 bytes for each fit the budget. |
| Readdir.PageReaches | unfs2go_exports.go:104-111 | A page reaches k entries exactly when the sum of their name lengths and 33 for each is within the budget. |
| ReaddirReply.PageInNumbers | unfs3/nfs.c:443-451 | For a count of at least 104: exactly when that sum is at most the smaller of count and 4096, less 104. |
| ReaddirReply.FitsInNumbers | unfs2go_exports.go:107 | A name fits a page by itself exactly when it leaves 137 bytes of the smaller of count and 4096. |
| Readdir.GoReaddirFull | unfs2go_exports.go:54-157 | For every 64-bit cookie and 32-bit count: writes only inside the two buffers; panics exactly for cookies of 2^63 and more in a readable directory; on an error or another cookie past the end leaves an empty list and the table alone; otherwise the entries start+1 to start+k, with the ids the table holds. |
| ReaddirReply.PageIsGreedy | unfs2go_exports.go:104-111 | A page's charges fit the budget, and the next name's would not unless the page is full or the directory ends. |
| ReaddirReply.ChargedEnough | unfs2go_exports.go:106-107 | What entries take on the wire, padding included, is at most what they were charged, with six bytes each to spare. |
| ReaddirReply.ResokLength | unfs3/nfs.h:1019-1025 | The whole reply is its entries plus 104 bytes with attributes, 20 without. |
| ReaddirReply.ReplyWithinCount | unfs3/nfs.c:443-451 | The encoded reply is at most the smaller of count and 4096 for every count of at least 104; with attributes it is within the count exactly then. |
| ReaddirReply.EntryLimitUnused | unfs3/nfs.h:1012-1017 | From count 104 on no page has more than 120 entries, and any larger limit than 170 gives the same page. |
| ReaddirReply.PagingExact | unfs2go_exports.go:93-111 | Resuming from each page's last cookie collects the rest of the directory, each name once and in order, exactly when every name fits a page by itself. |
| ReaddirReply.PutEntries | unfs3/xdr.c:1308-1321 | Encoding by following the pointers in the buffers appends the encoding of the list they form. |
| ReaddirReply.PutReply | unfs3/xdr.c:1352-1367 | Read back from the result struct, a success sends attributes, verifier, the list behind its pointer and eof, and a failure sends the attributes through the overlaid part. |
| ReaddirReply.PageListsChildren | unfs2go_exports.go:122-126 | Every entry of a page is a child of the directory, with the id of its path. |
| ReaddirReply.ListPage | unfs3/nfs.c:443-459 | The budget wraps as 32 bits do, and eof is set exactly at the end of the directory. |
| ReaddirReply.NfsReaddir | unfs3/nfs.c:432-475 | From handle to wire: a listing of the directory the handle is served for and a stat of it, and the stream gains exactly the encoding of the page for the cookie and budget, or of the failure, with the directory's attributes read afterwards; no reply exactly when Go panics; over a reliable back end success exactly for a directory and a cookie within it. |
| ReaddirClient.PageSeen | unfs2go_exports.go:143 | To the client a page is a stretch of the listing, and its last cookie the position after it. |
| ReaddirClient.Page | unfs3/nfs.c:432-475 | One call, encoded and decoded again, yields that stretch, that cookie, and eof exactly at the end. |
| ReaddirClient.ListDirectory | unfs3/nfs.c:451-466 | A client paging from cookie 0 terminates with the names of the children of the handle's directory, each once, exactly when every name leaves 137 bytes of the smaller of count and 4096; so always at count 4096. |
| Results.ShapesMatch | unfs3/nfs.h:318-954 | For all twelve procedures that rely on the overlay, resfail overlays resok's first members and the members sent, in wire order, have the procedure's reply type. |
| Results.FailureSendsAttributes | unfs3/nfs.c:120-121 | Attributes stored through the first member of resok are what a failed reply sends, whatever an earlier call left there. |
| Results.FailureOnTheWire | unfs3/nfs.c:213-214 | For each of the eleven procedures with one directory or file in the failure part: what a failure sends is a reply of that procedure, the status followed by the encoding of the attributes just stored. |
| Results.FailureSendsBoth | unfs3/nfs.c:411-415 | The same for RENAME's two directories. |
| Results.SuccessSendsThree | unfs3/nfs.c:106-121 | Where the first member in memory is the last on the wire, a success sends all three as stored. |
| Results.StaticResult.Send | unfs3/xdr.c:661-694 | Sending the struct appends the encoding of the status and of the part that it selects. |
| PathAttributes.GetPost | unfs3/attr.c:20-28 | A stat of the path: attributes are present only for a path that exists and carry its id; over a reliable back end exactly for those. |
| PathAttributes.GetPre | unfs3/attr.c:55-74 | A stat of the path: the part is well-typed, and over a reliable back end present exactly for a path that exists. |
| Procedures.StatName | unfs3/nfs.c:104-108 | The status of the join if that fails, and nothing changes; otherwise a stat of the joined path, with its id on success. |
| Procedures.NfsLookup | unfs3/nfs.c:96-123 | Two stats, of the object and the directory; success answers a handle that leads to the joined path and attributes for its id, failure the status and the directory's attributes just read; over a reliable back end an accepted name succeeds exactly if its path exists, and otherwise answers 2. |
| Procedures.RenameNames | unfs3/nfs.c:393-407 | The first refusal decides and nothing changes; success moves the object in the tree and its ids in the table, between the two cleaned paths. |
| Procedures.NfsRename | unfs3/nfs.c:379-418 | Five steps of the server, with both handles taken apart where the code does; tree and table move exactly on success, and either way the reply carries both directories' attributes. |
| Procedures.NfsCreate | unfs3/nfs.c:249-285 | Four steps of the server, for refused names too; success answers a handle that leads to the new file and attributes for its id, every failure, late ones too, the directory's attributes; a guarded CREATE leaves an existing object alone. |
| Procedures.RefusedNameMakes | unfs3/nfs.c:262-272 | For a refused name the path that is created is whatever the buffer spelled, and that may be any. |
| Procedures.RefusedNameInstance | unfs3/nfs.c:262-272 | CREATE of "a/b" in the root, with "/x" in the buffer, is for a vacant /x. |
| TreeProcedures.UnlinkName | unfs3/nfs.c:345-349 | A refused name changes nothing; otherwise exactly a plain file, or exactly an empty directory, is taken away. |
| TreeProcedures.NfsUnlink | unfs3/nfs.c:335-377 | REMOVE and RMDIR: three steps of the server, the object gone exactly on success; success and failure send the directory's attributes. |
| TreeProcedures.FhCompType | unfs3/fh.c:92-103 | The handle follows only for a directory, and carries the id of its path. |
| TreeProcedures.NfsMkdir | unfs3/nfs.c:287-311 | Five steps of the server, the directory made exactly on success; the reply is its handle and attributes, and the parent's, or the parent's alone. |
| ReadFile.GoPread | unfs2go_exports.go:453-475 | A count with the bytes there, unless the back end faults or the offset is negative as an int64; then a status negated. |
| ReadFile.FaultExactly | unfs2go_exports.go:463 | An error is a fault exactly unless its text has the letters e, o, f in a row, of either case. |
| ReadFile.EofIsNoFault | unfs2go_exports.go:463 | "EOF" and "unexpected EOF" are none. |
| ReadFile.NfsRead | unfs3/nfs.c:170-216 | Unless the back end faults, success with exactly the bytes of the file at the path the handle is served for, from the offset up to the clamped count or the end, and eof exactly when the end is reached; otherwise the status and the attributes. |
| ReadFile.ReadInto | unfs3/nfs.c:185-204 | The byte read beyond the count decides eof and is not counted. |
| ReadFile.ReadToEnd | unfs3/nfs.c:186-204 | Reading until eof terminates after the expected number of calls and yields the handle's file from the start offset, exactly unless the back end faults in one of them; answering "EOF" on any of them is no fault. |
| ReadRuns.ServesItsFile | unfs3/nfs.c:183-190 | In every state of a run in which a plain file still exists, the handle given out for it is served from that file. |
| ReadRuns.ReadAcrossRenames | unfs3/nfs.c:183-204 | Over every run, reads at any moments while the file exists, as many as it takes and each from where the last one ended, yield the file from the start offset. |
| MountRuns.ListIsSurvivors | unfs3/mount.c:170-204 | After any requests the list is the granted mounts that no later request removes, in the order granted. |
| MountRuns.ListedExactly | unfs3/mount.c:170-204 | A mount is listed exactly when some request granted it and nothing after removed it. |
| Mounts.MountTable.AddMount | unfs3/mount.c:63-71 | Appends one entry; the list stays acyclic and the counter its length. |
| Mounts.MountTable.Unlink | unfs3/mount.c:88-103 | Takes exactly one node out, and the guard before the decrement is never what saves the counter. |
| Mounts.MountTable.RemoveMount | unfs3/mount.c:77-109 | Leaves exactly the entries of other hosts or, given a path, of other paths, in order; list and counter stay consistent. |
| Mounts.MountProc | unfs3/mount.c:118-181 | Statuses in numbers and in order; a success is exactly version 3, an allowed caller, a path below 1024 bytes and an existing directory, leaves a handle that leads there and appends the mount; anything else leaves the list alone. |
| Mounts.UmntProc | unfs3/mount.c:188-195 | Removes the caller's entries for that path. |
| Mounts.UmntAllProc | unfs3/mount.c:197-204 | Removes all of the caller's entries. |
| Mounts.PutMounts | unfs3/xdr.c:70-88 | Following the list's pointers appends the encoding of its contents. |
| Mounts.DumpProc | unfs3/mount.c:183-186 | DUMP's reply decodes to exactly the contents of the list. |

## Left out

- FdCaches.FdCache.RangeOver: as a method it covers the runs that end; which loops always do is `HandleTable.RenameEndsExactly`. That a path is not moved below itself is the back end's contract.
- Procedures.NfsCreate: a buffer without a NUL, as a refused name may leave it on the stack, is taken to end at its end.
- Readdir.GoReaddirFull: counters and directory sizes near 2^63 are excluded; names are slash-free C strings shorter than 1024 bytes; pointers take eight bytes; what a panic does to the process is not modelled.
- ReaddirReply.NfsReaddir: the order in which the back end lists the children is whatever it answers; ReaddirClient.ListDirectory has it answer the same each time, as for an unchanged directory, and, like ReadFile.ReadToEnd, is about a handle whose id is not still to be issued: otherwise what it leads to changes on the way.
- ReadFile.NfsRead: the back end fills the buffer while bytes remain and refuses negative offsets; whether it faults is an input. WRITE and truncation are not modelled, so what a file holds does not change.
- Memory.LaidIsList: the walk is bounded by the 170 slots there are.
- Xdr.Decode: a string with a NUL inside is cut there, as C sees it; padding bytes are not looked at. Allocation, `XDR_FREE` and the RPC layer's own primitives are taken as RFC 4506 describes them.
- Paths.CleanIsCanonical: `path.Clean` is modelled from its documented meaning on rooted paths, the only ones passed to it.
- Results.ShapesMatch: the two halves of `wcc_data` count as one member, stored together.
- The back end itself (unfs2go.go and the file systems behind it) is a contract: operations may fail at will, a success does what `Namespace` says, and one that is reliable also succeeds where `Namespace` has nothing against it (a move may then replace whatever is at its target). Objects have identities never used again.
- SETATTR, ACCESS, WRITE and COMMIT bodies in unfs3/nfs.c: their result structs are in `Results`; they change no path and, but for stating one, no id.
- Replies that are constant (NULL, READLINK, SYMLINK, MKNOD, LINK, READDIRPLUS, FSSTAT, FSINFO, PATHCONF) beyond their types, and the contents of the EXPORT list.
- unfs3/attr.c beyond whether attributes are there and which id they carry; modes, times and the clock are arbitrary.
- The address check of `go_accept_mount` is a parameter of `Mounts.MountProc`, as is the caller's address; log output, memory freed or leaked, and failing allocations are not modelled.
- unfs3/daemon.c: sockets, port registration and dispatch. Servers with 32-bit pointers.
