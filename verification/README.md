# A verified model of cmtp-responder

cmtp-responder is the device side of MTP/PTP: packets arrive over USB, commands run, and a forest of
objects changes. This project models that responder in Dafny and proves what holds over every run of
it, for every packet sequence and every outcome of the file system. `dafny verify dfyconfig.toml`
checks everything.

The model has four layers.

- **The object store.** `ObjectTable` describes the object list as a value: the plain scan for
  children, the child index of each object, the subtree relation, removal. `ObjectStore` holds the
  mutable store with lookup, insertion and recursive deletion, `Leftovers` what a deletion leaves and
  why; `FsEvents` the entries that come and go on the file system; `Agreement` how paths and tree fit
  together; `Rename` the rewriting of paths; `Enumeration` and `Walk` the filling and the listing of a
  store. `LinkedList` and `PtpArray` show, on the heap, that the linked list and the growable array
  behave as the sequences that the other modules use.
- **Codecs.** `Bytes`, `PtpString`, `ObjectInfo`, `PropDesc` and `Containers`.
- **Data phases.** `Reassembly` (incoming packets to the temporary file and back) and `Transmit`
  (outgoing chunks).
- **The command machine.** `ObjectEntry` and `PendingObject` (the object between SendObjectInfo and
  SendObject), `Outcomes`, which says what every command does, `Responder`, the device itself, and `Host`, which
  opens a session, uploads an object, renames one and fetches one from the host's side.

File-system calls, queue sends and the disconnect flag are nondeterministic, and the contents of the disk,
its space and the property table's answers are inputs of every step (`World`), so every theorem covers each of
their outcomes; failures of the disk, of the temporary file and of sends are counted in ghost fields, and what
happens without one is stated exactly. Ghost fields record what happened: the handles ever listed,
in order (`history`), the files removed (`log`), the failures (`faults`), the objects of a deletion that the disk
would not let go (`broken`), the commands executed with their answers (`steps`),
the objects whose handles SendObjectInfo answered (`reported`), those of them that were listed (`landed`), and the
files that SendObject put on the disk (`written`).

The main results:

1. *In every reachable state* (`Responder.Run`, whose invariant is `Device.Valid`): handles are distinct,
   never listed twice and below the counter; each child index equals the scan for its owner, in order; parents have
   smaller handles; only folders have children. The waiting object is not listed, and a reported handle was
   ever listed if and only if its object landed. The responses are the answers to the executed commands, in order,
   each with the id of its command, at most one per command, and none is missing unless a send failed or a dataset
   was unacceptable. Without a session nothing is touched; a session opens only by an OpenSession with transaction
   id 0 that is answered OK, with the id it asks for, and closes only by a CloseSession or PowerDown that is. While
   the device waits for data it holds a valid data-out command.
2. *Recursive deletion* under any mix of failures, filters and disconnects removes objects bottom-up,
   succeeds exactly when it answers OK, and then has removed the whole subtree. Without a disconnect everything
   that is left is left for a reason: it, or something below it, is protected, of a format that the filter keeps,
   or could not be removed from the disk; so a failure never keeps another object from being deleted.
3. *Reassembly* delivers exactly the host's payload for every payload, packet size and buffer, also past
   4 GiB, where the wrapped byte counter can end a transfer early if and only if the packet size is odd.
4. *Renaming* gives the object its new path, moves exactly the subtree of a folder with it, keeps paths and tree
   in agreement exactly when the new path fits under the parent, and never reaches the branches that truncate a path or free an object, the latter in
   every reachable state, whether or not paths and tree agree.
5. *Uploads*: if nothing fails, SendObjectInfo and SendObject with their data phases end in a store that holds
   exactly one object more, the one the host described, in the folder that the command names, with its content at
   its path; the condition for success and for every refusal is exact.
6. *Codecs* write exactly the size they announce and read back what was written; a data container is never taken for
   a command.

Where documentation or expectation and code differ, the model follows the code:

- DeleteObject answers OK for an object that could not be removed, unless permission was the reason
  (`ObjectStore.DeleteHandle` tells the two cases apart).
- Deleting all objects of a format does not count an empty folder that went, and answers with whatever the last
  object met when nothing was counted: it may answer OK although a protected file stays, but then no file was deleted
  (`Outcomes.DeleteAllAnswer`, carried by `Responder.Device.DeleteObject`).
- An empty ObjectInfo dataset passes the parser and makes an object of format 0 (`ObjectInfo.AcceptedAlone`).
- All stores may be asked for the whole list or the top folder only; with a specific parent the store id
  0xFFFFFFFF is answered INVALID_STORE_ID (`Responder.Device.GetObjectHandles`).
- When the times of a file cannot be read, GetObjectInfo sends an empty dataset and answers OK
  (`Responder.Device.GetObjectInfo`).
- A SendObjectInfo dataset longer than the handler's buffer is accepted when its header announces just what
  the buffer holds (`Outcomes.Taken`).
- A folder renamed between SendObjectInfo and SendObject leaves the new object with the old path
  (`PendingObject.RenamedWhileWaiting`, and `PendingObject.LandingPaths` for the exact condition).
- A name with a slash is accepted for a new object and for a rename, and then the path is not one name below
  the parent's (`Agreement.SlashInName`, with the exact conditions in `Agreement.AddedPaths`,
  `ObjectEntry.DescribedAgrees` and `Rename.TargetAgrees`).
- A last data packet that reads as a command is executed instead of the saved command (`Responder.Device.Finish`);
  that takes a payload of several packets whose last one has 12 to 36 bytes and starts like a command of that length
  (`Host.LastReads`, which is exact).

## Model

| member | source | states |
|---|---|---|
| `Host.SendObject` | src/mtp_cmd_handler.c:594-780 | a whole upload to an idle device in session: when neither the temporary file nor the disk fails, neither payload is mistakable, and the dataset is one the store can take and not a folder's, the object that it describes ends as the last of the store, with the next handle, under the parent that the command names by handle and by path, or in the top folder for 0 and 0xFFFFFFFF; it is indexed in its parent, the content lies at its path, and the rest of the list is as it was |
| `Host.Fetch` | src/mtp_cmd_handler.c:404-530 | an object whose content lies at its path, not empty and of the recorded size, is sent back whole with answer OK when nothing fails |
| `Host.Connect` | src/mtp_cmd_handler.c:74-102 | OpenSession with transaction id 0 and a non-zero id opens that session on every idle device that has none, with answer OK |
| `Host.SendWithData` | src/mtp_cmd_handler.c:1178-1551 | a data-out command and its payload in packets: unless the temporary file fails or the payload is mistakable, which one that fits a packet never is, the command is answered at most once and judged on exactly that payload under the host's header, and the session stays |
| `Host.SetName` | src/mtp_cmd_handler.c:532-592 | a rename from the host's side, of the object at dir/base to a plain name: when nothing fails it is answered once, OK exactly when the object can be renamed so; then the object is at dir/name, with its branch where paths agreed, unless only letter case was to change; otherwise nothing changes |
| `Host.LastReads` | src/mtp_cmd_handler.c:1400-1433 | the last packet of a data phase reads as a command if and only if the payload takes several packets and the last has 12 to 36 bytes and starts with its own length and the command type |
| `Host.Send` | src/mtp_cmd_handler.c:1178-1364 | any command without a data-out phase, sent to an idle device, has its outcome |
| `Responder.Run` | src/mtp_cmd_handler.c:1553-1684 | from any valid device, any sequence of packets, resets, cancels and file-system events leaves it valid: all the run invariants listed under result 1; the handle history and the command log only grow |
| `Responder.SendPayload` | src/mtp_cmd_handler.c:1434-1551 | a whole data phase at the device: for every payload and packet size no packet before the last executes anything; the last, which is exactly the host's remainder, executes the saved command, or the command that it reads as; without a failed creation or a short write its file is exactly the payload |
| `Responder.Device.Packet` | src/mtp_cmd_handler.c:1553-1684 | one packet: which command is executed and when, with the complete outcome of that command (Handled); the state stays as it is when no command runs; nothing is touched without a session; the completion test; data is kept and intact unless a fault of the temporary file is counted |
| `Responder.Device.DataPacket` | src/mtp_cmd_handler.c:1434-1551 | a packet of a data phase alone: kept, or the command runs on what is there; the same outcome |
| `Outcomes.HandledMeans` | src/mtp_cmd_handler.c:1178-1392 | what the outcome of any command keeps: the history grows, the session follows from the command, and, said without that function, it opens only by an OpenSession with transaction id 0 answered OK and closes only by a CloseSession or PowerDown answered OK; without a session nothing changes; the waiting object changes by SendObjectInfo, SendObject and PowerDown alone; at most one answer with its own id, and none only when the command is put off, a send failed, or SendObjectInfo got data it could not accept |
| `Outcomes.ExtraIs` | src/mtp_cmd_handler.c:74-102 | a parameter is one too many if and only if one of the first three, from the given one on, was sent and is not 0 |
| `Outcomes.HandlesShown` | src/mtp_cmd_handler_util.c:811-864 | GetObjectHandles reports exactly the objects asked for, each once and in list order: parent 0 means the whole list, 0xFFFFFFFF the top folder, and format 0xFFFFFFFF all but folders, for the whole list only |
| `Outcomes.ServedCloses` | src/mtp_cmd_handler.c:1366-1392 | a command without a data-out phase is answered exactly once, with its own id, unless a send failed |
| `Outcomes.StepAgreement` | src/mtp_cmd_handler.c:1178-1338 | over any command but a rename, paths and tree stay in agreement, except that sending an object keeps it if and only if its path fits under its parent |
| `Responder.Device.Finish` | src/mtp_cmd_handler.c:1400-1433 | the executed command is the last packet if it reads as one, else the saved one; the exit for an invalid command block is never taken |
| `Responder.Device.Process` | src/mtp_cmd_handler.c:1178-1364 | exactly one step is logged and has its outcome; the log stays orderly: the answers given are the answers of the logged commands, each with its id, and no session opens or closes but by a command for it that is answered OK |
| `Responder.Device.Execute` | src/mtp_cmd_handler.c:1186-1338 | the outcome of the command in every phase and session: put off, served or judged; unanswered only for a failed send or unacceptable data |
| `Responder.Device.RunInSession` | src/mtp_cmd_handler.c:1211-1338 | dispatch inside a session, with the outcome of each command |
| `Responder.Device.RunDataOut` | src/mtp_cmd_handler.c:1265-1331 | the data-out commands after their data: the outcome of SendObjectInfo, SendObject and SetObjectPropValue in terms of header and data, and when SendObjectInfo stays unanswered |
| `Responder.Device.OpenSession` | src/mtp_cmd_handler.c:74-102 | a session opens exactly for a non-zero id, transaction id 0 and no open session, and only with answer OK; every answer |
| `Responder.Device.CloseSession` | src/mtp_cmd_handler.c:1076-1097 | answer and session afterwards in every case |
| `Responder.Device.PowerDown` | src/mtp_cmd_handler.c:1001-1015 | answers, then session and waiting object are gone; refused with parameters, changing nothing |
| `Responder.Device.SendData` | src/ptp_container.c:161-171 | a data-in phase answers OK, with the whole container queued in packets of at least one byte and at most a chunk, if and only if no send failed; otherwise the device is not ready and nothing is answered |
| `Responder.Device.GetStorageIds` | src/mtp_cmd_handler.c:198-239 | OK with the packed id of the one store sent out whole exactly when no send failed, else GEN_ERROR; refusal for parameters |
| `Responder.Device.GetStorageInfo` | src/mtp_cmd_handler.c:241-284 | refusals for parameters and for another store; the recorded space becomes what the disk reports; unanswered only after a failed send |
| `Responder.Device.GetObjectInfo` | src/mtp_cmd_handler.c:354-402 | refusals; when the times can be read, the object's dataset, with the last part of its path, goes out with OK exactly when no send failed; when they cannot, an empty one or GEN_ERROR |
| `Responder.Device.GetObjectPropDesc` | src/mtp_cmd_handler.c:104-147 | refusals; a property of the table goes out in its announced size with OK exactly when no send failed, byte for byte for values of at most four bytes |
| `Responder.Device.GetPartialObject` | src/mtp_cmd_handler.c:868-946 | for a listed object and a readable part of its file, that part, at most as long as asked for and never past the recorded end from an offset inside, is sent and announced with OK exactly when no send failed |
| `Responder.Device.GetObject` | src/mtp_cmd_handler.c:404-530 | always answered; a readable non-empty file of the recorded size is answered OK, with header and content queued whole, exactly when no send failed; an empty one INCOMPLETE_TRANSFER |
| `Responder.Device.DeleteObject` | src/mtp_cmd_handler.c:782-833 | each refusal and that it changes nothing; when nothing hinders, OK and the target, or every object, is gone; a bottom-up removal within the target's subtree, or, for all handles, of objects that the format filter admits; without a disconnect every object left there is held by itself or by something below it; OK means gone or not removable from the disk, PARTIAL_DELETION that the target stays, and the list is unchanged for a refusal |
| `Responder.Device.GetObjectHandles` | src/mtp_cmd_handler.c:286-352 | fills an empty store from the disk (exactly Flat unless there is a disconnect, and in agreement in any case), leaves a filled one alone, and sends the packed handles of the wanted objects or of the folder's children, in list order, with OK exactly when no send failed; INVALID_STORE_ID for another store, and for all stores with a specific parent |
| `Responder.Device.SendObjectInfo` | src/mtp_cmd_handler.c:594-723 | answers OK exactly with a new handle, the object the dataset describes, in the folder that the command names, listed at once if a folder, and otherwise waiting with its size taken from the space; unless the disk fails that happens exactly for the header that belongs to the data and a dataset the store can take; any other outcome leaves list and history alone, with the answer of the first thing that stands in the way; unanswered exactly for a wrong header or unreadable data |
| `Responder.Device.TakeInfo` | src/mtp_cmd_handler.c:623-660 | an earlier waiting object is dropped whatever happens; a new one is reported, or nothing is and the answer names the reason; the exact condition for either |
| `Responder.Device.MakeEntry` | src/mtp_cmd_handler_util.c:895-906 | the space is taken anew when an object was waiting; the object is made exactly when the dataset can be taken in that space, unless the disk fails |
| `Responder.Device.SendObject` | src/mtp_cmd_handler.c:725-780 | OK exactly when the object of the latest SendObjectInfo is listed and the content moved to its path; without a failure that is exactly for an accepted header and a waiting object, which is used up; a data phase with the wrong length below 4 GiB is answered GEN_ERROR and changes nothing; STORE_FULL only when the move failed; INVALID_PARAM exactly for parameters |
| `Responder.Device.WriteFile` | src/mtp_cmd_handler_util.c:710-761 | OK if and only if an object was waiting and the disk did not fail; then it is listed, as the last one reported, and the content is at its path; it is used up either way |
| `Responder.Device.SetObjectPropValue` | src/mtp_cmd_handler.c:532-592 | only paths change, only in the branch of the target, and only when the file name is set with answer OK; then the target has its new path, with its branch where paths agreed; without a failure every answer has its exact condition: parameters, header, handle, property table, path, extension, child paths |
| `Responder.Device.RenameTo` | src/mtp_cmd_handler_util.c:1276-1334 | the new name is the string in the payload, whatever follows it in memory; OK means that the object has its new path, or that only letter case was to change; each refusal has its exact condition; the branches that truncate a path or free an object are never reached from any valid device |
| `Responder.Device.Reset` | src/mtp_cmd_handler.c:1635-1644 | idle, no session, objects untouched |
| `Responder.Device.Cancel` | src/mtp_cmd_handler.c:1566-1634 | idle, temporary file closed, objects and answers untouched |
| `Responder.Device.Appeared` | src/mtp_inoti_handler.c:146-226 | a file-system addition keeps the device valid, the waiting object included, and the agreement of paths |
| `Responder.Device.Disappeared` | src/mtp_inoti_handler.c:285-325 | a file-system deletion keeps the device valid, even if the parent of the waiting object goes, and the agreement of paths |
| `PendingObject.LedgerReported` | src/mtp_cmd_handler.c:635-652 | reporting a fresh handle keeps the account of reported and landed objects |
| `PendingObject.LedgerLanded` | src/mtp_cmd_handler.c:754-777 | only the latest reported object can land, and it has not landed before |
| `PendingObject.WaitingPruned` | src/mtp_cmd_handler_util.c:710-761 | a waiting object may still be added after any removal, its parent's included |
| `PendingObject.WaitingAdded` | src/mtp_cmd_handler_util.c:710-761 | ... after any addition |
| `PendingObject.WaitingFilled` | src/mtp_cmd_handler_util.c:710-761 | ... after the store is filled from the disk |
| `Agreement.AddedPaths` | src/entity/mtp_store.c:260-279 | adding any object, folder or not, keeps paths and tree in agreement if and only if its path lies in its parent's present folder |
| `Agreement.PrunedPaths` | src/entity/mtp_store.c:721-732 | any removal keeps the agreement |
| `Agreement.Extends` | src/util/mtp_support.c:470-496 | a name puts a path one below its folder if and only if it has no slash |
| `Agreement.SlashInName` | src/mtp_cmd_handler_util.c:200-214 | a concrete accepted folder name with a slash that ends the agreement |
| `PendingObject.LandingPaths` | src/mtp_cmd_handler_util.c:710-761 | listing the waiting object keeps the agreement if and only if its path lies in its parent's present folder |
| `ObjectEntry.DescribedAgrees` | src/mtp_cmd_handler_util.c:200-214 | within the length limit an object made from a dataset fits under its listed parent if and only if its name has no slash |
| `PendingObject.RenamedWhileWaiting` | src/mtp_cmd_handler_util.c:1276-1330 | a concrete rename between the two commands after which it does not |
| `ObjectEntry.Construct` | src/mtp_cmd_handler_util.c:866-951 | without a failure the answer is the first thing that stands in the way: another store, read-only, no free space, an unframed dataset, an unlisted parent, a parent that is no folder, too large, a path that does not fit; success is exactly that nothing does; the object has a fresh handle, the dataset's format, size and name and lies in the folder that the parameter names, by parent handle and by path; a folder is listed, and keeps the agreement of paths exactly when its path fits; anything else waits and reserves its size; a refusal lists nothing |
| `ObjectEntry.DescribedLies` | src/mtp_cmd_handler_util.c:875-879 | a described object has the named folder as its parent and a path below it: the top folder for 0 and 0xFFFFFFFF, else the listed folder with that handle |
| `ObjectEntry.VerdictOk` | src/mtp_cmd_handler_util.c:866-951 | the chain of refusals ends in OK if and only if the dataset is acceptable |
| `ObjectEntry.PlainDescribes` | src/mtp_cmd_handler_util.c:200-214 | a host that packs a plain name gets an object at folder, slash and that name |
| `ObjectEntry.DigitsValue` | src/mtp_cmd_handler_util.c:179-184 | the handle in the name of an unnamed object is its decimal numeral, without leading zeros |
| `ObjectEntry.PaddedIs` | src/mtp_cmd_handler_util.c:179-184 | ... padded with zeros to four digits |
| `ObjectEntry.PackedDescribes` | src/entity/mtp_object.c:156-229 | for a dataset as a host packs it the object has its format, its size in 32 bits and the path of its name in the parent's folder |
| `ObjectEntry.FindParent` | src/mtp_cmd_handler_util.c:119-142 | OK exactly for the top folder, which 0 and 0xFFFFFFFF mean, or a listed folder, with its handle and path; and which of the two refusals otherwise |
| `ObjectEntry.ParseDataset` | src/mtp_cmd_handler_util.c:926-932 | a dataset is accepted if and only if its strings fill it, and its fields and name are read, whatever follows it in memory |
| `ObjectStore.Lookup` | src/entity/mtp_store.c:281-303 | the first object with the handle, or none is listed |
| `ObjectStore.LookupPath` | src/entity/mtp_store.c:329-354 | the first object with the path, or there is none |
| `ObjectStore.ChildHandles` | src/entity/mtp_store.c:475-504 | the scan for a listed parent, in list order |
| `ObjectStore.AddObject` | src/entity/mtp_store.c:260-279 | the object is last in the list and in its parent's index; the store invariant is kept |
| `ObjectStore.RemoveReference` | src/entity/mtp_object.c:665-672 | exactly the handle leaves exactly the parent's index |
| `ObjectStore.DeleteNode` | src/util/mtp_list.c:57-85 | exactly the object with the handle leaves the list |
| `ObjectStore.RemoveObject` | src/entity/mtp_store.c:537-742 | terminates; true exactly with OK; only descendants go, each after everything below it, and all of them on OK, and none that the format filter or its protection keeps; disk and list agree; what every response and `atleast_one` mean; without a disconnect everything left below is held by a reason of its own or of something below it, or lies in a folder that the filter passes over, and the object itself stays only if it is held |
| `ObjectStore.RemoveChildren` | src/entity/mtp_store.c:595-638 | the loop over the children of a folder: what has gone, in order; after a child that could not go the others have their turn: without a disconnect whatever is left below the folder is left for a reason, and the folder is held if any child stays |
| `ObjectStore.EmptyFolder` | src/entity/mtp_store.c:582-690 | a folder with its children, or, when none is listed, with what it holds on the disk: OK lets the removal go on, and a folder without listed children is removed only after it was emptied; an own failure is ACCESS_DENIED or GEN_ERROR |
| `Leftovers.LeftNext` | src/entity/mtp_store.c:595-638 | the turn of a child keeps the account of reasons for all branches so far, although the list has changed under it |
| `Leftovers.HeldBefore` | src/entity/mtp_store.c:595-638 | what holds an object after others have gone held it before |
| `ObjectStore.DeleteHandle` | src/entity/mtp_store.c:803-840 | PARTIAL_DELETION: the target is still listed and something went, or there was a disconnect; protected, denied or read-only: the list is unchanged; OK exactly for the removal's OK or GEN_ERROR, gone exactly for its OK, and GEN_ERROR only when the target itself could not be removed; without a disconnect everything left in the branch is held; everything goes when nothing hinders |
| `ObjectStore.DeleteAll` | src/entity/mtp_store.c:744-802 | the walk over a list that changes under it stays on it; a bottom-up removal of objects that the format filter admits; without a disconnect every object that stays is held by itself or by something below it, whatever failed before it; what each answer means; an unhindered one empties the store |
| `ObjectStore.DeleteChildren` | src/mtp_inoti_handler.c:253-283 | everything below the handle leaves the list, bottom-up, and nothing else |
| `ObjectTable.ScanMembers` | src/entity/mtp_store.c:475-504 | the scan finds exactly the listed children |
| `ObjectTable.ScanPrune` | src/entity/mtp_store.c:721-732 | the scan after a removal is the old scan without the removed handles |
| `ObjectTable.PruneInv` | src/entity/mtp_store.c:721-732 | any removal from list and indexes keeps the invariant |
| `ObjectTable.AddInv` | src/entity/mtp_store.c:260-279 | appending and indexing a never-listed handle under a folder, the root or a vanished parent keeps the invariant |
| `ObjectTable.UnlinkIsPrune` | src/mtp_inoti_handler.c:285-325 | unlinking from the parent's index and dropping a subtree removes it from every index |
| `ObjectTable.WholeSubtree` | src/entity/mtp_store.c:595-638 | a bottom-up removal of all children is a removal of all descendants |
| `FsEvents.ObjectAdded` | src/mtp_inoti_handler.c:146-226 | an object is added if and only if its path lies in the store and is not too long, the name is neither hidden nor temporary, the entry is a file or a folder, and its directory is the root or listed; it gets the next handle under that parent, the path of directory and name, and kind and size of the entry; invariant and agreement are kept |
| `FsEvents.ObjectDeleted` | src/mtp_inoti_handler.c:285-325 | exactly the first object at the path goes, a folder with its whole subtree; ignored names and paths change nothing; invariant and agreement are kept |
| `Rename.RenameObject` | src/mtp_cmd_handler_util.c:1276-1334 | each error has its reason and changes nothing; without an open file or a failed move each answer has its exact condition; success gives the object its new path, whatever the paths are, unless only letter case was to change; only the branch changes; no path is truncated and no object freed; with agreeing paths, success moves exactly the branch, and they agree afterwards if and only if the new path fits under the parent |
| `Rename.TargetIs` | src/mtp_cmd_handler_util.c:1283-1290 | the new path is the folder of the old one, a slash and the new name; it is accepted exactly within the limits and below the root |
| `Rename.TargetAgrees` | src/mtp_cmd_handler_util.c:1276-1290 | within the length limit the new path fits under the listed parent if and only if the name has no slash |
| `Rename.SetChildPaths` | src/entity/mtp_object.c:539-611 | the branch that truncates and frees is reached if and only if some path that the rewriting meets does not clear, whatever the paths are; with consistent paths exactly the old prefix of every path below the folder is replaced, at every depth |
| `Rename.CheckChildPaths` | src/entity/mtp_object.c:440-537 | unless a file is open, acceptance is exactly Passes, and then the rewriting clears, whatever the paths are; with consistent paths acceptance means that every path below fits before and after, and refusal that a path nears the limit |
| `Rename.PassesClears` | src/entity/mtp_object.c:440-611 | what the check accepts, the rewriting never fails on, at any depth and for any paths |
| `Rename.CheckMeaning` | src/entity/mtp_object.c:440-537 | on consistent paths the check accepts only what fits and refuses only near the limit |
| `Rename.ClearsSame` | src/entity/mtp_object.c:539-611 | rewriting elsewhere does not change whether a branch clears |
| `Rename.MoveKeepsPaths` | src/mtp_cmd_handler_util.c:1306-1325 | after moving a whole branch every child path is one name below its parent's if and only if the top's is |
| `Rename.PlacesInv` | src/entity/mtp_object.c:423-437 | changing paths alone keeps the store invariant |
| `Rename.OneBranch` | src/entity/mtp_object.c:539-611 | two children of a folder share no descendant, so no path is rewritten twice |
| `Enumeration.Enumerate` | src/entity/mtp_store.c:927-999 | the list grows only at its end; unless there is a disconnect, by exactly the pre-order listing with consecutive handles, whatever entries or folders cannot be read; agreement of paths is kept in any case |
| `Enumeration.FillEmptyStore` | src/mtp_cmd_handler_util.c:817-824 | the listing, its agreement with the disk in paths, kinds and sizes, distinct paths, and a walk from the root that reaches each object once |
| `Enumeration.FlatHandles` | src/entity/mtp_store.c:960-990 | the k-th object has the k-th handle |
| `Enumeration.FlatShows` | src/entity/mtp_store.c:927-999 | a path is listed if and only if it and all folders above it are visible and readable |
| `Enumeration.FlatNoDots` | src/entity/mtp_store.c:960-968 | below the top folder no listed path has a part that is empty or starts with a dot, nor is it too long |
| `Enumeration.EntryShown` | src/entity/mtp_store.c:960-990 | every readable entry with a plain name within the limits is listed, and with a folder whatever its own listing shows |
| `Enumeration.FlatHangs` | src/entity/mtp_store.c:960-990 | every object hangs from the folder it lies in, by handle and by path |
| `Enumeration.FlatDistinct` | src/entity/mtp_store.c:927-999 | distinct names give distinct paths |
| `Walk.ChildrenOfFormat` | src/entity/mtp_store.c:506-535 | the filtered scan |
| `Walk.ScanFormatMembers` | src/entity/mtp_store.c:506-535 | it holds exactly the children of the format, each once |
| `Walk.ObjectsOfFormat` | src/entity/mtp_store.c:443-473 | the wanted handles in list order |
| `Walk.ByFormatMembers` | src/entity/mtp_store.c:443-473 | each wanted object is among them once and no other |
| `Walk.TillDepth` | src/entity/mtp_store.c:394-441 | the recursive walk appends the listing to the given depth |
| `Walk.ListingMembers` | src/entity/mtp_store.c:394-441 | a deep enough listing holds the handle and exactly its descendants |
| `Walk.ListingNoDup` | src/entity/mtp_store.c:394-441 | ... each once |
| `Walk.FullListing` | src/entity/mtp_store.c:394-441 | from the root of a rooted store it shows every object exactly once |
| `LinkedList.List.Add` | src/util/mtp_list.c:34-55 | append, on the heap |
| `LinkedList.List.Delete` | src/util/mtp_list.c:57-85 | the first node with the value is unlinked; start, end, count and reachable nodes agree |
| `LinkedList.List.DeleteFirst` | src/util/mtp_list.c:87-100 | the first node is unlinked |
| `LinkedList.List.Iterate` | src/util/mtp_list.c:102-129 | an iterator yields the values in order |
| `LinkedList.DeleteAllWalk` | src/entity/mtp_store.c:757-802 | a walk during which arbitrary other nodes are deleted never stands on a removed node and visits every value that is left |
| `PtpArray.Array.Append` | src/entity/mtp_property.c:266-304 | append; the amortised copying bound is kept |
| `PtpArray.Array.Grow` | src/entity/mtp_property.c:197-222 | for any size: same contents, the resulting room, and what was copied |
| `PtpArray.Array.Find` | src/entity/mtp_property.c:224-264 | the first index, or absent |
| `PtpArray.Array.Remove` | src/entity/mtp_property.c:382-427 | the first occurrence goes and the rest moves down |
| `PtpArray.AppendAll` | src/entity/mtp_property.c:197-304 | any run of appends holds what was appended and copies at most three times as many elements |
| `PtpArray.Pack` | src/entity/mtp_property.c:342-380 | nothing, or exactly the announced size: count and elements |
| `PtpArray.PackedBack` | src/entity/mtp_property.c:182-193 | a host reads back the count and the elements |
| `Paths.GetFileName` | src/util/mtp_support.c:372-396 | the part after the last slash |
| `Paths.GetParentPath` | src/util/mtp_support.c:498-509 | the part before the last slash |
| `Paths.CreatePath` | src/util/mtp_support.c:470-496 | accepted if and only if the name and the path are within the limits and the path lies below the root; the joined path, exact up to the cut of one character at the limit |
| `Paths.SplitUnique` | src/util/mtp_support.c:498-509 | a path splits in one way |
| `Paths.SameLetters` | src/mtp_cmd_handler_util.c:1292-1293 | two paths compare as equal if and only if they differ in the case of ASCII letters alone |
| `Paths.ExtensionIs` | src/util/mtp_support.c:355-370 | the extension is what follows the last dot, or nothing |
| `PtpString.Copy` | src/entity/mtp_property.c:459-505 | at most 254 characters and a NUL |
| `PtpString.Pack` | src/entity/mtp_property.c:578-619 | the whole string or nothing; the rest of the buffer untouched |
| `PtpString.ParseRaw` | src/entity/mtp_property.c:631-660 | the counted characters, clipped to the size, the last one NUL, and the bytes they take |
| `PtpString.RoundTrip` | src/entity/mtp_property.c:578-660 | parsing a packed string gives it back |
| `PtpString.CopyPackParse` | src/entity/mtp_property.c:459-660 | copy, pack and parse: the first 254 characters and a NUL |
| `PtpString.RawAlone` | src/entity/mtp_property.c:631-660 | what follows a raw string in memory never matters |
| `PtpString.RawBack` | src/entity/mtp_property.c:631-660 | a packed NUL-terminated string, taken by itself, is read back |
| `ObjectInfo.Pack` | src/entity/mtp_object.c:241-389 | nothing, or exactly the announced size and dataset |
| `ObjectInfo.Parse` | src/entity/mtp_object.c:156-229 | the fields at their offsets, the name, and the end of the fourth string |
| `ObjectInfo.RoundTrip` | src/entity/mtp_object.c:156-389 | parsing a packed dataset returns its fields, the size cut to 32 bits, and the name, and consumes it all |
| `ObjectInfo.Layout` | src/entity/mtp_object.c:241-389 | where every field of a packed dataset lies, that the unused ones are 0, and that name, creation time and modification time follow in this order, character by character |
| `ObjectInfo.AcceptedIffFramed` | src/entity/mtp_object.c:196-229 | the parse consumes the dataset if and only if four strings of the announced lengths fill it |
| `ObjectInfo.AcceptedAlone` | src/mtp_cmd_handler_util.c:926-932 | the same without regard to the memory behind it, and the empty dataset passes |
| `ObjectInfo.NameAlone` | src/entity/mtp_object.c:211-215 | the name of a framed dataset does not depend on the memory behind it |
| `ObjectInfo.NameRoundTrip` | src/entity/mtp_object.c:156-389 | fields and name of a packed dataset come through, alone in memory |
| `PropDesc.Pack` | src/entity/mtp_property.c:1282-1463 | nothing, or exactly the announced size; the fields' bytes for values of at most four bytes; arrays of unknown element types are not written at all |
| `PropDesc.ReadBack` | src/entity/mtp_property.c:1209-1463 | an independent reader gets the descriptor back if and only if no string, array or value that its type calls for is missing or cut |
| `PropDesc.ReadComplete` | src/entity/mtp_property.c:1209-1463 | whatever that reader accepts is complete |
| `Containers.CommandRoundTrip` | src/ptp_container.c:46-118 | a command of at most five parameters is recognised and read back as sent |
| `Containers.DataIsNoCommand` | src/ptp_container.c:103-118 | no data container reads as a command, for any code, id and payload |
| `Containers.CommandBytes` | src/ptp_container.c:103-118 | a packet is a command if and only if it has 12 to 36 bytes and starts with its own length and the command type |
| `Containers.EncodeDecode` | src/ptp_container.c:46-118 | encoding the command read from a packet of whole parameters gives the packet |
| `Containers.CommandFields` | src/ptp_container.c:36-60 | code, id and parameters lie at their offsets; a parameter that was not sent is 0 |
| `Bytes.LEByte` | src/ptp_container.c:133-158 | byte i of a field is the i-th digit of its value to the base 256 |
| `Bytes.WordAt` | src/ptp_container.c:46-60 | parameter i is what four bytes at 4 * i hold |
| `Reassembly.TempFile.FirstPacket` | src/mtp_cmd_handler.c:1434-1515 | header and payload kept apart; complete exactly when the announced length has arrived; created and intact unless a fault is counted |
| `Reassembly.TempFile.NextPacket` | src/mtp_cmd_handler.c:1517-1551 | written and buffered bytes are all bytes so far; the buffer is never exceeded; complete exactly on a short packet or the announced count modulo 2^32; intact unless a fault is counted |
| `Reassembly.TempFile.ReceiveData` | src/ptp_container.c:185-232 | success exactly for the expected header and the length of what was read |
| `Reassembly.TempFile.ReceiveFile` | src/ptp_container.c:235-286 | success exactly for the expected header and the file's length, or 4 GiB and more |
| `Reassembly.ReceiveTransfer` | src/mtp_cmd_handler.c:1434-1551 | for every payload and packet size (even, once the length saturates) the file ends as the payload, after the last packet and not before, unless a failed creation or short write is counted |
| `Reassembly.LastIs` | src/mtp_cmd_handler.c:1524-1540 | the packet that completes a transfer is exactly the host's last one: the remainder, a full packet, or, once the length saturates, possibly an empty one |
| `Reassembly.ReceiveDataset` | src/transport/mtp_transport.c:62-111 | unless a fault of the temporary file is counted, what the handler gets is what the host sent, and it is accepted |
| `Reassembly.HostHeaderAccepted` | src/ptp_container.c:235-286 | a host's header for a payload of any size is accepted with that payload |
| `Reassembly.ExpectedBytes` | src/ptp_container.c:185-286 | a header belongs to a command's data exactly by type, code and id at their offsets, and to a file below 4 GiB exactly by its length |
| `Reassembly.AllReceived` | src/mtp_cmd_handler.c:1524-1540 | the completion test fires on the last packet and never earlier, wrapped counter included |
| `Reassembly.EarlyEndIffOdd` | src/mtp_cmd_handler.c:1524-1540 | under a saturated length a run of full packets can end early if and only if the packet size is odd |
| `Transmit.SendBulk` | src/transport/mtp_transport.c:216-259 | the queued packets concatenate to the buffer, each of 1 to chunk bytes; a failure leaves a proper prefix |
| `Transmit.SendPacket` | src/transport/mtp_transport.c:174-214 | the same for the packets of a data container |
| `Transmit.SendFile` | src/mtp_cmd_handler.c:445-530 | a file of the recorded size: the queue gets a prefix of header and content, all of it exactly for OK, which is exactly when every send succeeds; an empty file is answered INCOMPLETE_TRANSFER |
| `Transmit.HeaderLength` | src/ptp_container.c:133-158 | the length field is payload and header, saturating at 0xFFFFFFFF |

## Left out

- Objects are values in the store's sequence and not heap records, so aliasing between records and freed memory are not captured; the heap side of the list is in LinkedList alone, with list nodes whose order and links are.
- Reassembly.ReceiveTransfer: asks for an even packet size once the length saturates, because an odd one can end the transfer early, as EarlyEndIffOdd shows.
- Responder.Device.Packet: a data phase that opens with fewer than 12 bytes is not covered, because the source then reads beyond the packet and its size underflows; Responder.Run stops there.
- FsEvents.ObjectAdded: the object at the directory's path is taken to be a folder, as the file system promises; Responder.Run stops at a report that contradicts it.
- PtpString.ParseRaw: sizes 3 to 131072, outside of which the source writes before its buffer or wraps its 16-bit counter.
- Enumeration.Enumerate: names without a slash and no path of exactly one character over the limit, where the source accepts and cuts it.
- PropDesc.Pack: the bytes of range and enumeration values wider than four bytes, which the source copies from beyond the 32-bit field.
- Responder.Device.GetStorageInfo: the bytes of its dataset, which are straight-line packing, as are those of GetDeviceInfo and of the always empty interdependent property list.
- Responder.Device.GetObjectInfo: thumbnail size and association type are arbitrary, since the model's object does not hold them.
- Responder.Device.SetObjectPropValue: the association type, the only other settable property, is not recorded; a string of fewer than 3 or more than 131072 bytes is arbitrary.
- Responder.Device.Cancel: the search for a command inside cancelled data, which depends on the platform's word size.
- Command containers of six parameters, whose last one overlays the parameter count.
- More than 65535 children or enumeration values (16-bit counters), more than 2^32 - 1 handles, and the wrap of the packet counter.
- The clean-up after an abandoned SendObject never runs in the source, since its flag is never set, and is not modelled.
- A temporary file that cannot be read back counts as a header failure.
- UTF-8 and UTF-16 conversion beyond plain characters and time strings are inputs; memory allocation failure and special files are not modelled.
- Several stores: the configuration has one.
- Copying and moving objects, object references and property lists: no command reaches them.
- The list of open files, the watch table, USB endpoints, threads, start-up and the event pipe.
- Agreement of paths and tree is not a run invariant, as RenamedWhileWaiting and SlashInName show; every step that can end it has its exact condition, and the others keep it.
- Responder.Device.WriteFile: the content at a path is recorded only as SendObject put it there; later changes of the disk are inputs of the steps that read it.
