# ps3netsrv: a Dafny model of its hardest parts

The server streams disc images to a console. This project models five of its parts and proves what they are
for:

- **The virtual ISO** (`src/VIsoFile.cpp`, `src/VIsoFile2.cpp`). A folder tree is listed breadth first, packed into
  ISO 9660 and Joliet directory records, linked by patching records in place, given four path tables and then rebased;
  the image is served by random access and never exists as a whole. The builder methods work on byte arrays as the
  program does; `IsoReader` is an independent reader of ISO images. Its theorem `IsoReader.EndToEnd`, which
  `VIsoServer.OpenVolume` states of every volume opened as the server does it, says that following directory records by
  name from a volume descriptor reaches exactly the bytes of every source file, in both trees; `Spelling` says what the
  names look like without the functions that make them. `IsoDescriptors` does the same for the descriptors and the path
  tables they lead to.
- **The client slots** (`src/main.cpp`). The accept loop and the client threads are a state machine with one action
  between any two points where another thread can run; descriptor numbers are recycled by the kernel. One invariant,
  kept by every action, gives slot ownership, single close, no I/O on a foreign socket, and joins that return;
  `ClientAdmission` says who is let in and that who is let in is served.
- **The read handlers** (`src/main.cpp`) over backends that may fail or read short, the multi-part file and the
  encrypted disc image (`src/File.cpp`).
- **The bundled AES** (`src/aes.c`) against FIPS 197 and NIST SP 800-38A: the tables are computed by the code and proved
  to hold the standard's functions, key schedules, table rounds and CBC refine the standard's, decryption inverts
  encryption for every key and any number of blocks. `AesSBox` and `AesExamples` hold the specification itself to
  figure 7 and to the examples of appendix C of FIPS 197.
- **The cache simulation** (`tools/analyse-trace.py`) with the inclusion property that makes its columns comparable.

Files follow the program: `Bytes`, `Chunks`, `DirRecords`, `PathTables`, `FolderTree`, `Spelling`, `DirList`,
`DirContent`, `DirLinks`, `DirBuild`, `VIsoTables`, `VIso`, `VIsoImage`, `VIsoWrite`, `VIsoRead`, `VIsoServer`,
`VIsoReopen`, `IsoReader`, `VIsoLinks`, `IsoDescriptors`, `Disk` for the virtual ISO; `ClientSlots`, `ClientRuns`,
`ClientAdmission`; `ReadHandlers`, `MultiPart`, `CdParts`, `EncryptedImage`, `DiscRanges`, `Streaming`; `AesField`,
`AesSpec`, `AesTables`, `AesRounds`, `AesKeys`, `AesBlock`, `AesCbc`, `AesRoundTrip`, `AesSBox`, `AesExamples`;
`CacheTrace`.
`dafny verify dfyconfig.toml` checks them all.

## How the model reads the source

- The two virtual ISO classes differ only in how they keep a file open. `VIsoRead.VIsoFile` has a constant `cached`:
  false is the class of `VIsoFile.cpp`, true that of `VIsoFile2.cpp`. Its contract is one and the same for both.
- The linked lists `next`, `parent`, `firstChild`, `nextSibling` are one sequence of nodes whose links are indices;
  list order is index order. Directory contents, path tables and `fsBuf` are byte arrays changed in place.
- Ghost parameters such as `rs` (the records a buffer holds) say what a buffer means. They take no part in what a
  method computes.
- `VIsoServer.Open` states the conditions under which a volume is served. Identifiers of one directory differ after
  conversion: without that no lookup by name can tell them apart. Directory names have at most 204 bytes and 107 UCS-2
  units: these limits come with the truncated search key and the 8-bit record length, and `FolderTree.IsoNameLimit`,
  `FolderTree.JolietNameLimit` and `DirRecords.LenDrFits` prove that they are exact. All sectors fit 32 bits, the width
  of every sector number. Whether the records fit the scratch buffer is not assumed: it decides the result.
- The running counts `filesSizeSectors`, `dirsSizeSectors` and `dirsSizeSectorsJoliet` are one value, `counts`, which
  `build` counts on from. The parameter `from` of functions and lemmas is what they held before; it defaults to `FRESH`,
  all of them 0.
- A slot of the client table starts with socket 0, as zeroed memory leaves it, which is a usable descriptor number.
  The model keeps it apart as `Zeroed` and proves that nobody ever closes it.
- In AES the tables FT0 … FT3 and RT0 … RT3 are the rows of two-dimensional arrays.

## What turned out not to hold everywhere

- A failed `open` of a virtual ISO leaves the running sector counts as they are when a directory does not fit
  (`src/VIsoFile.cpp:1225-1242`); only a path table that does not fit resets them, and the next `open` resets only what
  is being served (`src/VIsoFile.cpp:1504-1507`). `VIsoServer.Open` proves that an opened image is right if and only if
  something was served before or the counts were 0, `VIsoReopen.OpenTwice` what that means for two folders opened on one
  object, and `VIsoReopen.ReopenedWrong` gives two folders for which the second image is wrong. The server deletes the
  object after a failed `open` (`src/main.cpp:696-703`), so it never meets this.
- `process_read_cd_2048_critical_cmd` drops the result of its seeks. A multi-part file refuses an offset past its parts,
  and the sector is then read from where the last read ended. `CdParts.ReplyRight` says exactly for which images the
  reply is still right, `CdParts.RightForAll` for which part sizes it is right whatever the image holds: each sector
  begins below parts times part size, or the last read ended at the end of the image. `CdParts.WrongTail` gives an
  image for which it is wrong.
- Descriptor 0 is the "nothing cached" mark of `VIsoFile2.cpp`. If the kernel hands out 0 for a file, that descriptor
  is not closed: `VIsoRead.VIsoFile.Reset` states that everything of the object is closed if and only if 0 is not the
  cached descriptor, and `VIsoRead.VIsoFile.FetchAndReset` shows a run after which 0 is left open.
- An encrypted image decrypts all of a read or none of it, as its first address says. `EncryptedImage.WholeReads` proves
  that a read of whole sectors is right for every image with the same header if and only if its sectors are all
  encrypted or all plain; the one exception is sector 1, which is part of the header, so that the header alone tells
  whether decryption changes it. `EncryptedImage.MixedRead` opens an image and reads wrong bytes from it.
- `File::read` on several parts returns less than asked when a read spans two boundaries; `MultiPart.PartFile.Read`
  states the exact number of bytes.

## Model

| member | source | states |
|---|---|---|
| Bytes.ByteWeights | include/common.h:19-117 | a 32- or 16-bit number in either byte order is the sum of its bytes by weight, the least first or the most first |
| Bytes.BytesRoundTrip | include/common.h:19-117 | any four bytes are read, in either order, as the number that is written as these bytes |
| Bytes.SectorsAre | src/VIsoFile.cpp:42-45 | the sector count is the fewest sectors that hold the bytes |
| DirRecords.LenDrFits | src/VIsoFile.cpp:848-852 | the one-byte record length holds the whole record if and only if the identifier has at most 215 bytes; at 216 it wraps to 0 |
| DirRecords.DecodeEncode | src/VIsoFile.cpp:757-852 | a record's bytes give back every field, in both byte orders |
| DirRecords.FixedBytes | src/VIsoFile.cpp:827-828 | the bytes no field is kept in: volume 1 in both byte orders, zeros, and zeros behind the identifier |
| DirRecords.PlaceInSector | src/VIsoFile.cpp:854-860 | a record stays where it is if and only if it ends inside its sector and not on its boundary; else it begins the next sector |
| DirRecords.PosInSector | src/VIsoFile.cpp:854-870 | the packer never lets a record straddle a sector boundary or end on one |
| DirRecords.PackedUnique | src/VIsoFile.cpp:854-870 | the packed bytes are determined by the list of records alone |
| DirRecords.AppendRecord | src/VIsoFile.cpp:854-870 | one more record behind the last one, refused exactly when it would reach the end of the scratch buffer |
| DirRecords.WalkStep | src/VIsoFile.cpp:583-606 | a walker that skips on a zero length byte stands on record i after i steps, and at the end after the last |
| DirRecords.MatchMeans | src/VIsoFile.cpp:599-602 | the byte comparison of length and identifier is equality of identifiers |
| DirRecords.FindDirRecord | src/VIsoFile.cpp:561-610 | the search finds the first record with the key, at its position, or reports that there is none |
| DirRecords.RebaseRecord | src/VIsoFile.cpp:1016-1025 | rebasing one record in place changes its two start fields alone |
| DirRecords.FixDirLba | src/VIsoFile.cpp:993-1030 | the walk terminates and rebases every record of a directory exactly once, both byte orders agreeing |
| DirRecords.LaidPatchExtent | src/VIsoFile.cpp:964-967 | overwriting the extent of one packed record changes that record alone |
| PathTables.ParseTable | src/VIsoFile.cpp:612-688 | a path table parses back to its entries in either byte order, odd-length padding included |
| PathTables.EntryFixedBytes | src/VIsoFile.cpp:636-688 | no extended attribute record, and a zero behind an identifier of odd length |
| PathTables.RebaseEntry | src/VIsoFile.cpp:1038-1049 | one entry is rebased in place and the pointer moves to the next |
| PathTables.FixPathTableLba | src/VIsoFile.cpp:1032-1053 | every entry is rebased exactly once and nothing else changes |
| FolderTree.DirNameFits | src/VIsoFile.cpp:570-577 | within the limits the search key of a directory equals the identifier its record carries |
| FolderTree.IsoNameLimit | src/VIsoFile.cpp:572 | the key in the ISO tree equals the identifier if and only if the name has at most 204 bytes |
| FolderTree.JolietNameLimit | src/VIsoFile.cpp:906-913 | the Joliet record length is right if and only if the name has at most 107 units |
| FolderTree.PartsAre | src/VIsoFile.cpp:751-759 | a file whose size fits 32 bits is one extent; a larger one has as many parts of 0xFFFFF800 bytes as it takes |
| Spelling.CapitalsIs | src/VIsoFile.cpp:54-72 | the copy of a name has no byte in a to z, differs from the name by 32 in exactly those, and nothing else meets this |
| Spelling.DirSpelling | src/VIsoFile.cpp:898-907 | a directory is spelled by its identifier and by nothing else: capitals, or code units most significant byte first |
| Spelling.FileSpelling | src/VIsoFile.cpp:832-846 | the same for a file, whose name is followed by ";1" |
| Spelling.CaseClash | src/VIsoFile.cpp:832-907 | two names within the limits clash in the ISO tree if and only if they differ in case only, and in the Joliet tree if and only if they are the same |
| Spelling.ReadMe | src/VIsoFile.cpp:832-837 | readme.txt is called README.TXT;1 |
| FolderTree.RecListLens | src/VIsoFile.cpp:911-936 | the size of a directory does not depend on where anything lies |
| DirList.ListDirectories | src/VIsoFile.cpp:1082-1139 | the loops end on every finite tree, whatever the names, and list it breadth first, fully linked |
| DirList.TreeLevels | src/VIsoFile.cpp:1082-1139 | names that meet the conditions everywhere in the tree do so in every directory of the list |
| DirList.LinksMean | src/VIsoFile.cpp:1108-1134 | list position equals `idx`, and `parent`, `firstChild`, `nextSibling` are those of the tree |
| DirList.ChildrenContiguous | src/VIsoFile.cpp:1114-1133 | the nodes with a given parent are exactly one contiguous run starting at its first child |
| DirList.ChildIs | src/VIsoFile.cpp:1128-1132 | child j of a directory is the node at its first child plus j |
| DirList.ParentsOrdered | src/VIsoFile.cpp:1109-1138 | later nodes never have earlier parents, and every parent comes before its children |
| DirList.DepthOrdered | src/VIsoFile.cpp:1109-1138 | later nodes are never nearer to the root |
| DirList.PlaceFiles | src/VIsoFile.cpp:1141-1219 | every file starts where the files before it end, in whole sectors, modulo 32 bits, counted on from what the count held; so does the total |
| DirContent.MakeFileRec | src/VIsoFile.cpp:757-852 | record i of a file, from the running sector number, has the extent, length and flags of part i |
| DirContent.PutFiles | src/VIsoFile.cpp:746-874 | the records of all files are packed behind the first two, or the directory is refused for lack of room |
| DirContent.PutChildren | src/VIsoFile.cpp:876-938 | likewise for the subdirectories, found through `firstChild` and `nextSibling` |
| DirLinks.OnlyKidMatches | src/VIsoFile.cpp:599-602 | in a parent's records the identifier of a child belongs to that child's record and no other |
| DirLinks.KidFound | src/VIsoFile.cpp:957 | the search for a child under its key finds its own record |
| DirLinks.OneMoreLinked | src/VIsoFile.cpp:950-968 | placing a directory changes exactly one record of the earlier directories: its own entry in its parent |
| DirBuild.Trim | src/VIsoFile.cpp:940-955 | the copy holds the records, whole sectors, with its own size entered in "." |
| DirBuild.LinkIntoParent | src/VIsoFile.cpp:963-967 | the parent's entry gets the extent of the child's "." |
| DirBuild.BuildContent | src/VIsoFile.cpp:690-991 | a directory is built exactly when it fits; then it and all earlier directories are right, its parent's entry included, whatever the counts began with |
| VIsoTables.BuildTree | src/VIsoFile.cpp:1221-1242 | all directories of one tree, each at the sector its "." names, sizes adding up modulo 32 bits; when one does not fit the count keeps what was added before |
| VIsoTables.BuildPathTable | src/VIsoFile.cpp:612-688 | the table lists the first 65536 directories in list order with the locations of their "." records, or does not fit |
| VIsoTables.NodeRebased | src/VIsoFile.cpp:1055-1064 | rebasing a directory's relative records gives its records in the final layout, whatever sector they were counted from |
| VIsoTables.FixDirectory | src/VIsoFile.cpp:1061-1062 | one directory rebased in place |
| VIso.FixLba | src/VIsoFile.cpp:1055-1070 | all records and all table entries move from relative to final sectors |
| VIso.FitsScratchIs | src/VIsoFile.cpp:612-631 | what fits the 4 MB buffer, in numbers: every directory ends before its last byte, every path table entry finds room for 262 bytes |
| VIso.Build | src/VIsoFile.cpp:1072-1270 | from a folder tree to two linked, rebased trees and four tables, refused exactly when something does not fit; what the running counts are afterwards in either case |
| VIsoImage.NothingWraps | src/VIsoFile.cpp:1263-1265 | when all sectors fit 32 bits, the three base sectors are the true ones, shifted by what was counted before; the file base equals the metadata size |
| VIsoImage.BasesAre | src/VIsoFile.cpp:1263-1267 | what was counted before moves the records of the ISO tree by its own count, those of the Joliet tree by both |
| VIsoImage.DirAt | src/VIsoFile.cpp:1421-1437 | every directory lies in the image at its place in its tree, whatever its records say; those of a build from counts of 0 name that place (`IsoReader.ReadDirIs`) |
| VIsoImage.FileInImage | src/VIsoFile.cpp:1461-1476 | every file lies in the image, whole and zero-filled, from the sector its records start at |
| VIsoImage.PadBounds | src/VIsoFile.cpp:1464-1469 | 32 to 63 sectors of padding make the total a multiple of 32 |
| VIsoWrite.Write | src/VIsoFile.cpp:1272-1438 | the metadata buffer: system area, descriptors, four tables, both trees, in the layout the records assume; `IsoDescriptors` reads each of its fields back |
| VIsoServer.Measure | src/VIsoFile.cpp:1461-1476 | padding and total size from the sector counts |
| VIsoServer.CountSectors | src/VIsoFile.cpp:1461 | the sectors of metadata from the table sizes and the counts of the builder |
| VIsoServer.Generate | src/VIsoFile.cpp:1440-1486 | build, size and write, succeeding exactly when everything fits the scratch buffer |
| VIsoServer.Open | src/VIsoFile.cpp:1490-1553 | what was served before is closed and the counts reset, else nothing is; afterwards the image of the folder is served or nothing is; the image is right if and only if something was served before or all counts were 0 |
| VIsoServer.RootShift | src/VIsoFile.cpp:1263-1265 | the root record of either descriptor is off by what was counted before |
| VIsoServer.RightWhenFresh | src/VIsoFile.cpp:1263-1265 | both root records name the sectors where the roots lie, and no read ends early, if and only if all counts began at 0 |
| VIsoServer.OpenVolume | src/VIsoFile.cpp:1490-1553 | on an object that serves something or has all counts 0: every file of the folder can be had by every spelling of its name, in either tree, from the image that `read` serves |
| VIsoServer.VolumeServes | src/VIsoFile.cpp:1566-1713 | the reader's view, file by file, of every finished volume: extents are disjoint and tile it, zeros follow |
| VIsoServer.ServedSize | src/VIsoFile.cpp:1461-1476 | total size is a multiple of 32 sectors with 32 to 63 sectors of padding |
| VIsoReopen.FailureLeaves | src/VIsoFile.cpp:1221-1261 | a failed `build` on a new object leaves counts of 0 if and only if all directories fitted, or the first did not and no file has contents |
| VIsoReopen.OpenTwice | src/VIsoFile.cpp:1490-1553 | after a failed `open` the image of the next folder is right if and only if that failure left nothing; otherwise the root record is off by the count left |
| VIsoReopen.ReopenedWrong | src/VIsoFile.cpp:1225-1242 | a folder with an overfull subfolder, then an empty one on the same object: the second image names the wrong sector |
| IsoReader.ParsePacked | src/VIsoFile.cpp:854-870 | reading records back from a directory extent gives the list that was packed |
| IsoReader.PartsTile | src/VIsoFile.cpp:751-825 | the records of a file cover it from 0 to its size without gap or overlap; only the last lacks the multi-extent flag |
| IsoReader.FileOfDirectory | src/VIsoFile.cpp:746-874 | the records found under a file's identifier, read one after the other, are that file |
| IsoReader.ReadDirIs | src/VIsoFile.cpp:1421-1437 | reading a directory's extent from the image gives its records |
| IsoReader.ChildFound | src/VIsoFile.cpp:963-967 | looking up a child by identifier gives the child's own extent |
| IsoReader.FollowFrom | src/VIsoFile.cpp:1055-1070 | following identifiers from a directory ends at the directory the path names |
| IsoReader.FileRead | src/VIsoFile.cpp:1585-1685 | reading a file by name from any directory of the image gives the source file |
| IsoReader.RootIs | src/VIsoFile.cpp:1346-1380 | the root record of either volume descriptor carries the extent that "." of the root directory has, whatever the counts began with |
| IsoReader.EndToEnd | src/VIsoFile.cpp:1072-1486 | from either descriptor, following any path of identifiers that spells its names reaches the directory, and every file of it, asked for by any identifier that spells its name, has its bytes |
| IsoReader.PathSpelling | src/VIsoFile.cpp:898-907 | a path is spelled by the identifiers of its directories and by nothing else |
| VIsoLinks.TableRead | src/VIsoFile.cpp:612-688 | what a reader finds in each of the four path tables is the list of directories |
| VIsoLinks.TableEntry | src/VIsoFile.cpp:644-672 | for all directories a table lists, the first 65536: the sector of the directory's "." record and its parent's number, which is below its own and never truncated |
| VIsoLinks.TableOrder | src/VIsoFile.cpp:612-688 | entries come by level and then by parent number, as section 6.9.1 of ECMA-119 requires |
| VIsoLinks.EntryInParent | src/VIsoFile.cpp:950-968 | a directory's entry in its parent has its extent |
| VIsoLinks.OneExtentPerDirectory | src/VIsoFile.cpp:690-1070 | ".", the entry in the parent, every child's ".." and, for directories they list, both tables name one sector, and the records one length |
| VIsoLinks.DatesRead | src/VIsoFile.cpp:715-892 | every record found in a directory of the image has the date of what its identifier names |
| IsoDescriptors.DescriptorFields | src/VIsoFile.cpp:1306-1380 | each layout field of a descriptor is at its place and holds its number |
| IsoDescriptors.DescriptorMeans | src/VIsoFile.cpp:1306-1380 | either descriptor of the image has its kind, agrees with itself in both byte orders, and gives the length of the image in sectors of 2048 bytes |
| IsoDescriptors.TableAt | src/VIsoFile.cpp:1392-1413 | where each of the four tables lies in the image |
| IsoDescriptors.TableFound | src/VIsoFile.cpp:1329-1332 | the L and M fields of either descriptor, read in their byte orders, lead to a table that is the list of directories |
| IsoDescriptors.RootEntry | src/VIsoFile.cpp:640-644 | entry 0 is the root directory of the same descriptor, identifier 0, its own parent |
| IsoDescriptors.TablesAgree | src/VIsoFile.cpp:645-673 | every other entry is spelled as its directory, and its identifier is found in the directory of its parent entry with its sector |
| IsoDescriptors.SetEnds | src/VIsoFile.cpp:1382-1386 | sector 18 of the image ends the set of descriptors |
| DiscRanges.PlainDisc | src/VIsoFile.cpp:1281-1294 | in PS3 mode the header of the image gives one plain region over the whole image, and no sector is to be decrypted |
| DiscRanges.NoRanges | src/VIsoFile.cpp:1281-1282 | any other image has no region table |
| VIsoRead.WantedIs | src/VIsoFile.cpp:1566-1713 | a read asks for as many bytes as there are, one by one from the pointer on; from the start, for the whole image |
| VIsoRead.ReadSplit | src/VIsoFile.cpp:1566-1713 | splitting a read changes neither the bytes nor where the pointer ends |
| VIsoRead.SequentialReads | src/VIsoFile.cpp:1566-1713 | reads of any sizes one after the other give what one read of their sum gives |
| VIsoRead.VIsoFile.Read | src/VIsoFile2.cpp:1598-1756 | returns `image[ptr .. min(ptr + n, total)]` and moves the pointer by it, or a prefix when the disk fails; both classes; if counts left over put a gap in front of the files, a read ends there |
| VIsoRead.GapShows | src/VIsoFile.cpp:1615-1693 | every read returns all it asks for if and only if there is no such gap |
| VIsoRead.VIsoFile.Session | src/VIsoFile2.cpp:1598-1790 | any run of seeks and reads gives the bytes of the same run over the image, and leaks no descriptor but possibly 0 |
| VIsoRead.VIsoFile.ReadFiles | src/VIsoFile.cpp:1615-1693 | the two loops over all file lists return the bytes from the pointer on, and nothing for a position in the gap |
| VIsoRead.VIsoFile.FetchOnce | src/VIsoFile.cpp:1638-1664 | one piece of a file, opened and closed again; on failure nothing is returned |
| VIsoRead.VIsoFile.FetchCached | src/VIsoFile2.cpp:1671-1715 | the same piece through the cached descriptor, which is always open on that very file |
| VIsoRead.VIsoFile.OpenCached | src/VIsoFile2.cpp:1671-1691 | the file asked for becomes the cached one, and the one before is closed |
| VIsoRead.VIsoFile.FdReset | src/VIsoFile2.cpp:563-576 | a real cached descriptor is closed, once; 0 is not |
| VIsoRead.VIsoFile.Reset | src/VIsoFile2.cpp:482-573 | afterwards nothing is open that was not opened by others, if and only if the cached descriptor was not 0; 0 itself stays open |
| VIsoRead.VIsoFile.FetchAndReset | src/VIsoFile2.cpp:563-576 | when 0 is handed out for a file, 0 is open after `close` and was not before; any other descriptor is closed |
| VIsoRead.VIsoFile.CloseServed | src/VIsoFile.cpp:1504-1507 | `open` closes and resets what is served; an object that serves nothing keeps its counts |
| VIsoRead.VIsoFile.Seek | src/VIsoFile.cpp:1723-1745 | the three ways to move the pointer; refused while nothing is served |
| ClientSlots.FirstSame | src/main.cpp:2446-2450 | the first connected slot with the address, if there is one |
| ClientSlots.FirstFree | src/main.cpp:2479-2483 | the first slot that is not connected, if there is one |
| ClientSlots.OneThreadPerSlot | src/main.cpp:2500-2545 | no two threads are ever on one slot |
| ClientSlots.MutexKept | src/main.cpp:236-239 | the mutex is held exactly by the one inside a critical section, after every action |
| ClientSlots.PlacedKept | src/main.cpp:1896-2562 | every action keeps slots, threads and the accept loop in agreement |
| ClientSlots.AddressesKept | src/main.cpp:2445-2486 | every action keeps the addresses of connected slots distinct |
| ClientSlots.OwnedKept | src/main.cpp:2452-2458 | every action keeps each open socket with exactly one holder |
| ClientSlots.SafeKept | src/main.cpp:1896-2562 | every action of every part keeps the whole invariant; what the actions achieve is in `ClientAdmission` |
| ClientSlots.SafeAtStart | src/main.cpp:2408 | the invariant holds when the server starts, whatever descriptors are in use |
| ClientSlots.InitOnFreeSlot | src/main.cpp:202-228 | when `initialize_client` runs on a slot, no thread that is left refers to it |
| ClientSlots.AtLoopHead | src/main.cpp:2413-2562 | between two connections: connected means an unreleased thread, not connected means one with only its return left, addresses are distinct |
| ClientSlots.NoForeignIo | src/main.cpp:650-1985 | a system call on a number read earlier works on the thread's own connection or fails; the result sent after a failed receive included |
| ClientSlots.ClosesItsOwn | src/main.cpp:241-245 | whoever closes a number closes the connection it was given for, never a recycled one |
| ClientRuns.RunIsSafe | src/main.cpp:2413-2562 | every state of every run satisfies the invariant |
| ClientRuns.OpenAfter | src/main.cpp:236-245 | one action opens what it accepts and closes what it passes to `closesocket`, nothing else |
| ClientRuns.ClosedOnceOrOpen | src/main.cpp:230-288 | in every run each accepted connection has been closed exactly once or is open, never both |
| ClientRuns.OpenMeansHeldOnce | src/main.cpp:2452-2512 | an open connection is held by one slot, the accept loop or one finalizing thread, and by nobody else |
| ClientRuns.JoinNotStuck | src/main.cpp:2506-2512 | while the accept loop joins it does not hold the mutex, and the thread or the mutex holder can move without the peer |
| ClientRuns.JoinComesNearer | src/main.cpp:650-1997 | every step of the joined thread lowers a count that starts at most at eleven |
| ClientRuns.JoinNotSetBack | src/main.cpp:1900-1997 | no step of anything else raises that count |
| ClientRuns.JoinReturns | src/main.cpp:2500-2512 | in any interleaving of the others the joined thread makes at most as many steps as are left, at most eleven, and after them the join returns; until then it or the mutex holder can move |
| ClientRuns.NoDeadlock | src/main.cpp:2413-2562 | no reachable state is stuck |
| ClientAdmission.Admission | src/main.cpp:2441-2498 | the one slot with the address of the new connection is taken with its socket; else an allowed client gets the first free slot; it is turned away if and only if it is not allowed or no slot is free |
| ClientAdmission.AdmissionMoves | src/main.cpp:2500-2550 | each step from a reserved slot to a running thread is possible, but a join waits for its thread |
| ClientAdmission.ReservedIsServed | src/main.cpp:2500-2550 | over every run: after six successful steps of the accept loop the slot holds the new connection, open and under its address, and a new thread of its own serves it, at its loop until it moves |
| ClientAdmission.FirstClient | src/main.cpp:2419-2550 | on a server that has just started the first allowed client is served in slot 0 |
| ClientAdmission.CommandGoesOn | src/main.cpp:1900-1987 | a thread that nobody evicts reads its own open socket for each command and result, and goes on or leaves as the calls turn out |
| ClientAdmission.LeavesInSeven | src/main.cpp:230-272 | the teardown is a chain of seven steps |
| ClientAdmission.GivingUp | src/main.cpp:2523-2561 | after a failure the accept loop is back for the next connection in at most five steps, each possible when the mutex is free |
| ReadHandlers.ReadOrPad | src/main.cpp:826-864 | one read with zero-fill: all bytes of the image continued by zeros, or a failure; a short read inside the image is never hidden |
| ReadHandlers.ReadCritical | src/main.cpp:793-880 | the peer gets a prefix of the continued slice whatever fails, all of it on success; without faults it succeeds |
| ReadHandlers.ExtendedIs | src/main.cpp:826-864 | the continued image is the image inside it and zeros behind it |
| ReadHandlers.ExtendedSplit | src/main.cpp:819-877 | the reply of several 4 MB chunks is the reply as a whole |
| ReadHandlers.PayloadInSpan | src/main.cpp:913-947 | each copy out of the span is in bounds and is the payload of its sector |
| ReadHandlers.PayloadAt | src/main.cpp:941-946 | byte k of sector i of the reply is byte 24 + k of that sector in the image, or zero past its end |
| ReadHandlers.BulkSectors | src/main.cpp:908-951 | the fast path gathers the payloads of all sectors |
| ReadHandlers.EachSector | src/main.cpp:953-979 | the slow path gathers the same payloads, unless a seek is refused |
| ReadHandlers.ReadCd | src/main.cpp:882-985 | either path sends the same bytes; nothing is sent on failure unless the connection breaks |
| MultiPart.FoundIs | src/File.cpp:145-155 | the parts that open are those before the first missing one |
| MultiPart.PartFile.constructor | src/File.cpp:129-158 | parts are opened in order up to the first missing one, at offset 0; the first gives the part size |
| MultiPart.PartInWhole | src/File.cpp:490-503 | part k holds the bytes of the whole image from k times the part size on |
| MultiPart.PartFile.Read | src/File.cpp:455-467 | the slice at the current offset, which moves by what is returned; full when at most a part size is asked for or in the last part; otherwise the exact number of bytes |
| MultiPart.PartFile.Seek | src/File.cpp:490-503 | any offset below parts times part size is reached; any other, that product included, is refused and changes nothing |
| MultiPart.PartFile.Size | src/File.cpp:513-524 | the size reported is that of the whole image |
| CdParts.CdSector | src/main.cpp:956-979 | a sector read from a multi-part file with the seek's result dropped: right if and only if the seek is accepted or only zeros are left where the last read ended; parts shorter than a sector may make it fail |
| CdParts.StaleSector | src/main.cpp:959-968 | bytes read elsewhere are right for a place past the end if and only if they are zeros |
| CdParts.CdSectors | src/main.cpp:953-979 | the whole loop: each sector comes from its place or from where the last read ended, and the reply is right exactly when the latter held only zeros |
| CdParts.ReplyRight | src/main.cpp:953-979 | for one image: the reply is right if and only if every refused seek left the file before nothing but zeros |
| CdParts.RightForAll | src/main.cpp:953-979 | for all images of a size: if and only if every sector begins below parts times part size or is read where the image has ended |
| CdParts.WrongTail | src/main.cpp:959-968 | an image for which the answer is wrong |
| Streaming.StreamVolume | src/main.cpp:793-880 | the critical read over an opened virtual ISO: a prefix of the continued slice of its image whatever fails, all of it on success; without faults it succeeds for every offset that is not negative |
| Streaming.StreamParts | src/main.cpp:793-880 | the same over a multi-part image, except that an offset past the parts is refused and nothing is sent; otherwise it succeeds if the parts hold at least a chunk |
| EncryptedImage.WordHalves | src/File.cpp:572-575 | the words of a header are big-endian: the first two bytes are the upper half, the other two the lower |
| EncryptedImage.BuildTable | src/File.cpp:264-286 | the region table of a header, whose words are read as `EncryptedImage.WordHalves` says, or none when the count is not between 1 and 31 |
| EncryptedImage.Partition | src/File.cpp:268-279 | each address up to the last plain range is in exactly one region, encrypted if and only if its sector is in no plain range |
| EncryptedImage.ResetIv | src/File.cpp:578-586 | twelve zero bytes and the four digits of the sector number to base 256, the highest first |
| EncryptedImage.IvMeans | src/File.cpp:578-586 | the IV is the sector number modulo 32 bits: its digits to base 256, the highest first, behind twelve zeros |
| EncryptedImage.IvDistinct | src/File.cpp:578-586 | two sectors share an IV if and only if their numbers agree modulo 32 bits |
| EncryptedImage.IvWraps | src/File.cpp:594 | sector numbers modulo 32 bits give the IVs the sectors have |
| EncryptedImage.DecryptData | src/File.cpp:590-601 | consecutive sectors decrypted in place, each with its own IV |
| EncryptedImage.SectorOfClear | src/File.cpp:578-601 | a sector of the wholly decrypted image depends on that sector alone |
| EncryptedImage.WhichRegion | src/File.cpp:418-427 | the search through the table finds a flag that tells whether the sector is to be decrypted |
| EncryptedImage.DiscFile.constructor | src/File.cpp:218-290 | key schedule and region table of an opened image, whatever its header; an image shorter than a header has no regions; after a refused count the position is behind the header, else 0 |
| EncryptedImage.DiscFile.Read | src/File.cpp:369-444 | what the host returns at the current position, less on a fault, all decrypted or none as the table says of the first address; for whole sectors of one kind that is the slice of the wholly decrypted image, whatever was read before |
| EncryptedImage.ReadRightIs | src/File.cpp:395-440 | for one image: a read of whole sectors is right if and only if each sector is treated as the decrypted image treats it |
| EncryptedImage.WholeReads | src/File.cpp:395-440 | for all images with a given header: a read of whole sectors is right if and only if its sectors are all encrypted or all plain, or the odd one is sector 1 and the header's own bytes there decrypt to themselves |
| EncryptedImage.WholeReadsByKind | src/File.cpp:395-440 | when the first plain range has both header sectors: if and only if they are all encrypted or all plain |
| EncryptedImage.MixedRead | src/File.cpp:395-440 | an image with sector 2 encrypted between plain ones, for any key: a read over it gives wrong bytes |
| EncryptedImage.ClearInvertsSeal | src/File.cpp:578-601 | with the disc's key the decrypted image is the plain image that was encrypted |
| AesField.PowersMultiply | src/aes.c:366 | powers of 3 multiply by adding exponents |
| AesField.OrderOfThree | src/aes.c:379-384 | 3 has order 255, so the loop meets every non-zero byte |
| AesField.Logarithm | src/aes.c:382 | every non-zero byte has exactly one logarithm below 255 |
| AesField.InverseOfPower | src/aes.c:404 | the power at 255 minus the logarithm is the one multiplicative inverse |
| AesSpec.AffineBits | src/aes.c:406-410 | each bit of the affine step is the sum equation 5.1 of FIPS 197 asks for |
| AesSpec.ShiftRowsIs | src/aes.c:619-640 | equation 5.5: byte (r, c) of the result is byte (r, (c + r) mod 4) |
| AesSpec.SubInverts | src/aes.c:412-413 | the reverse S-box inverts the S-box on every byte, in both directions |
| AesSpec.MixInverts | src/aes.c:419-441 | InvMixColumns undoes MixColumns on every column |
| AesSpec.InvMixLinear | src/aes.c:605-608 | InvMixColumns is linear, which is why keys can be mixed back beforehand |
| AesSpec.InvCipherInverts | src/aes.c:699-734 | the inverse cipher undoes the cipher for any round keys |
| AesSpec.EqInvCipherAgrees | src/aes.c:601-614 | with the keys of section 5.3.5 the equivalent inverse cipher is the inverse cipher |
| AesTables.PowerTables | src/aes.c:379-384 | powers of 3 and logarithms 1 to 255 of all non-zero bytes |
| AesTables.RoundConstants | src/aes.c:389-393 | the ten powers of x |
| AesTables.SBoxEntry | src/aes.c:406-410 | the four rotations compute the affine transformation |
| AesTables.SBoxes | src/aes.c:398-414 | every entry of both S-boxes is written and is the standard's |
| AesTables.MulByLogsIsMul | src/aes.c:366 | the macro MUL is multiplication in the field |
| AesTables.RoundTables | src/aes.c:418-444 | every entry of the eight round tables |
| AesTables.Tables.constructor | src/aes.c:370-445 | all tables hold what the standard says |
| AesRounds.ForwardColumn | src/aes.c:619-640 | four look-ups and a key word are a column of SubBytes, MixColumns and AddRoundKey |
| AesRounds.BackwardColumn | src/aes.c:642-663 | the same for the inverse tables |
| AesRounds.BackwardOfSubs | src/aes.c:605-608 | look-ups of S-box entries in the inverse tables mix a key word back |
| AesKeys.GroupStart | src/aes.c:495-500 | the word that opens a group is the one KeyExpansion defines |
| AesKeys.GroupMiddle | src/aes.c:538-543 | the middle word for 256-bit keys |
| AesKeys.SetKeyEnc | src/aes.c:451-556 | 10, 12 or 14 rounds for 128, 192 or 256 bits, and the buffer holds the words of KeyExpansion; any other size is refused and changes nothing |
| AesKeys.SetKeyDec | src/aes.c:561-617 | the same numbers of rounds, and the buffer holds the keys of the equivalent inverse cipher in the order of use |
| AesBlock.FRound | src/aes.c:619-640 | AES_FROUND is one round of the cipher |
| AesBlock.RRound | src/aes.c:642-663 | AES_RROUND is one round of the equivalent inverse cipher |
| AesBlock.CryptEcb | src/aes.c:668-770 | a block goes through the cipher or the equivalent inverse cipher; input and output may coincide |
| AesBlock.DecryptInvertsEncrypt | src/aes.c:668-770 | for all keys of the three sizes and all blocks decryption gives the block back |
| AesCbc.CryptCbc | src/aes.c:776-835 | the output is the CBC form of the input, in place too, and the IV is ready for the next call; a length that is no multiple of 16 is refused and changes nothing |
| AesCbc.DecryptInverts | src/aes.c:776-835 | CBC decryption undoes CBC encryption for every key, IV and number of blocks |
| AesRoundTrip.EcbThereAndBack | src/aes.c:451-770 | schedule, encrypt, schedule, decrypt, in place: the block is the one it was, for all keys of the three sizes |
| AesRoundTrip.CbcThereAndBack | src/aes.c:451-835 | the same for any number of blocks in CBC mode under one IV; another length is refused and changes nothing |
| AesSBox.Figure7Is | src/aes.c:395-412 | figure 7 of the standard is the S-box for all 256 bytes |
| AesExamples.Example128 | src/aes.c:668-766 | the cipher with the key expansion gives the example of appendix C.1, and back |
| AesExamples.Example192 | src/aes.c:668-766 | the same for appendix C.2, 192 bits |
| AesExamples.Example256 | src/aes.c:668-766 | the same for appendix C.3, 256 bits |
| AesCbc.EncryptedBlock | src/aes.c:820-831 | every ciphertext block is the encryption of its plaintext block added to the ciphertext block before, or to the IV |
| AesCbc.DecryptedBlock | src/aes.c:803-816 | every plaintext block is the decryption of its ciphertext block, added to the ciphertext block before, or to the IV |
| CacheTrace.TouchedAre | tools/analyse-trace.py:127-128 | a request touches exactly the windows that hold one of its bytes, each once and in ascending order; what a request for no bytes touches |
| CacheTrace.LimitIs | tools/analyse-trace.py:126 | the cache holds as many windows as the budget pays for, and at least one |
| CacheTrace.TouchNewest | tools/analyse-trace.py:129-135 | one use of a block keeps the cache equal to the newest blocks |
| CacheTrace.LastUsesAre | tools/analyse-trace.py:125-135 | the list of last uses has every block used, once, in the order of last use |
| CacheTrace.CacheIsNewest | tools/analyse-trace.py:125-135 | the cache is exactly the most recently used blocks, as many as fit |
| CacheTrace.Inclusion | tools/analyse-trace.py:124-135 | the cache of a smaller budget is the most recent part of that of a larger one |
| CacheTrace.MoreNeverMissesMore | tools/analyse-trace.py:132 | more room never means more misses, on any trace |
| CacheTrace.BudgetsCompare | tools/analyse-trace.py:123-136 | so no cell of a row is above a cell to its left |
| CacheTrace.Simulate | tools/analyse-trace.py:125-135 | the loops compute those misses and that cache |

## Left out

- Real I/O: `scandir`, `stat`, sockets and threads are a finite folder tree, files as byte sequences, a descriptor map and a state machine; failures of `stat` and `scandir` while building are not modelled.
- Time stamps and volume texts: records carry opaque time stamps, and the text fields of the volume descriptors and the PS3 information sectors are parameters (`Labels`).
- UTF-8 decoding: names come as their bytes and their UCS-2 units.
- `.666xx` multi-part files inside a virtual ISO: the program itself refuses to serve them.
- Memory allocation: it fails only where a parameter or a nondeterministic choice says so (client buffer, scratch memory of the CD path).
- The rest of the open command: path translation, choice of backend and detection of the CD sector size, which is a parameter here.
- The padding notice that is printed once per file, and the seek cache behind `OPT_FILE_SEEK`, which is not compiled in.
- A failing `accept`, after which the server ends, and the free running of threads between two shared accesses.
- Fairness of the scheduler: the join theorems give a decreasing count and an enabled step, not a schedule.
- MultiPart.PartFile.Read: assumes that a host read stops short only at the end of a part, because after any other short read the program goes on in the next part.
- MultiPart.PartFile.constructor: `Valid`, on which the other methods rely, holds only for parts of equal size with a last one that is not longer, as the comment in `open` demands.
- EncryptedImage.DiscFile.constructor: the key has 16 bytes; what the region table means is proved for headers whose ranges are in order (`Sorted`).
- EncryptedImage.DiscFile.Read: for a read that does not start at a sector it states what is returned, not when that is right, because the program only handles aligned reads and says so.
- CdParts.CdSectors: only for parts of at least one sector; for shorter parts `CdParts.CdSector` says what a single pass does.
- VIso.Build: only for trees whose names meet the stated conditions; from others the program builds trees in which identifiers collide, records have a wrapped length, or a directory is not found in its parent.
- VIsoServer.Generate: the same, and only when all sectors fit 32 bits; past that the sums of the program wrap and its metadata buffer is too short.
- VIsoServer.Open: the same conditions as `VIsoServer.Generate`.
- VIsoServer.OpenVolume: the same conditions as `VIsoServer.Generate`.
- The 3k3y variants, their watermark and the masking of its bytes, key files given in hexadecimal, and where key files are looked for.
- Seeking relative to the current position in `File`, and `write`.
- AES: CFB and CTR modes, the ROM tables and the VIA PadLock code, none of which is compiled in; erasing the key schedule is modelled but nothing is said about memory afterwards.
- The other reports of the trace tool.
- Commands for listing, creating and deleting, the configuration files, the whitelist bounds and the console output.
