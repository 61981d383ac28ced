# Verified model of EmbLinkOs

EmbLinkOs builds its own boot media, signs and enrols its own boot chain, loads itself
from UEFI, and decodes, logs and edits with its own code. This project models the parts
of that where a mistake is expensive and a proof says more than a reading: formats that
one program writes and another reads, protocols that run against firmware or against
other threads, and loops whose result is a claim about a whole input.

| area | modules |
|---|---|
| FAT32 boot volume, written and read | `FatNames`, `LongNames`, `FatSizing`, `FatReader`, `FatTree`, `FatBoot`, `FatFormat`, `FatPlan`, `FatWriter`, `FatRoundTrip`, `FatListing`, `FatBuild` |
| EFI system partition on a GPT disk | `UefiDisk`, `GptDisk`, `GptTables` |
| UEFI loader: page tables, kernel image, boot protocol record, exit from boot services | `PageTables`, `KernelImage`, `BootProtocol`, `Handoff`, `HandoffRuns` |
| Huffman tree to code table to decoder | `HuffmanTree`, `HuffmanTable`, `HuffmanDecoder` |
| Display brightness: requests, worker, snapshots | `Backlight` |
| DER, object identifiers, certificates | `Der`, `Oid` |
| Authenticode signing of PE images | `Authenticode` |
| UEFI variable store and signature lists | `SignatureLists`, `VarStore` |
| Shell line editor and history | `Terminal`, `History`, `LineEditor` |
| Kernel log ring and on-screen pager | `KernelLog`, `LogPager` |

`Bytes` and `DiskBytes` hold what they share: little-endian fields, in-place slice
assignment, and records laid end to end. Code that updates in place is modelled by
classes and arrays; code that computes a value, by functions. Concurrent and
firmware-facing code is modelled as a state machine over its atomic steps, and the
theorems quantify over every sequence of steps.

## How it is put together

The volume writer is a class whose invariant says that the FAT splits the used clusters
into disjoint contiguous chains, that each chain holds what was written to it, and that
everything else is zero. Each operation extends a log of chains and contents; what is
once laid stays laid, so a directory proved correct when it was written is still correct
at the end. The reader is modelled separately, from its own source, and the two meet in
`FatRoundTrip`: for every tree and every path, reading the bytes gives what looking the
path up in the tree gives. `FatListing` reads the same bytes as a directory listing and finds
every entry under its long name.

The loader's run is a machine whose firmware may change its memory map, its key and any
memory it owns between any two steps. The methods of `PageTables`, `KernelImage` and
`BootProtocol` establish exactly the relations the machine's steps assume, and the theorems
about the memory map are stated through the record as the kernel reads it: magic, version,
count, address and stride. `HandoffRuns` builds runs from the first step to the last, so
that the states the theorems speak of are known to be reached.

The Huffman walk carries three things at once: what is on the stack is reached by its
code, weights are conserved, and every stream is covered. The Kraft check then decides
losslessness, and the table search agrees with the tree on every stream. The indexed decoder
that ships is modelled over the table as it is stored, in 16-bit fields, and agrees with the
tree exactly when nothing is lost in them.

## Where the code does not do what one would expect

Each of these is proved, with the exact condition under which the expected property holds
where there is one.

- An 8.3 name is stored without looking at the names already taken, and a trailing dot is
  lost in the 11-byte field, so two entries of one directory can share a short name
  (`TrailingDotClash`; `SpacedNameClash` has `A B` and `AB~1`). They are distinct exactly when
  no 8.3 name's own short name is in use when it is visited (`ShortNamesDistinct`), and always
  for plain 8.3 names. A generated name and the 8.3 entry that spells it meet exactly when the
  long name is listed first (`GeneratedNameClash`). Of two entries that share a short name the
  reader finds the first (`FoundAtOwnIndex`, `ShadowedFile`).
- The size reserved for a directory counts characters, not UTF-16 units. The records fit, with
  or without an end mark behind them, exactly under a condition on the names
  (`DirRecordsFit`), which every basic-plane name meets (`BmpRoom`) and three long names beyond
  it do not (`AstralNamesOverrun`). When they do not fit they run over the chain behind
  (`OverrunSpoils`).
- The EFI partition's `.` and `..` entries come out with blank names (`DotEntriesAreBlank`).
- After a failed ExitBootServices the loader passes the size of the last map it read, not
  that of its buffer, so one more descriptor stops it despite the slack it reserved
  (`RetryHasNoSlack`; `RetryDies` is a run in which it happens). It stops; it never hands over
  a stale map.
- A brightness snapshot copies the cache before it looks at `pending`, so it can report "not
  busy, no error" about a request that has just failed (`StaleSnapshot`). It is never older
  than its call (`SnapshotIsRecent`), and its copy is the worker's latest write exactly when
  nothing was written between its copy and its look at `pending` (`QuietSnapshot`).
- The check on recovered Huffman tables lets through codes of no bits and of 20 to 24 bits,
  which the decoder never looks at, and codes and counts that need 17 bits, which are stored in
  16. Decoder and tree agree on every stream exactly when there are none of these
  (`LikeTreeIff`); a tree with codes of 1 to 17 bits is one where they do not
  (`CombIsNotDecoded`).
- The object-identifier writer does not continue its first byte, so identifiers from 2.48 on
  do not decode back (`OidRoundTrip`, both directions; `HighArcIsLost` has 2.48 and 2.48.1).
- Enrolling keys appends to a store without erasing behind it. A walk then finds exactly the
  old and the new records if and only if what lay behind does not read as a record
  (`EnrolmentWalk`); an old record left there comes back (`OldRecordReturns`).
- A certificate directory entry that names no table inside the file is not cleared, and the
  signature then covers other bytes than the firmware hashes (`StaleEntrySpoils`;
  `SignedHash` gives the exact condition).
- The log pager returns to the desktop instead of showing a last, partly filled page, so the
  oldest lines are never shown unless the breaks divide evenly and the log begins with one
  (`PressToEnd`).

## Model

| member | source | states |
|---|---|---|
| FatNames.FittingNameShape | tools/mkrpi4sd.py:55-67 | an 8.3 name fills eleven short-name characters and cannot be taken for an end mark, a deleted record or a dot entry |
| FatNames.FitsIffSpelt | tools/mkrpi4sd.py:55-67 | a name is its own short name if and only if it is one to eight legal characters and, behind a dot, up to three more, and then its record is the two parts padded with blanks |
| FatNames.ShortCharsAre | tools/mkrpi4sd.py:50 | the legal characters are exactly the listed ones |
| FatNames.CandidateShape | tools/mkrpi4sd.py:73-80 | every generated candidate is an eleven-character short name of legal characters |
| FatNames.CandidateDetermines | tools/mkrpi4sd.py:75-77 | candidates for different N never coincide, whatever tildes and digits the basis holds |
| FatNames.CandidatesCount | tools/mkrpi4sd.py:75-80 | a set that holds the first k candidates has at least k members (pigeonhole) |
| FatNames.MakeShortName | tools/mkrpi4sd.py:70-81 | the search returns the first free candidate within one probe more than there are taken names, records it, and fails only when a million names are taken |
| FatNames.ConfigIs | tools/mkrpi4sd.py:70-81 | config.txt does not fit 8.3 and becomes CONFIG~1.TXT |
| FatNames.DecimalRoundTrip | tools/mkrpi4sd.py:76 | the numeral in a generated name can be read back |
| FatNames.ShortNamesForm | tools/mkrpi4sd.py:175-184 | each entry gets its own 8.3 name or one with a tilde |
| FatNames.ShortNamesDistinct | tools/mkrpi4sd.py:174-184 | short names of a directory are distinct if and only if no 8.3 name's own short name is in use when the listing reaches it |
| FatNames.PlainNamesNeverClash | tools/mkrpi4sd.py:174-184 | with plain 8.3 names no two entries share a short name |
| FatNames.TrailingDotClash | tools/mkrpi4sd.py:55-67 | every X next to `X.` gets the same short name |
| FatNames.GeneratedNameClash | tools/mkrpi4sd.py:175-184 | listed in sorted order, a long name and the 8.3 entry spelling its generated name share a short name exactly when the long name comes first; otherwise it takes the next number |
| FatNames.SpacedNameClash | tools/mkrpi4sd.py:175-184 | `A B` sorts before `AB~1` and both get the short name `AB~1` |
| LongNames.LfnChecksum | tools/mkrpi4sd.py:84-89 | the loop computes the rotate-and-add checksum |
| LongNames.ConfigChecksum | tools/mkrpi4sd.py:84-89 | and the checksum of that name is 1 |
| LongNames.ChecksumDetectsOneByte | tools/mkrpi4sd.py:84-89 | changing any single byte of a short name changes its checksum |
| LongNames.PadUnits | tools/mkrpi4sd.py:94-98 | units, terminator, then padding to whole records of thirteen |
| LongNames.LfnEntries | tools/mkrpi4sd.py:92-111 | the loop emits the records the round trip is about, last piece first |
| LongNames.LongEntriesShape | tools/mkrpi4sd.py:96-111 | every record carries the attribute and the short name's checksum, no type and no cluster; the first on disk is flagged last; put together they hold the name, one zero, and then only the padding value |
| LongNames.LongNameRoundTrip | tools/mkrpi4sd.py:92-111 | reassembling the records by sequence number up to the terminator gives the name, for every name of up to 255 units |
| LongNames.UnitsRoundTrip | tools/mkrpi4sd.py:94-95 | UTF-16 units decode back to the name, surrogate pairs included |
| FatSizing.SolveByBytes | tools/mkrpi4sd.py:124-140 | the solver stops after at most one correction with a FAT that has room for every cluster left plus two, everything fitting the volume |
| FatSizing.SolveBySectors | tools/mkuefidisk.py:82-95 | the sector-wise solver reaches the same FAT size with the same guarantees |
| FatSizing.EstimateIsFloor | tools/mkfat32.py:35 | the floating-point quotient, floored, is the integer estimate |
| FatSizing.EstimateIsSound | tools/mkfat32.py:33-36 | the closed-form FAT has room for all remaining clusters plus two at every volume size, and fits |
| FatReader.ReadChain | tools/fat32_read.py:45-58 | following the FAT with a seen-set and reading each cluster gives the bytes of the chain |
| FatReader.ScanDirectory | tools/fat32_read.py:63-72 | the scan stops at the end mark, skips deleted and long records, and returns the first match |
| FatReader.ReadVolumeFile | tools/fat32_read.py:32-79 | path resolution from the root cluster down, with missing and malformed cases told apart |
| FatReader.SplitJoined | tools/fat32_read.py:61 | a path joined from components splits back into them |
| FatReader.FirstPartitionLba | tools/fat32_read.py:11-24 | the first non-zero GPT entry's start, or nothing for a disk without one |
| FatReader.ReadFile | tools/fat32_read.py:32-79 | reading through the GPT is reading the volume at the first partition |
| FatReader.ContiguousBytes | tools/fat32_read.py:45-58 | a chain linked contiguously reads as one slice of the disk |
| FatReader.LinkedBytes | tools/fat32_read.py:45-58 | a chain linked in any order, fragmented or not, reads as its clusters' bytes one after the other |
| FatReader.ScanRecords | tools/fat32_read.py:64-72 | a directory of records that then ends, or goes on with a zero byte, scans as the records do |
| FatTree.DirentFields | tools/mkrpi4sd.py:114-118 | the reader's cluster and size of a record are the writer's arguments |
| FatTree.DirentBytes | tools/mkrpi4sd.py:114-118 | every byte of a record: name, attribute, times and the fixed date, the cluster in two halves, the size |
| FatTree.BmpRoom | tools/mkrpi4sd.py:203-208 | for basic-plane names the records leave room for an end mark, in the root and in any subdirectory |
| FatTree.AstralNamesOverrun | tools/mkrpi4sd.py:203-208 | three names of 127 characters beyond the basic plane: in a subdirectory 2080 bytes of records for 2048 reserved, in the root 2048 and no end mark |
| FatFormat.AllocKeeps | tools/mkrpi4sd.py:147-158 | taking the next n clusters keeps the FAT a split of the used clusters into disjoint acyclic chains of their requested lengths, everything later free |
| FatFormat.AllocKeepsData | tools/mkrpi4sd.py:147-162 | a chain just taken holds zeros and disturbs no other chain's data |
| FatFormat.WriteKeeps | tools/mkrpi4sd.py:160-162 | writing one chain leaves every other chain's contents as they were |
| FatFormat.OverlongWrite | tools/mkrpi4sd.py:160-162 | a write longer than its chain: the chain keeps what fits, the rest lies behind it, and another chain still holds its contents if and only if the bytes written over it are its own |
| FatFormat.BootFields | tools/mkrpi4sd.py:213-227 | a reader of the boot sector gets the writer's geometry and root cluster |
| FatFormat.FsInfoFields | tools/mkrpi4sd.py:229-233 | the free count and next cluster are where a reader looks |
| FatFormat.FinishedIsFat32 | tools/mkrpi4sd.py:210-241 | the finished image opens with a FAT32 boot sector, field by field, that gives this volume's size, start and FAT, an information sector with the two counts, and a backup of each |
| FatFormat.FreeCountWritten | tools/mkrpi4sd.py:229-240 | in the finished image the free count field is the number of zero FAT entries and the next-free field is the first of them |
| FatPlan.DirLaidStays | tools/mkrpi4sd.py:164-201 | a directory laid correctly is still laid correctly after anything the writer does later |
| FatPlan.DirRecordsFit | tools/mkrpi4sd.py:186-208 | the records fit the chain sized before they were known, and fit with an end mark, if and only if heading and name slots do |
| FatWriter.Fat32.constructor | tools/mkrpi4sd.py:139-142 | a fresh volume satisfies the allocator invariant with no chains |
| FatWriter.Fat32.Alloc | tools/mkrpi4sd.py:147-158 | fails exactly when the volume is too full, otherwise adds exactly one chain of the needed length and keeps the invariant |
| FatWriter.Fat32.WriteChain | tools/mkrpi4sd.py:160-162 | data that fits is recorded for its chain and the invariant kept; longer data overwrites what lies behind as `OverlongWrite` says |
| FatWriter.Fat32.PlaceEntry | tools/mkrpi4sd.py:185-194 | an entry's chain is reserved or its file written, an empty file taking none |
| FatWriter.Fat32.PlaceEntries | tools/mkrpi4sd.py:174-194 | the listing loop names, places and describes every entry in order; what a reader then sees of each, attribute, cluster and size included, is `DirectoryLists` |
| FatWriter.Fat32.AddDir | tools/mkrpi4sd.py:164-201 | on success the whole subtree is laid and the clusters used are the sum the tree needs; each failure has its reason |
| FatWriter.Fat32.Descend | tools/mkrpi4sd.py:198-201 | the loop over subdirectories lays each, with the right parent cluster |
| FatWriter.Fat32.Finish | tools/mkrpi4sd.py:210-241 | boot sector, FSInfo, both backups and two equal FATs are in place and no chain is disturbed |
| FatRoundTrip.ReadsLayout | tools/fat32_read.py:36-43 | the reader computes the writer's geometry from the finished image |
| FatRoundTrip.ReadsChain | tools/fat32_read.py:45-58 | following any chain of a finished volume yields what was written to it, padded with zeros |
| FatRoundTrip.DirStep | tools/fat32_read.py:62-76 | one path component in a laid directory leads where the directory's records say |
| FatRoundTrip.ReadsDir | tools/fat32_read.py:60-79 | below any laid directory, to any depth, reading a path answers what the tree answers |
| FatRoundTrip.VolumeRoundTrip | tools/mkrpi4sd.py:244-249 | every path lookup in a finished volume, wherever it lies on a disk, answers what the tree answers |
| FatBuild.BuildBootPartition | tools/mkrpi4sd.py:244-249 | succeeds when the volume is FAT32 by cluster count and the tree fits, with an image of the right length that reads back as the tree, file by file and, with long names, directory by directory with every entry's attribute, cluster and size; each failure is characterised |
| FatRoundTrip.OverrunSpoils | tools/mkrpi4sd.py:196-208 | where the names need more than was reserved, the records overrun: a chain right behind that was still empty is spoilt, free clusters there stop being zero, chains out of reach keep their contents |
| FatRoundTrip.FoundAtOwnIndex | tools/fat32_read.py:64-72 | looking an 8.3 name up finds its own entry if and only if no earlier entry has its short name, otherwise the first that has |
| FatRoundTrip.FileIsFound | tools/fat32_read.py:60-79 | a file reached by 8.3 names, each the first of its short name in its directory, is the answer to exactly those names |
| FatRoundTrip.EveryFileReadsBack | tools/mkrpi4sd.py:144-249 | each such file's bytes come back exactly when its path string is read from the built volume |
| FatRoundTrip.ShadowedFile | tools/fat32_read.py:64-72 | a name whose short name an earlier entry has leads to that entry instead |
| FatListing.ItemsOfEntry | tools/mkrpi4sd.py:178-194 | one entry's records list as one item: its eleven bytes, its attribute, cluster and size and, unless it is an 8.3 name, the long name whose records carry their checksum |
| FatListing.DirectoryLists | tools/mkrpi4sd.py:164-201 | the bytes of any directory of a finished volume list its heading and then every entry in order: long name, 0x10 for a directory and 0x20 for a file, the first cluster, the size, and a cluster from which the file's bytes are read; the label alone has 0x08, and the dot entries lead to the directory itself and the one above |
| FatListing.PathLists | tools/mkrpi4sd.py:164-249 | so does the directory that a path of 8.3 names, each the first of its short name, leads to, at any depth, its dot-dot entry leading to the directory the path came through |
| UefiDisk.NamesAgree | tools/mkuefidisk.py:59-67 | writer and reader put every 8.3 name into the same eleven bytes |
| UefiDisk.PathNames | tools/mkuefidisk.py:159-167 | the eleven bytes of each component of the loader's path, on both sides |
| UefiDisk.LoaderPathIs | tools/fat32_read.py:27-61 | the path string splits into its three components, and these are the bytes the reader compares them with |
| UefiDisk.DotEntriesAreBlank | tools/mkuefidisk.py:59-67 | the names written for `.` and `..` start with a blank |
| UefiDisk.BuildFat | tools/mkuefidisk.py:138-149 | the chain dictionary becomes a FAT of single-cluster directories and one loader chain |
| UefiDisk.LayOut | tools/mkuefidisk.py:97-171 | boot sector, FATs, three directories and the loader lie where the layout puts them, none overwriting another |
| UefiDisk.EspIsFat32 | tools/mkuefidisk.py:99-134 | the partition opens with such a boot sector for its size and FAT, an information sector that counts nothing, and the backup boot sector |
| UefiDisk.EspDirectories | tools/mkuefidisk.py:155-168 | the three directories record by record: directories marked 0x10 and the loader 0x20, dot entries leading to the directory itself and the one above, the loader at cluster 5 with its size |
| UefiDisk.BuildEsp | tools/mkuefidisk.py:76-171 | the partition is built, or refused exactly when there are too few clusters or the loader does not fit |
| UefiDisk.LoaderReadsBack | tools/fat32_read.py:32-79 | reading /EFI/BOOT/BOOTX64.EFI from the partition at any base returns the loader |
| GptDisk.PiecesOrdered | tools/mkuefidisk.py:199-222 | protective MBR, primary tables, partitions and backup tables are pairwise disjoint and inside the disk |
| GptDisk.GptImage | tools/mkuefidisk.py:176-222 | the disk has its announced length and every piece in place |
| GptDisk.FindsPartition | tools/fat32_read.py:11-24 | the reader finds the system partition where the writer put it |
| GptDisk.GuidsReadBack | tools/mkuefidisk.py:49-54 | in both tables of the disk, undoing the mixed byte order gives back the system-partition type and the identifier it was given |
| GptTables.TablesAreValid | tools/mkuefidisk.py:176-219 | the tables are valid: each header checks itself and its copy of the entries and names the other, both copies list the same partitions with their types, ids, extents and names, these lie inside the usable sectors, and the protective MBR spans the disk as far as 32 bits reach |
| GptDisk.DiskRoundTrip | tools/fat32_read.py:32-79 | from the GPT header to the file bytes, the disk gives back the loader |
| GptDisk.MakeDisk | tools/mkuefidisk.py:225-251 | refused exactly when the loader needs more than 128989 clusters; otherwise reading the path /EFI/BOOT/BOOTX64.EFI gives the loader, the root payload lies after the partition and the length is the planned one |
| PageTables.WalkIsMapped | boot/uefi/loader.c:186-222 | for every canonical address the four-level walk, through entries present, writable and the kernel's alone, gives the identity below 4 GiB, physical 0 upward in the kernel's GiB, and nothing elsewhere |
| PageTables.BuildPageTables | boot/uefi/loader.c:192-222 | the loops fill exactly seven pages with those tables and change no other byte of memory |
| KernelImage.FindSpan | boot/uefi/loader.c:233-241 | the smallest range holding every loaded segment, empty exactly when none is loaded |
| KernelImage.PlaceImage | boot/uefi/loader.c:248-256 | the segments lie over memory in table order and nothing outside the span changes; if they are apart every file byte and zero is in place |
| KernelImage.LastWins | boot/uefi/loader.c:250-256 | where segments overlap, each byte is that of the last one in the table |
| KernelImage.LoadKernel | boot/uefi/loader.c:225-258 | loading happens exactly for an ELF with something to load and a granted range; the pages asked for are the fewest that hold the segments |
| KernelImage.KernelReads | boot/uefi/loader.c:192-258 | reading any segment address through the tables gives the file byte, or zero for bss |
| BootProtocol.OurType | boot/uefi/loader.c:127-137 | usable is conventional and boot-services memory and nothing else, 3 ACPI reclaim, 4 ACPI NVS, 5 bad memory, and 2 everything else |
| BootProtocol.EntryFields | boot/uefi/loader.c:404-412 | base, length, type and zero attributes of an entry are read back from its 24 bytes |
| BootProtocol.TranslateMap | boot/uefi/loader.c:384-413 | refuses a map of more than 2560 entries and changes nothing; otherwise writes every entry in order and their number into the record, and nothing else |
| BootProtocol.KernelReadsMap | kernel/arch/x86_64/boot/boot_protocol.c:23-83 | from a complete record the kernel takes as many entries as there are descriptors, entry i is descriptor i, and beyond them there is none; it refuses the record exactly when it lies at address 0 |
| Handoff.GrantIsFresh | boot/uefi/loader.c:139-184 | what the firmware grants overlaps nothing it granted before |
| Handoff.StepKeeps | boot/uefi/loader.c:363-418 | no step of loader or firmware changes the image, the tables or, except to record the map in it, the protocol |
| Handoff.Step | boot/uefi/loader.c:363-418 | every step keeps: regions disjoint, image, tables and record intact, map copy tied to its key |
| Handoff.StepRecord | boot/uefi/loader.c:514-566 | the record keeps its version, size, map address and stride from the step that filled them and its magic once sealed, through every later step of loader and firmware |
| Handoff.MapIsExact | boot/uefi/loader.c:379-418 | in every run that enters the kernel, what the kernel reads through the record is the firmware's map at exit: the same number of entries, each the right one, none beyond; it refuses the record exactly when the firmware placed it at address 0 |
| Handoff.OwnedIsNeverUsable | boot/uefi/loader.c:124-137 | every page the loader allocated is described by an entry the kernel reads, and by none as usable |
| Handoff.ImageIsIntact | boot/uefi/loader.c:225-258 | at entry, through the new tables, every segment byte is the file's or zero |
| Handoff.ProtocolIsReachable | boot/uefi/loader.c:514-521 | the protocol and the map are readable through the kernel's window, and every other canonical address is mapped as intended |
| Handoff.AllocationsApart | boot/uefi/loader.c:510-571 | image, tables, low structures and map buffer never share a page |
| Handoff.GrowthStops | boot/uefi/loader.c:379-382 | reading the map kills the loader exactly when the map outgrew the size passed |
| Handoff.RetryHasNoSlack | boot/uefi/loader.c:374-418 | on a retry it survives exactly when the map is no longer than the one read before |
| Handoff.NothingMissed | boot/uefi/loader.c:379-418 | from the reading of the map that entry is based on until the jump, the firmware map never changes |
| HandoffRuns.KernelIsEntered | boot/uefi/loader.c:363-429 | a run from the first allocation to the jump, with a kernel that loads a segment and accepts the record |
| HandoffRuns.RetryDies | boot/uefi/loader.c:374-382 | a run whose retry meets a map one descriptor longer, still within the buffer, and stops |
| HuffmanTree.FollowBranch | tools/mkmp3tables.py:91-109 | the result is an index if and only if a path of skips of 250 or more, ended by a smaller one, leads from the start to it inside the words, high byte for left and low byte for right |
| HuffmanTree.TreeDecodeExtends | tools/mkmp3tables.py:112-131 | a symbol found does not depend on the bits after it |
| HuffmanTree.DropKeeps | tools/mkmp3tables.py:122-124 | dropping a branch keeps reachability, coverage and the sum of weights |
| HuffmanTree.LeafKeeps | tools/mkmp3tables.py:125-128 | emitting a leaf keeps them |
| HuffmanTree.SplitKeeps | tools/mkmp3tables.py:129-130 | replacing a node by its two children keeps them |
| HuffmanTree.Walk | tools/mkmp3tables.py:112-131 | the walk terminates; emitted, pending and dropped weights sum to one throughout; nothing is dropped exactly when every branch ends in a leaf inside the table within 24 bits |
| HuffmanTable.KraftDetectsLoss | tools/mkmp3tables.py:134-139 | the Kraft check passes exactly when nothing was dropped |
| HuffmanTable.RecoverTable | tools/mkmp3tables.py:227-247 | a table is emitted exactly for a complete tree, sorted by length and code, and every long enough stream begins with exactly one code |
| HuffmanTable.PrefixFree | tools/mkmp3tables.py:131 | no two entries match the same stream |
| HuffmanTable.TableIsTree | tools/mkmp3tables.py:221-223 | searching lengths upward decodes every stream to the same pair and bit count as the tree, and refuses the same streams |
| HuffmanTable.EscapedTable | tools/mkmp3tables.py:91-131 | of a tree whose left branch escapes over 250 words, every accepted table is the two codes, the one behind the escape with its pair |
| HuffmanTable.RecoverEscaped | tools/mkmp3tables.py:112-139 | and recovering that tree gives it |
| HuffmanDecoder.ShippedByLength | user/audio/mp3/tables.h:33-43 | cut to 16-bit codes and a 16-bit count, a sorted table is still in order of length |
| HuffmanDecoder.BuildIndex | user/audio/mp3/huffman.c:27-40 | each length's span holds exactly the stored entries of that length, whatever the order of their codes |
| HuffmanDecoder.LowerBound | user/audio/mp3/huffman.c:56-61 | the loop ends where halving ends, in order or not |
| HuffmanDecoder.HalvedSplits | user/audio/mp3/huffman.c:56-61 | in a run that is in order, that is the first code not below the one sought |
| HuffmanDecoder.RunIsFind | user/audio/mp3/huffman.c:51-62 | over a table in order, a run answers what searching the whole table for that length and code answers |
| HuffmanDecoder.ReadCode | user/audio/mp3/huffman.c:44-65 | the first length from 1 to 19 whose run of stored codes has the prefix |
| HuffmanDecoder.SpanFinds | user/audio/mp3/huffman.c:44-65 | a symbol is always that of a stored entry whose stored code the stream begins with |
| HuffmanDecoder.SpanIsTree | user/audio/mp3/huffman.c:44-65 | where codes and count fit 16 bits, every stream gives the tree's symbol if its code has 1 to 19 bits, otherwise nothing |
| HuffmanDecoder.LikeTreeIff | user/audio/mp3/tables.h:33-43 | decoder and tree agree on every stream if and only if every code has 1 to 19 bits and fits 16 bits and there are fewer than 65536 codes |
| HuffmanDecoder.MisfitShows | user/audio/mp3/huffman.c:44-65 | a stream that begins with the code of an entry outside these bounds is not decoded as that entry |
| HuffmanDecoder.DecodeLikeTree | user/audio/mp3/huffman.c:27-65 | end to end: what is returned is the symbol of a stored entry, and the one of the original tree where nothing is lost |
| HuffmanDecoder.CombIsNotDecoded | user/audio/mp3/tables.h:33-37 | an accepted tree with codes of 1 to 17 bits: on ones the tree gives its 17-bit symbol, the decoder nothing |
| HuffmanDecoder.CombRefused | tools/mkmp3tables.py:227-247 | the same from the words of the tree through recovery, index and read |
| Backlight.ChooseLevel | kernel/acpi/display.c:86-90 | the first level at the least distance from the percentage asked for |
| Backlight.NearestUnique | kernel/acpi/display.c:86-90 | that level is determined by the list and the percentage |
| Backlight.Discover | kernel/acpi/display.c:24-31 | accepted exactly for packages of 3 to 34 integers up to 100; the levels are those from the third on, without repeats, never more than 32 |
| Backlight.Step | kernel/acpi/display.c:47-94 | every atomic step of any requester, reader or the worker keeps mutual exclusion, the accounting of requests and the tie between target and the newest request |
| Backlight.AppliedExactlyOnce | kernel/acpi/display.c:47-94 | in every reachable state the outcomes of rounds made for requests are those of the accepted requests in order, one each, each for the level nearest to what was asked; at most one is outstanding |
| Backlight.NoSecondAcceptance | kernel/acpi/display.c:84-93 | a request is accepted only when all earlier ones are finished |
| Backlight.CallsAreAnswered | kernel/acpi/display.c:81-94 | every finished request call was answered by its own argument and the device, and as many with success as requests were accepted, but for one on its way out |
| Backlight.NotLost | kernel/acpi/display.c:48-75 | `pending` is withdrawn only by the worker after publishing that request's outcome |
| Backlight.SuccessWasReadBack | kernel/acpi/display.c:50-72 | in every reachable state an outcome on the ACPI path is success if and only if the argument could be made and the level accepted was read back, out of memory exactly when it could not be made, an input-output error otherwise; on the native path it is what the set call answered |
| Backlight.WriteShows | kernel/acpi/display.c:68-74 | after the worker writes, the cache shows the reading as the brightness if there was one, else the old one marked unknown, and the error changes only in a round made for a request, to that round's outcome |
| Backlight.PanelSucceeds | kernel/acpi/display.c:47-94 | from every start with a panel a run is reached that publishes success for the level accepted |
| Backlight.NativeSuccessUnverified | kernel/acpi/display.c:51-53 | on the native path, for any answer and any reading, a reachable run publishes exactly that outcome for the one accepted request |
| Backlight.SnapshotIsRecent | kernel/acpi/display.c:76-80 | a snapshot shows the cache as written at some point during its call, never older than the call, and the error of every outcome published by then |
| Backlight.QuietSnapshot | kernel/acpi/display.c:76-80 | a snapshot's copy is the worker's latest write if and only if nothing was written between its copy and its look at pending, and then equals the cache field for field; it knows the newest outcome if and only if none was published in between, and then, not marked busy, shows its error |
| Backlight.StaleSnapshot | kernel/acpi/display.c:76-80 | a reachable run whose snapshot says not busy and no error about a failed request |
| Backlight.OwnerMoves | kernel/acpi/display.c:68-94 | in every reachable state the holder of the lock has a step of its own that it can take |
| Backlight.LockIsReleased | kernel/acpi/display.c:68-94 | under every interleaving four steps of the holder release the lock, and a worker waiting to publish can then take it |
| Backlight.WorkerMoves | kernel/acpi/display.c:47-75 | the worker can always take its next step unless it waits for a held lock |
| Backlight.PendingIsServed | kernel/acpi/display.c:47-75 | under every interleaving thirteen worker steps finish a pending request |
| Der.BothReadersAgree | tools/sbsign.py:151-162 | wherever an element was written both readers find its tag, body and end, for every length |
| Der.ReadsItem | tools/mkroots.py:76-84 | the second reader reaches the byte after the element |
| Der.ListChildren | tools/mkroots.py:87-95 | the generator loop, run to its end, or the failure of a truncated element |
| Der.ChildrenOfSequence | tools/mkroots.py:87-95 | children of a written sequence are its elements, in order, at their places |
| Der.NestedRoundTrip | tools/sbsign.py:48-56 | every tree of elements of any depth is recovered by reading and descending |
| Der.IssuerAndSerialAre | tools/sbsign.py:165-187 | issuer and serial are the exact element bytes, with or without a version |
| Der.SubjectAndKeyAre | tools/mkroots.py:98-108 | subject and public key likewise |
| Oid.EncodeArc | tools/sbsign.py:62-71 | the loops emit an arc's base-128 form, continued on all but the last byte |
| Oid.EncodeOid | tools/sbsign.py:59-72 | the encoded identifier, or nothing for too few arcs or a first byte above 255 |
| Oid.OidRoundTrip | tools/sbsign.py:59-72 | the arcs decode back if and only if the first two fit seven bits |
| Oid.HighArcIsLost | tools/sbsign.py:59-72 | 2.48 becomes a byte that never ends and 2.48.1 reads back as 0.1 |
| Authenticode.SortedSections | tools/sbsign.py:129-136 | the sections hashed are exactly the non-empty ones, in file order |
| Authenticode.FeedHash | tools/sbsign.py:122-147 | the bytes fed are those of the hash; where headers and sections lie in the file they cover it: the headers without checksum and directory slot, the raw data of every row behind them and the rows before it in file order, then the rest up to a certificate table, so with sections tiling the file everything but the two fields and the table |
| Authenticode.StripAndPad | tools/sbsign.py:272-285 | the image without its old table, padded to eight |
| Authenticode.SignImage | tools/sbsign.py:268-302 | the edits on one growing buffer give the signed file, or nothing where the original refuses or raises |
| Authenticode.SignedHash | tools/sbsign.py:268-302 | for every well-formed image the signed file hashes to the bytes that were signed, except exactly when a stale entry is left and something follows the sections; the table lies at the end, aligned |
| Authenticode.SignedCovers | tools/sbsign.py:268-287 | for every well-formed image the bytes signed cover the stripped and padded image in that way |
| Authenticode.SignedTable | tools/sbsign.py:290-300 | the signed file is the image followed by one table: a length that counts header and padding, revision 2.0, type PKCS#7, the signature, zeros to a multiple of eight |
| Authenticode.StaleEntrySpoils | tools/sbsign.py:272-277 | a concrete well-formed image that signs, for every signature that fits, and whose signed file hashes to other bytes than were signed |
| Authenticode.SigningAgain | tools/sbsign.py:272-277 | signing a signed file strips its table and, unless a stale entry had spoiled the first signature, gives what signing the original gives; the file does not grow and the hashed bytes are those of the file given |
| SignatureLists.ListReads | tools/efivars.py:51-58 | a list written anywhere is read, by its size fields, as its one certificate |
| SignatureLists.ListFields | tools/efivars.py:51-58 | a list has the X.509 type, its own length, no header, the size of its one entry, no owner, and the certificate |
| SignatureLists.ListsRoundTrip | tools/efivars.py:128-132 | walking joined lists recovers every certificate in order |
| VarStore.ExistingEnd | tools/efivars.py:102-114 | the loop's end and count are those of the record walk |
| VarStore.RecordReads | tools/efivars.py:61-75 | a record that lies in the store is found with its own sizes |
| VarStore.RecordIsAdded | tools/efivars.py:61-75 | a record written is marked added, with the four attributes, and no count, time or key index |
| VarStore.VariableReads | tools/efivars.py:61-75 | name, vendor and data of a stored variable come back |
| VarStore.Append | tools/efivars.py:134-140 | succeeds exactly when every record can be written and all fit, and then has written exactly them |
| VarStore.EnrolmentWalk | tools/efivars.py:102-140 | where the old records end aligned, walking again finds them and then the new ones, and exactly these if and only if nothing behind reads as a record; all other bytes are as they were |
| VarStore.OldRecordReturns | tools/efivars.py:102-140 | an old record left behind the place of a new one is found again, whatever the two are |
| VarStore.Enroll | tools/efivars.py:117-140 | enrolment succeeds exactly when the volume is recognised and everything fits; where the old records end aligned, the new variables read back after them with nothing behind if and only if nothing behind reads as a record, and then the records new in the store are as many as keys given: PK and KEK under the global vendor holding that one certificate, db under the image-security vendor holding every allowed one |
| VarStore.DatabaseHoldsEvery | tools/efivars.py:128-132 | the db variable holds every certificate given |
| VarStore.KeysAreFound | tools/efivars.py:123-132 | whatever records the variables are read from, names, vendors and certificates are those of the keys given, in order |
| VarStore.StoreIsFound | tools/efivars.py:78-99 | a store is found if and only if the volume has its signature and GUID and holds behind its header an authenticated store, formatted and healthy; its records start 28 bytes in and end with its size |
| Terminal.EraseShows | shell/main.c:255-260 | backspace, blank, backspace removes exactly the last character on screen |
| Terminal.PrintShows | shell/main.c:267 | printing appends on screen what was printed |
| History.Ring.Push | shell/hist/hist.c:17-37 | the ring's entries change as the list of entries should: no empties, no repeats, the oldest falling off |
| History.KeepsNewest | shell/hist/hist.c:17-37 | of non-empty lines without repeats in a row, the history is the newest 32 in order |
| History.Ring.Get | shell/hist/hist.c:41-45 | entry i counted from the oldest, nothing beyond |
| LineEditor.PressKeeps | shell/main.c:286-341 | a key keeps the length below capacity, the text printable, the history printable and the history index in range |
| LineEditor.Reader.Replace | shell/main.c:259-268 | buffer and screen both become the recalled text cut to capacity |
| LineEditor.Reader.Key | shell/main.c:289-340 | after every key the screen reads the buffer, and the state is what the key means |
| LineEditor.Reader.ReadLine | shell/main.c:286-341 | for every key sequence the line returned is the row that was on screen |
| LineEditor.TypeAndEnter | shell/main.c:286-341 | printable text typed and entered is the line returned |
| LineEditor.RecallsLast | shell/main.c:306-311 | one step up after entering a line shows it again |
| LineEditor.UpShows | shell/main.c:306-312 | any number of steps up shows the entry that far back, or the oldest |
| LineEditor.DownShows | shell/main.c:313-320 | a step down shows the entry one nearer, and past the newest an empty line |
| LineEditor.EraseTakesBack | shell/main.c:299-305 | backspace or delete takes back the character just typed |
| LineEditor.AbandonForgets | shell/main.c:325-333 | an abandoned line is empty and leaves the history alone, so that up recalls what it would have recalled |
| KernelLog.Log.PutC | kernel/lib/klog.c:42-46 | the ring holds the newest bytes of everything written |
| KernelLog.Log.PeekBack | kernel/lib/klog.c:77-86 | byte n counted from the newest, zero outside what is held |
| LogPager.WalkEnds | kernel/main.c:2354-2360 | the walk back ends on the break it wanted, or at the beginning when there are too few |
| LogPager.PageShown | kernel/main.c:2372-2378 | reading forward shows exactly the bytes between this walk's end and the previous page's |
| LogPager.PagesTile | kernel/main.c:2347-2379 | pages laid end to end are a suffix of the log, without gap or repeat |
| LogPager.FillsScreen | kernel/main.c:2349-2378 | a full page under the heading's two lines fills the screen but for one row; on fewer than four rows it is one line |
| LogPager.Pager.Press | kernel/main.c:2347-2379 | a press shows the next page back, or returns the desktop exactly when no full page is left |
| LogPager.Pager.PressToEnd | kernel/main.c:2347-2379 | all pages up to the desktop make up the end of the log, the whole of it exactly when there is less than a page or the breaks divide evenly and the log begins with one |

## Left out

- Everything that draws, probes hardware or drives an emulator, the kernel's remaining
  subsystems and the shell's language: outside the formats and protocols above.
- The A/B update protocol, the boot menu, framebuffer selection, Secure Boot status and the
  kernel's own hash check in the loader.
- The MBR around the SD card's boot partition: the reader expects a GPT, so the volume
  theorems take the partition's position as an argument.
- `tools/mkfat32.py` beyond its FAT sizing, the parsing and emitting of C text in
  `tools/mkmp3tables.py`, and its expected symbol counts per table.
- SHA-256, RSA and CRC-32: they enter as arbitrary functions. The PKCS#7 structure around the
  signature is one function of the hashed bytes.
- Reading and writing files: images are byte sequences, and upper-casing beyond ASCII is an
  argument.
- FatBuild.BuildBootPartition: volumes are bounded by 0x800000 sectors, where every
  offset and size still fits its 32-bit field.
- UefiDisk.BuildEsp: the same bound; the volume label and reserved-sector options keep their defaults.
- FatWriter.Fat32.WriteChain: a write past the end of the image is left out; there the
  original's buffer would grow.
- FatWriter.Fat32.AddDir: asks for trees whose records fit the chains reserved for them. What
  one overrunning directory does is stated by `OverrunSpoils`; the tree written after it is not
  followed further.
- FatWriter.Fat32.Descend: the same trees as AddDir.
- GptTables.TablesAreValid: disks of fewer than 2^64 sectors; the original cannot pack a larger
  sector number and raises.
- KernelImage.FindSpan: segments are taken to be linked inside the kernel's GiB; below or above
  it the 64-bit arithmetic would wrap.
- KernelImage.PlaceImage: the same, and file parts inside the blob and no longer than their memory.
- KernelImage.LoadKernel: program headers are taken to lie inside the blob and segments to be
  linked inside the kernel's GiB with file parts no longer than their memory, as the loader takes
  them; what it does otherwise is not modelled.
- Handoff.Step: descriptors are values, not bytes in the map buffer; descriptor size is fixed
  during a run.
- Handoff.AllocationsApart: the pool the map is read into is taken to be fresh whole pages of
  free memory; a pool allocation may share its first and last page with the firmware's.
- Backlight.Step: memory is sequentially consistent; acquire and release are taken at their word.
- HuffmanDecoder.BuildIndex: one table at a time; where each starts in the common array, also a
  16-bit field, is not modelled.
- HuffmanDecoder.ReadCode: one code at a time; escapes, signs and the frame around it are left out.
- Der.NestedRoundTrip: definite lengths whose own length fits seven bits, as the writer produces.
- VarStore.ExistingEnd: the limit is taken to lie inside the file; beyond it the original raises
  when it reads a record there.
- VarStore.Append: the same limit; beyond it the original's buffer would grow.
- VarStore.Enroll: the store is taken to lie inside its volume, for the same reason.
- LineEditor.Reader.Key: one byte is one cell and the line never wraps; a multi-byte character
  takes one cell per byte here.
- LogPager.Pager.Press: page arithmetic is unbounded, and the log does not change during a press.
