# Verified models of libmtp's algorithms

libmtp talks to media players. Most of it passes values on, but a few places hold algorithms whose
correctness rests on arguments that are nowhere written down. This project models those places in
Dafny and proves the arguments.

**Folder hierarchy** (`FolderForest`, `FolderTrail`, `FolderLoops`,
`FolderRecursion`, `FolderObjects`, `FolderList`). The folder list is built by
taking nodes out of a circular doubly linked list and reusing the two link fields for the tree,
while an outer loop holds an iterator into the same list. `FolderForest` says what a hierarchy is
(folders as values, handle order, unique, exactly the folders whose chain of parents reaches the
root), and `FolderLoops` which lists have one.
`FolderRecursion` follows the recursion on values for any list, repeated handles included. `FolderList` is the surgery on heap nodes, proved to give that hierarchy, to keep the circle
well formed, to end even when parents form cycles, and to free exactly the rest. `FolderObjects` says
what that means for the cached objects themselves: which of them are in the hierarchy, in which order,
and which are left over.

**USB bulk transport** (`Usb`, `Bytes`, `TransferProgress`, `BulkWrite`, `DataPhase`, `BulkRead`,
`Packets`, `Containers`, `Phases`, `Framing`, `Session`, `Terminators`, `PhaseCases`, `PhaseProgress`,
`Reports`, `UsbTransport`). `UsbTransport` holds the code as it
runs: a handler with a cursor, counters, an OUT endpoint that answers each write from a schedule of
short writes and errors, an IN endpoint that delivers packets, a packet kept back for the next
phase. Each of its methods is proved against a function of the other modules, and the theorems are
about those: what is on the wire after a data phase whatever short writes happen, byte by byte, what
the reader gets for every way a device frames a data container and its response, what becomes of
containers that are out of place, and every value that the progress callback sees. A transfer in ends with a short or zero-length packet (section 5.8.3 of the USB 2.0
specification).

**Playlists of Samsung devices** (`Text`, `Utf16`, `Decimal`, `SplText`,
`SplExact`, `SplPaths`, `SplLookup`, `SplSpelled`, `SplPlaylist`).
Printing and the streaming parser of `.spl` files (UTF-16LE behind a byte order mark, section 3.2 of
RFC 2781), the translation of track ids to paths and back over the folder hierarchy, and the round
trip through the file in whatever pieces `read` delivers it.

**Storages and the object cache** (`StableSort`, `StorageList`, `StorageChoice`, `Metadata`,
`UniqueName`, `PartialObject`, `Extensions`). The in-place sort of the storage list and the choice of
a storage, the grouping of the flat property list, the search for a free file name, partial reads,
and the extension descriptor.

**Searches and strings** (`PathUtils`, `PathSpelled`, `Strip`). The path search that skips subtrees, and the
in-place removal of everything that is not ASCII.

Text is a sequence of 16-bit code units, handles are 32-bit values, and a C string's terminator is
written out where code looks at it. What the device, the USB layer and the user answer is a
parameter. Fixed C buffers are explicit length preconditions.

## Where the code does less than it should

The models keep the code as it is; each of these is proved, with the exact condition.

- `ptp_usb_senddata` never looks at how much of its first write got out. After a short write it can
  succeed with bytes missing exactly when that write takes more than one block, that is, when 12
  bytes plus the inline payload are more than a packet and not a whole number of packets
  (`DataPhase.NeverLosesExactly`).
- `discover_id_from_filepath` documents 0 as failure. It keeps to that on a path exactly when there is a
  file at the path, or the lookup ends at the top and no file there has the last name
  (`SplLookup.DocumentedExactly`); 0 comes out exactly when the path has no folders or its last
  folder is missing, and no file at the top has the last name (`SplLookup.ZeroExactly`). A missing
  file in an existing folder gives that folder's id (`SplLookup.MissingFile`); a missing folder in
  front of the path of a file gives that file (`SplLookup.WrongFile`).
- A line written to a playlist comes back exactly when none of its code units is zero or holds a byte
  0x0D or 0x0A, which the reader takes for an end of line wherever it stands, as in U+010D
  (`SplExact.LineExactly`, and for whole files `SplExact.ReadBackExactly`).
- `ptp_usb_getresp` reads one packet. A response that ends like any other transfer is read completely
  exactly when it is shorter than a packet (`Framing.ResponseExactly`).
- `LIBMTP_GetPartialObject` cuts a request to the end of the file exactly when offset plus count does
  not wrap around 64 bits (`PartialObject.ClampInside`).
- `get_all_metadata_fast` counts one object too few exactly when the first handle is 0xffffffff; its
  second pass would then start at index -1 (`Metadata.RunsAreChanges`).
- `generate_unique_filename` tries suffixes up to 1000000 in a buffer for four digits. It never
  overruns the buffer exactly when one of the suffixes up to 9999 is free
  (`UniqueName.NeverOverrunExactly`), as one is with up to 9999 cached objects
  (`UniqueName.SuffixBound`).
- With only the 32-bit operation, repeated partial reads rebuild a file exactly when the offset of the
  last request is below 2^32 (`PartialObject.RebuiltExactly`). That offset is known beforehand
  (`PartialObject.LastOffsetExactly`): without the Samsung bug it is the last multiple of the
  request size inside the file, with it the steps may be one byte shorter, and the last byte of the
  file may be asked for on its own.
- The recursion over the folder list ends exactly when no chain of parents from the root comes back to
  itself (`FolderRecursion.RecursionEndsExactly`).
- A response glued on to its data is found exactly when the packet is not full
  (`Framing.GluedExactly`).
- On devices flagged against zero-length packets, the terminator byte behind a payload is read away
  exactly when the device is read in alternating blocks or the payload is not a whole number of
  blocks; otherwise it is left in front of the response (`Terminators.SplitTerminated`).
- `lookup_folder_id` returns 0 for a nameless folder at the top (`PathUtils.OwnPath`).

## Model

| member | source | states |
|---|---|---|
| FolderForest.ElemsAreReachable | src/libmtp.c:7526-7537 | the hierarchy holds exactly the folders whose chain of parents reaches the root, so parent cycles stay out |
| FolderForest.ForestUnique | src/libmtp.c:7469-7480 | the list and the root determine the hierarchy, including the order of siblings at every level |
| FolderLoops.ForestExists | src/libmtp.c:7414-7447 | a list has a hierarchy below a root if and only if no chain of parents from the root repeats a handle or the root's |
| FolderRecursion.RecursionEndsExactly | src/libmtp.c:7414-7447 | for every list and root, repeated handles included: the recursion ends, at a depth of at most the number of folders, if and only if no chain of parents comes back to itself; else no depth is enough |
| FolderRecursion.NeverLost | src/libmtp.c:7426-7429 | no deeper call ever takes the node that a caller stands on, however handles repeat |
| FolderRecursion.TakesExactly | src/libmtp.c:7414-7447 | a run that ends has taken exactly the nodes whose chain of parents reaches the root |
| FolderRecursion.TreeOfTaken | src/libmtp.c:7438-7443 | the tree holds each node taken once, below a folder that it names as its parent |
| FolderLoops.DistinctLoops | src/libmtp.c:7414-7447 | with distinct handles the only way to loop is a folder within reach that has the root's own handle |
| FolderLoops.RepeatedHandle | src/libmtp.c:7426-7429 | two siblings may share a handle and still form a hierarchy; a folder that repeats its own parent's handle belongs to none |
| FolderForest.FindFolder | src/libmtp.c:7388-7409 | what the search returns is a folder of the hierarchy with the id asked for |
| FolderForest.FindFolderExact | src/libmtp.c:7388-7409 | with distinct ids the search finds a folder if and only if it is there under that id |
| FolderList.Unlink | src/libmtp.c:7434-7436 | removing a node leaves a well-formed circle of the others |
| FolderList.Attach | src/libmtp.c:7434-7443 | the removed node becomes the tree node in front of its siblings, with its children below it, and the circle holds the rest |
| FolderList.Extract | src/libmtp.c:7426-7443 | the iterator held across the recursion is still on the shortened circle and stands where it should |
| FolderList.GetSubfoldersForFolder | src/libmtp.c:7414-7447 | terminates; returns exactly the hierarchy below the parent in handle order, and leaves a well-formed circle of exactly the other nodes |
| FolderList.InsertFront | src/libmtp.c:7519-7523 | front insertion keeps the circle well formed |
| FolderObjects.ListedSelects | src/libmtp.c:7482-7516 | the folders listed have the handle, parent, storage and name of the associations of the storage asked for, all of them, in the order of the cache |
| FolderObjects.RootWritten | src/libmtp.c:7526-7537 | the root is 0 if an association of the storage has parent 0, else 0xffffffff |
| FolderObjects.HierarchyOfObjects | src/libmtp.c:7481-7537 | in the fields of the objects alone: a folder is in the hierarchy if and only if it is that of an association of the storage at the end of a line of such objects, each one's parent the handle before it, from the root |
| FolderObjects.ObjectsInOrder | src/libmtp.c:7469-7480 | objects with the same parent stand in the hierarchy in the order of the cache |
| FolderList.CollectFolders | src/libmtp.c:7481-7524 | the temporary list holds the folders of the storage, in reverse handle order, with the fields of their objects |
| FolderList.GetFolderListForStorage | src/libmtp.c:7457-7554 | for distinct handles and whenever there is a hierarchy at all: the result is that of the storage's folders below root 0, or below the wrong root if there is nothing; ids occur once; the rest, in order, is unlinked. In the fields of the objects: a folder is in the result if and only if it is that of an association of the storage that a line of such objects leads to from the root; siblings come in the order of the cache; what is left over are the associations that hang from nowhere |
| FolderList.FreeOrphans | src/libmtp.c:7539-7551 | exactly the nodes left on the circle are unlinked and the extracted hierarchy is not touched |
| FolderTrail.TrailFinds | src/playlist-spl.c:783-796 | the trail to an id exists when the search finds a folder and ends in that folder |
| FolderTrail.TrailIsChain | src/playlist-spl.c:688-700 | going up by parent id from a folder of the hierarchy stays in it and ends at the root after as many steps as the folder is deep |
| StableSort.SortedIsStable | src/libmtp.c:3046-3056 | storages with equal keys keep their order |
| StableSort.SortedIsPermutation | src/libmtp.c:3046-3086 | no storage is lost, repeated or invented |
| StableSort.SortedDescends | src/libmtp.c:3046-3086 | keys never increase along the result |
| StorageList.FindLargest | src/libmtp.c:3047-3056 | the inner loop finds the first storage with a largest key |
| StorageList.Detach | src/libmtp.c:3058-3076 | cutting a storage out leaves a well-formed list of the others with their keys |
| StorageList.Append | src/libmtp.c:3078-3085 | the storage becomes the tail of the new list although its own next link is stale |
| StorageList.SortedWritten | src/libmtp.c:3044-3056 | criterion 1 gives descending free space, criterion 2 descending capacity, any other changes nothing |
| StorageList.MtpDevice.SortStorageBy | src/libmtp.c:3033-3096 | terminates; the list is well formed at both ends and holds the original nodes in stable order of descending free space or capacity, or as they were |
| StorageChoice.GetStorageFreespace | src/libmtp.c:3194-3231 | refreshes the cached description from the device; succeeds exactly when the device answers and the space is known |
| StorageChoice.CheckIfFileFits | src/libmtp.c:3873-3897 | success if and only if the device cannot be asked, or it answers, knows its free space and has that much |
| StorageChoice.GetWriteableStorageId | src/libmtp.c:3105-3156 | the first storage that is neither ROM nor read-only, has a logical part, and takes the file; failure only if there is none; which cached descriptions change |
| StorageChoice.ChoiceIsRoomiest | src/libmtp.c:3118-3145 | the first storage of the sorted list that can take the file has the most free space among writable storages with known free space |
| StorageChoice.FailureMeansFull | src/libmtp.c:3146-3151 | when no storage of the list can take the file, no writable storage with known space is large enough |
| StorageChoice.ChooseRoomiest | src/libmtp.c:3033-3156 | sorting the list by free space and then choosing returns the storage with the most known free space among writable ones, and the file fits; failure means that none is large enough; the list stays well formed and no description changes |
| PhaseProgress.CallsDisciplined | src/libusb1-glue.c:836-1160 | over any sequence of read and write calls, whatever becomes of them: nothing reported is taken back, values stay in order and within the total, and after the total no callback follows |
| PhaseProgress.SendDataDisciplined | src/libusb1-glue.c:1304-1375 | the same over a whole data phase out, from the announcement of the total on |
| PhaseProgress.GetDataDisciplined | src/libusb1-glue.c:1409-1590 | the same over a whole data phase in, however it ends |
| PhaseProgress.GetRespDisciplined | src/libusb1-glue.c:1592-1655 | the same over a response phase |
| BulkWrite.WriteFuncOrderly | src/libusb1-glue.c:1108-1131 | a write call keeps the callback discipline, silence after the total included |
| Reports.CountsAt | src/libusb1-glue.c:1115-1126 | each report is the number of bytes so far, or the total |
| Reports.CountsEnd | src/libusb1-glue.c:1115-1126 | the last report is the count of all bytes or the total; the total is reported if and only if the count reached it; below it every block made one report |
| Reports.WriteTold | src/libusb1-glue.c:1075-1160 | a write call, however it ends, makes one report for each block that got out whole, of at most 0x4000 bytes and whole packets; it is cancelled exactly at the report the user refuses |
| Reports.ReadTold | src/libusb1-glue.c:872-992 | a read call makes one report for each block that came; a successful one got its bytes in blocks of 0x4000 bytes, or of the two iRiver sizes in turn, and a last one |
| Reports.CallsReported | src/libusb1-glue.c:836-1160 | over any sequence of successful calls that moved anything: the last report is the count of all bytes or the total, and the total is reported if and only if it was reached |
| Reports.SendDataReported | src/libusb1-glue.c:1304-1375 | after a successful data phase the last report is the number of bytes that got out, header included, so the total was seen if and only if nothing is missing |
| BulkWrite.WriteFails | src/libusb1-glue.c:1093-1107 | a write call ends with an I/O error if and only if the USB layer reported an error |
| DataPhase.SendDataFails | src/libusb1-glue.c:1350-1375 | so does a whole data phase, which otherwise succeeds or is cancelled |
| BulkWrite.LoopProgress | src/libusb1-glue.c:1075-1134 | a successful call sent everything or stopped after whole packets, and the last block decides the remainder |
| BulkWrite.LoopCounts | src/libusb1-glue.c:1108-1120 | within the announced total the counter is the number of bytes sent |
| BulkWrite.CallInPhase | src/libusb1-glue.c:1140-1155 | inside a phase a zero-length write follows a call exactly when the phase ends there on a packet boundary |
| BulkWrite.OneBlockComplete | src/libusb1-glue.c:1079-1087 | a write of one block is complete or reports an error |
| BulkWrite.SplitBlockLoses | src/libusb1-glue.c:1132-1133 | otherwise one short write loses the tail without an error |
| DataPhase.RestComplete | src/libusb1-glue.c:1357-1371 | the rest of a payload that is reported sent is sent, with the one zero-length write that is due |
| DataPhase.SendDataComplete | src/libusb1-glue.c:1304-1375 | a data phase reported as sent has header and payload on the wire, and a zero-length write at its end exactly when the final part fills its packets |
| DataPhase.UnsplitZeroWrite | src/libusb1-glue.c:1336-1338 | for unsplit headers in whole packets that is exactly when 12 plus the size is a whole number of packets |
| DataPhase.NeverLosesExactly | src/libusb1-glue.c:1350-1356 | no behaviour of the USB layer loses bytes silently if and only if the header write is a single block |
| BulkRead.NextRequest | src/libusb1-glue.c:868-899 | every request is positive, fits the 0x4000 buffer even with the terminator byte, and for iRiver devices is one of the two block sizes |
| BulkRead.ReadFuncOrderly | src/libusb1-glue.c:940-961 | a read call keeps the callback discipline, silence after the total included |
| BulkRead.BlockSizesAlternate | src/libusb1-glue.c:881-895 | for iRiver devices the block sizes alternate over the whole call and the branch for an unexpected size is never taken |
| BulkRead.LastRequestIsShort | src/libusb1-glue.c:873-880 | if everything was read, the last request went through the last-packet branch that cares for terminators, with at least 0x200 bytes left when there was more than one |
| Packets.GatherShort | src/libusb1-glue.c:901-906 | a request for more than a transfer holds ends with its short packet |
| Packets.GatherPackets | src/libusb1-glue.c:901-906 | a request for whole packets that are there is filled and leaves the rest of the transfer |
| Packets.RequestWhole | src/libusb1-glue.c:873-899 | every request but the last is a whole number of packets, in one block size or in two alternating ones |
| Packets.LoopCollects | src/libusb1-glue.c:872-965 | the read loop takes a transfer in order up to the size wanted and leaves the queue behind it |
| Containers.HeaderFields | src/libusb1-glue.c:1322-1326 | length, type, code and transaction of a header are read back as they were written |
| Containers.WordAt | src/libusb1-glue.c:1649-1653 | each parameter is read back as it was written |
| Containers.HeaderFramed | src/libusb1-glue.c:1322-1326 | whatever the values: the fields hold their low 32 or 16 bits at offsets 0, 4, 6 and 8, and what follows starts at 12 |
| Containers.RequestFramed | src/libusb1-glue.c:1267-1277 | a request announces its own length, is of type 1, and holds its parameters from offset 12 on |
| Bytes.FourBytes | src/libusb1-glue.c:1322 | fields are little-endian |
| Phases.GetPacket | src/libusb1-glue.c:1377-1407 | a packet kept back is used up first; every read that succeeds leaves less to come |
| Framing.TogetherData | src/libusb1-glue.c:1455-1486 | header and data in one transfer: the handler gets the payload |
| Framing.BareData | src/libusb1-glue.c:1464-1466 | a container of exactly one packet without a zero-length packet behind it |
| Framing.SplitData | src/libusb1-glue.c:1525-1581 | a header on its own, then the payload; the split is noted for later phases |
| Framing.GluedData | src/libusb1-glue.c:1487-1516 | a response in the data's packet is kept back for the response phase |
| Framing.GluedExactly | src/libusb1-glue.c:1455-1516 | if and only if the packet they share is not full |
| Framing.ResponseRead | src/libusb1-glue.c:1592-1655 | a response that fits a packet is decoded with all parameters, behind an empty packet or kept back |
| Framing.ResponseExactly | src/libusb1-glue.c:1592-1655 | a response that ends like any transfer is read completely if and only if it is shorter than a packet |
| Framing.Exchange | src/libusb1-glue.c:1409-1655 | whatever the framing, the handler gets exactly the payload and the response that follows is decoded, and later traffic is not touched |
| Session.SessionDelivered | src/libusb1-glue.c:1409-1655 | over any number of exchanges, each framed in its own way, every payload and response comes out whole and in order, whatever earlier phases found out about split headers |
| PhaseCases.NothingCame | src/libusb1-glue.c:1423-1427 | when nothing comes, too much, or the user cancels at the first packet: both phases end with an I/O error and nothing is handed out |
| PhaseCases.DataRejected | src/libusb1-glue.c:1428-1454 | another container where data was due, or data of another operation unless headers are ignored, is used up, nothing of it reaches the handler, and the error is the one the code names |
| PhaseCases.AnyOperation | src/libusb1-glue.c:1432-1441 | with headers ignored the operation code makes no difference |
| PhaseCases.SurplusDecided | src/libusb1-glue.c:1487-1516 | what stands behind the container in a short packet is kept from 12 bytes on and dropped below, and the payload comes out either way |
| PhaseCases.BehindTaken | src/libusb1-glue.c:1530-1560 | between header and payload a terminator byte or an empty packet is read away exactly where the flags say so |
| PhaseCases.ResponseDecided | src/libusb1-glue.c:1615-1648 | for every container in place of the response: which error, or the code with the transaction of the header, which is put right if headers are ignored |
| PhaseCases.ZerosSkipped | src/libusb1-glue.c:1606-1613 | a short packet of zeros in front of the response is read over |
| Terminators.LoopTerminated | src/libusb1-glue.c:872-965 | on devices flagged against zero-length packets the read loop hands on the payload without its terminator byte, and leaves the terminator exactly when it was not asked for |
| Terminators.SplitTerminated | src/libusb1-glue.c:1525-1588 | so does the data phase with a header of its own; the response is next if and only if the device is read in alternating blocks or the payload is no whole number of blocks |
| UsbTransport.MemHandler.GetFunc | src/libusb1-glue.c:1168-1182 | hands out the next bytes, fewer at the end, and moves the cursor past them |
| UsbTransport.MemHandler.PutFunc | src/libusb1-glue.c:1184-1197 | writes at the cursor, grows if needed, and keeps what is behind |
| UsbTransport.PtpUsb.WriteBlock | src/libusb1-glue.c:1093-1113 | a block goes out byte for byte in order over any short writes |
| UsbTransport.PtpUsb.PtpWriteFunc | src/libusb1-glue.c:1057-1160 | the call is the specified one: bytes on the wire, zero-length writes, counters, handler cursor and result; the reports are the counts after each block on the wire, and an I/O error means that the USB layer reported one |
| UsbTransport.PtpUsb.SendReq | src/libusb1-glue.c:1256-1302 | success means that the request is on the wire, field by field; cancelling is passed on, and any other failure is an I/O error |
| UsbTransport.DataHeader | src/libusb1-glue.c:1322-1326 | the header of a data phase announces 12 + size bytes, is of type 2, and holds code and transaction in their places |
| UsbTransport.PtpUsb.SendPhase | src/libusb1-glue.c:1304-1375 | the data phase is the specified one for every behaviour of the USB layer, errors included |
| DataPhase.OnlyFirstCutShort | src/libusb1-glue.c:1350-1371 | whatever the USB layer does, a phase that reports success lacks at most bytes at the end of its first write |
| UsbTransport.PtpUsb.SendData | src/libusb1-glue.c:1304-1375 | the phase is the specified one for every behaviour of the USB layer; success puts header and payload on the wire but for at most the end of the header write; if that write is one block, exactly header and payload, then one zero-length write if and only if the final part fills its packets. Byte by byte: length 12 + size at 0, type 2 at 4, the code at 6, the transaction at 8, the payload from 12 on. The last report is what the wire carries, and an I/O error means that the USB layer reported one |
| UsbTransport.PtpUsb.PtpReadFunc | src/libusb1-glue.c:836-992 | the call is the specified one: what the handler gets, what is left to read, counters and result; the reports are the counts after each block that reached the handler |
| UsbTransport.PtpUsb.GetPacket | src/libusb1-glue.c:1377-1407 | the packet kept back or the next one, as specified |
| UsbTransport.PtpUsb.TakeSurplus | src/libusb1-glue.c:1487-1527 | what comes behind the container is kept if it can be a packet, else dropped; a lone header is noted |
| UsbTransport.PtpUsb.GetData | src/libusb1-glue.c:1409-1590 | the data phase in is the specified one, for which the framing theorems hold |
| UsbTransport.PtpUsb.GetResp | src/libusb1-glue.c:1592-1655 | the response phase is the specified one |
| Utf16.DecodeEncode | src/playlist-spl.c:473 | code units written as two bytes are read back |
| SplText.Ucs2Strlen | src/unicode.c:59-66 | counts the units before the first terminator |
| SplText.TakeByte | src/playlist-spl.c:371-421 | one byte moves the line buffer and the list on as specified; the buffer never overflows |
| SplText.ReadIntoSplText | src/playlist-spl.c:327-440 | the lines are those of the whole file, whatever pieces read delivers |
| SplText.WriteFromSplText | src/playlist-spl.c:451-497 | the file is the byte order mark and each line up to its terminator, closed by carriage return and line feed |
| SplText.FeedConcat | src/playlist-spl.c:424-431 | stopping anywhere and going on with the partial line is the same as reading in one go |
| SplText.FeedLine | src/playlist-spl.c:381-410 | a written line comes back whole, and the line feed after it makes no line of its own |
| SplText.PrintParse | src/playlist-spl.c:327-497 | reading what was written gives the lines again, without empty ones and byte order marks |
| SplExact.ReadLinesClean | src/playlist-spl.c:371-421 | no line read from any file holds a terminator or an end-of-line byte |
| SplExact.ReadBackExactly | src/playlist-spl.c:327-497 | the lines written come back if and only if none of their units is zero or holds an end-of-line byte |
| SplExact.PrintWritten | src/playlist-spl.c:451-497 | the file byte by byte: FF FE, and for each line its units up to a zero, low byte first, then 0D 00 0A 00 |
| SplExact.KeptSurvive | src/playlist-spl.c:388-410 | what comes back of lines: the first, and all that are not empty, in order, without a byte order mark except in the first |
| SplExact.LongLineDropped | src/playlist-spl.c:413-421 | 3073 bytes without an end of line are dropped, fewer stay in the buffer |
| SplExact.LineExactly | src/playlist-spl.c:327-497 | the same for a file of one line |
| SplPaths.FindFolderId | src/playlist-spl.c:808-830 | an id other than 0 is that of a folder with the name under the parent |
| SplLookup.FindFolderIdExact | src/playlist-spl.c:808-830 | with unique names every folder is found by parent and name |
| SplPaths.DiscoverFilepathFromId | src/playlist-spl.c:661-708 | fills the buffer from the right without leaving it, ends, and returns the path, or nothing when the climb cannot reach the top |
| SplPaths.HasPath | src/playlist-spl.c:675-707 | a file has a path if and only if it lies at the top or its parent is in a hierarchy built from root 0 |
| SplPaths.DiscoverIdFromFilepath | src/playlist-spl.c:722-771 | cutting the copy in place and walking its parts is the specified lookup |
| SplSpelled.PathExactly | src/playlist-spl.c:661-708 | a track has a path if and only if the first file with its id lies at the end of a way of folders from handle 0 down, and it is a backslash and a name for each of them and the file |
| SplSpelled.PartsSpell | src/playlist-spl.c:730-741 | the parts of a path hold no backslash and spell it again |
| SplSpelled.FileNamedIsFirst | src/playlist-spl.c:744-753 | of several files with the name in the folder the first of the list is found |
| SplSpelled.FirstFolderFound | src/playlist-spl.c:808-830 | of several folders with the name the first is found, a level before what is below it |
| SplSpelled.NotAPath | src/playlist-spl.c:727-728 | what does not start with a backslash gives 0 |
| SplLookup.LookupExactly | src/playlist-spl.c:722-771 | on every path: the file with the last name in the folder reached, else that folder |
| SplLookup.ReachedExactly | src/playlist-spl.c:742-763 | on every path: the folder reached is the end of a way of existing folders from the top, after everything up to the last missing folder was dropped |
| SplLookup.ZeroExactly | src/playlist-spl.c:719-771 | 0 comes out if and only if the path has no folders or the last one is missing, and no file at the top has the last name |
| SplLookup.DocumentedExactly | src/playlist-spl.c:711-771 | exactly when 0 means what the documentation says, that there is no file at the path |
| SplLookup.LookupInFolder | src/playlist-spl.c:742-763 | a path of existing folders and a name gives the file of that name in the last folder, else that folder |
| SplLookup.PathRoundTrip | src/playlist-spl.c:661-771 | the path of a file leads back to its id |
| SplLookup.MissingFile | src/playlist-spl.c:744-770 | a missing file in an existing folder is reported by 0 exactly when that folder is the top |
| SplLookup.MissingFolder | src/playlist-spl.c:757-759 | a missing folder and everything in front of it are passed over |
| SplLookup.WrongFile | src/playlist-spl.c:757-759 | a missing folder in front of the path of a file gives that file, though nothing is at the path |
| SplPaths.ListedIsSound | src/libmtp.c:7457-7554 | every hierarchy the folder list returns meets what the path functions need |
| SplPlaylist.VersionsWritten | src/playlist-spl.c:605-606 | what the version line says, for the versions in use and for numbers that come out wide or negative |
| SplPlaylist.SplTextFromTracks | src/playlist-spl.c:588-645 | line by line: name, version, an empty line, the paths of the tracks that have one in order, an empty line, the end mark, and for version 2 the DNSe part |
| SplPlaylist.TrackNo | src/playlist-spl.c:539-547 | the count is the number of entries that TracksFromSplText stores |
| SplPlaylist.TracksFromSplText | src/playlist-spl.c:561-575 | an array of that size is filled exactly, with the ids of the lines that start with a backslash, in order |
| SplPlaylist.PlaylistToSpl | src/playlist-spl.c:205-217 | the bytes stored for a playlist: FF FE and the lines of the playlist in that order, each with 0D 00 0A 00 behind it; the version line fits its buffer |
| SplPlaylist.SplToPlaylist | src/playlist-spl.c:152-165 | the tracks read from a file, in pieces of any size, are those of its lines |
| SplPlaylist.PlaylistRoundTrip | src/playlist-spl.c:539-645 | writing and reading back gives the original track ids without those that have no path, in order |
| PathUtils.PruningIsSafe | examples/pathutils.c:31-59 | skipping subtrees never changes the answer: it is the first of all folders whose full path matches without regard to case |
| PathUtils.MatchesItself | examples/pathutils.c:44-50 | with slash-free names that differ between siblings, a full path matches its own folder only |
| PathUtils.OwnPath | examples/pathutils.c:31-59 | looking up a folder's full path gives its id, except for the path of the root |
| PathUtils.ParsePath | examples/pathutils.c:62-114 | the loops find the first file that matches, by number, name, folder path or file path |
| PathSpelled.FoldExactly | examples/pathutils.c:44-50 | two texts compare equal if and only if they differ at most in the case of ASCII letters |
| PathSpelled.FullPathsExactly | examples/pathutils.c:41-57 | the full paths are a slash and a name for each folder of a way from the root down, and stand for the last of them |
| PathSpelled.FileLikeIsFirst | examples/pathutils.c:71-82 | the file found is the first of the list with the name, whatever the case |
| PathSpelled.NumberOrName | examples/pathutils.c:68-84 | without a slash in front: the number unless it is zero, else the first file of that name in any folder, else 0 |
| PathSpelled.FolderOrFile | examples/pathutils.c:85-113 | with one: the folder of that path, else the first file of the last name in the folder before it, else 0xffffffff |
| PathSpelled.EndSlashes | examples/pathutils.c:90-91 | slashes at the end of a path change neither its folder nor its name |
| PathUtils.FileByPath | examples/pathutils.c:86-107 | a file is found under its folder's path and its name, unless a folder goes by that path |
| Strip.Strip7bitFromUtf8 | src/unicode.c:154-176 | the string in the buffer becomes its stripped form in place; what is behind its new terminator is not touched |
| Strip.Stripped | src/unicode.c:154-176 | the result is ASCII and not longer than the string |
| Strip.RunBecomesOne | src/unicode.c:161-167 | a maximal run of high bytes becomes one underscore |
| Strip.PlainStays | src/unicode.c:168-171 | ASCII stays as it is |
| Strip.StripTwice | src/unicode.c:146-153 | a second pass changes nothing, and only ASCII strings are left alone |
| Metadata.PTPParams.GetAllMetadataFast | src/libmtp.c:2749-2819 | the index never leaves the array, which is filled exactly: one object for each run of handles, in order, each holding what its run says (ObjectDescribed) |
| Metadata.PTPParams.CountObjects | src/libmtp.c:2749-2756 | the first pass counts the changes of handle |
| Metadata.RunsAreChanges | src/libmtp.c:2749-2775 | both passes agree on the number of objects if and only if the first handle is not 0xffffffff |
| Metadata.RunsPartition | src/libmtp.c:2765-2776 | the runs are the property list cut up, nothing lost or moved; one handle in each, different ones in neighbours |
| Metadata.ObjectDescribed | src/libmtp.c:2766-2819 | the finished object of a run, by property codes: the values of the last properties 0xDC0B, 0xDC01, 0xDC02 and 0xDC04 or zero, the last name there is, else "<null>" unless it is the last object, all other properties in order, and the four marks |
| Metadata.CollectIsLatest | src/libmtp.c:2774-2812 | object k has run k's handle, the last value of every core field, and all other properties of the run in order |
| Metadata.CollectMarks | src/libmtp.c:2777-2810 | the marks of an object say which properties it was given |
| UniqueName.CheckFilenameExists | src/libmtp.c:5689-5702 | a name is taken if and only if some object has it |
| UniqueName.GenerateUniqueFilename | src/libmtp.c:5710-5736 | the name is not taken; it is the one asked for or carries the least free suffix; the buffer holds every candidate tried |
| UniqueName.CandidateSpelled | src/libmtp.c:5725 | underscore and number go between the name and the last dot |
| UniqueName.CandidatesDiffer | src/libmtp.c:5725 | different suffixes give different names, none equal to the original |
| UniqueName.BufferHolds | src/libmtp.c:5724 | the buffer holds exactly the suffixes up to 9999 |
| UniqueName.NeverOverrunExactly | src/libmtp.c:5724-5729 | every suffix that is tried fits the buffer if and only if one of the suffixes up to 9999 is free |
| UniqueName.SomeSuffixFree | src/libmtp.c:5726-5729 | one of as many suffixes as there are objects is free |
| UniqueName.SuffixBound | src/libmtp.c:5723-5729 | the suffix is at most the number of objects |
| PartialObject.GetPartialObject | src/libmtp.c:9240-9304 | the part of the file, an empty part at the end, or the error, in the order the code checks |
| PartialObject.PartialAnswers | src/libmtp.c:9240-9304 | for every device, file, offset and count: no such object, nothing behind the end, not supported, offset too large, or the bytes from the offset on, as many as asked for or left, up to the byte held back |
| PartialObject.ClampInside | src/libmtp.c:9261-9263 | the cut keeps a request inside the file if and only if the 64-bit sum does not wrap |
| PartialObject.RequestExact | src/libmtp.c:9255-9282 | the request is what was asked for or is left, up to one byte held back, and never empty before the end |
| PartialObject.ShortenExactly | src/libmtp.c:9268-9282 | one byte is held back exactly when header and data would fill whole packets |
| PartialObject.NeverWholePackets | src/libmtp.c:9268-9282 | on flagged devices header and data never fill whole packets |
| PartialObject.ReadOnExactly | src/libmtp.c:9240-9304 | going on at the offset just reached ends, and rebuilds the file if and only if the device takes the offset of the last request |
| PartialObject.LastOffsetExactly | src/libmtp.c:9256-9282 | that offset in closed form for every device, the Samsung bug included |
| PartialObject.RebuiltExactly | src/libmtp.c:9240-9304 | a file is rebuilt if and only if it is empty, the device has the 64-bit operation, or that offset is below 2^32 |
| PartialObject.LastOffsetPlain | src/libmtp.c:9256-9264 | without the Samsung bug it is the last multiple of the request size inside the file |
| PartialObject.LastOffsetFlagged | src/libmtp.c:9268-9282 | with it, not so: the last byte of a file of 500 bytes is asked for on its own |
| PartialObject.ReadOnRebuilds | src/libmtp.c:9290-9300 | files up to 2^32 bytes are always rebuilt, files longer by a whole request never with 32-bit offsets |
| PartialObject.LongFileRebuilt | src/libmtp.c:9290-9300 | a file longer than 2^32 bytes can be rebuilt with 32-bit offsets |
| Decimal.ScanPrinted | src/libmtp.c:1882-1883 | a printed number is scanned back, up to what follows it |
| Decimal.HighestFirst | src/libmtp.c:5725 | decimal digits, the highest first, without leading zeros |
| Decimal.DigitsInjective | src/libmtp.c:5725 | two numbers never print alike |
| Extensions.MtpDevice.ParseExtensionDescriptor | src/libmtp.c:1847-1911 | appends the described extensions in order; the two cursors end |
| Extensions.MtpDevice.StoreElement | src/libmtp.c:1868-1904 | appends the extension of one element, or nothing if it describes none |
| Extensions.PrintedIsDescribed | src/libmtp.c:1847-1911 | parsing a printed list of extensions gives exactly the list |
| Extensions.ListSpelled | src/libmtp.c:1857-1886 | an extension reads name, ": ", major, ".", minor, and "; " follows |
| Extensions.MajorOnly | src/libmtp.c:1884-1887 | a major number alone is a version with minor 0 |
| Extensions.Undescribed | src/libmtp.c:1874-1898 | an element without a colon, or without a number behind it, describes nothing |
| Extensions.ElementsIndependent | src/libmtp.c:1858-1910 | terminated elements are read independently, and an unterminated tail is ignored |

## Left out

- FolderList.GetFolderListForStorage: demands distinct folder handles, as the object cache that it reads is keyed by them. FolderRecursion says for any list what is taken and that it ends, but there on values, without the links. That no chain of parents comes back to itself is no restriction (ForestExists).
- The libusb and openusb backends, device probing, endpoint discovery, stalls, resets and events; the other two transport files repeat the same transfer algorithm.
- Draining the device after the user cancels a read (`ptp_read_cancel_func`): the phases end with the cancellation.
- A handler that fails or runs dry in the middle of a call; the memory handler always supplies what is announced.
- The terminator byte of flagged devices when header and payload come in one transfer, or when the container is one packet long; the code does not handle these uniformly.
- A data phase whose first packet is shorter than a header, or is not full and announces less than a header: the C code subtracts below zero there, and here the phase returns an undefined result. A full packet is read on from, whatever it announces.
- A zero-length read while a data packet waits is taken to leave the packet alone.
- Transfer totals near the largest 64-bit value, where the sum with the header length wraps.
- Packet sizes up to 12 bytes, which hold no more than a header, or larger than the container structure of 1024 bytes in the framing theorems, and sizes that do not divide the block size.
- SplPlaylist.PlaylistRoundTrip: demands lines that survive being written, which by ReadBackExactly is what it takes.
- Metadata.PTPParams.GetAllMetadataFast: demands that the first handle is not 0xffffffff, without which the C code writes in front of its array (RunsAreChanges).
- The code conversion between UTF-8 and UTF-16: text is counted in code units, in the path and line buffers as well.
- Folders without a name and files without a name: every folder and file of the path lookups has one.
- Temporary files, seeking, failed reads and writes of the local file system, and running out of memory.
- Playlist names, parents and the object that is created for a playlist; updating a playlist in place.
- Versions that an `int` cannot hold: numbers in an extension descriptor are not cut to 32 bits.
- The number that strtoul makes of a path without a leading slash is a parameter of ParsePath.
- UniqueName.GenerateUniqueFilename: demands a name with an extension when the name is taken, and a free suffix up to 9999; without them the C code leaves its buffers.
- SplPaths.DiscoverFilepathFromId: demands that the path fits the buffer of 1024 cells, which the C code does not check.
- Sorting the object cache after it was filled (`ptp_objects_sort`), and fetching it object by object.
- The error stack, debug output, property-sending switches, type tables, constructors and destructors, MTPZ and the other example programs: long, but nothing to prove.
