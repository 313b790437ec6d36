# Verification of the Tektronix 4404 tools

These Dafny files model the algorithmic parts of a set of tools for the Tektronix
4404 and its UniFLEX system, and prove what those parts are for:

* **Object files.** `Loader` says what relocation records mean. `RcatLoading`, `Rcat`
  and `RcatMain` model the concatenation of units, `SymbolIndex` and `Dependence` the
  symbol index and the dependency closure, `Elf` and `RelocOrder` the conversion from
  ELF. Both transformations keep what a loader would produce.
* **File system.** `Bitmap`, `BlockTree`, `Defrag` and `DiskCheck` model the block map
  and the check of all block trees, `Allocator` the search for free runs, `Moves` the
  moving of all candidates, `BlockIterator` the lazy iterator and its agreement with the
  walk.
* **Archives.** `TarFormat` is the header, `Tar` the blocked tape layer, the writer and
  the reader, up to the round trip.
* **Windows and terminal.** `Rects` and `Wmgr` model rectangle subtraction, the window
  stack and painting; `VtEmu` the scrolling screen, which refines an unbounded
  transcript.
* **Network daemons.** `NfsPaths` is the pool of path components behind file handles,
  `ReadDir` the paged directory replies (RFC 1094 section 2.2.17, RFC 1813 section
  3.3.16) together with a client, `Telnet` the in-place filter (RFC 854, RFC 855).
* **Small cores.** `Tail` (circular buffer), `Crc` (table against bits), `Arrows` (paths
  on a grid), `Line` (fixed-point lines).

Code that changes arrays or fields in place is a class or a method over arrays here as
well; each method is proved against a specification function or predicate, and the
lemmas prove what that specification means. `dafny verify dfyconfig.toml` checks
everything.

## Assumptions

* System reads succeed and C integers do not overflow at the sizes given. `malloc` gives
  a string pool whose first byte is zero.
* A loader adds: to the big-endian word at a record's offset it adds the address of the
  segment that the record refers to and, for external records, the address of the named
  symbol, modulo 2^32. The loader itself is not part of the repository.
* `rcat`: relocation words lie in their section, and any two are equal or disjoint.
  Relocation offsets are below 2^24, so the loops for broken length fields stop at once.
  The text of a unit has its rounding bytes behind it in the buffer.
* `gatherdependence`: there are at most 512 units, and symbols in the index name existing units.
* `elf32touniflex`: words to be relocated hold zero and share no byte; section symbols
  have empty names and stand for a section that is laid out.
* `defrag`: the map covers the valid range and the swap area, and the byte behind it is
  not zero. What the map's memory held before, and the byte before it, can be anything.
  Candidates have 1 to 16384 blocks, all with numbers below 65536.
* `nfsd`: a handle has room for nine components, components are shorter than 1024 bytes.

## What the code does not do

* `rcat` compares hashes only: of two names with one hash the later one is lost
  (`SymbolIndex.DifferentNamesSameHash`; exactly then, `SymbolIndex.KeptIffFirstOfItsHash`).
* `clear_map` leaves up to three bytes at the end of the map when its length is not a
  multiple of four; a sound disk with a block there is then refused
  (`DiskCheck.SoundDiskRefused`; exactly then, `DiskCheck.BuildsFdnsMap`).
* `findcontiguous` can go back below the valid range, unless the fit is not at the first
  byte or the byte before the map is zero or odd (`Allocator.RunBeforeMap`; exactly then,
  `Allocator.RunInsideMap`).
* It can also put a file behind the last valid block, because the map is longer than the
  valid range (`Allocator.RunBehindLastBlock`; exactly when a run ends there,
  `Moves.AfterAllBeyond`).
* A file with two names is moved twice, and then its blocks count twice
  (`Moves.ListedTwice`; exactly when a file's blocks are no longer all in use at its turn,
  `Moves.AfterAllCount`).
* Copying a file reads the same block again and again (`Moves.SecondBlockLost`; the
  contents survive exactly when all blocks are alike, `Moves.CopyKeepsContents`).
* `Paint` draws desktop only inside the clip it is called with
  (`Wmgr.CoversWhenDesktopInClip`, `Wmgr.PaintMissesDesktop`). The repaint behind a click
  runs through whatever clip is left, so it does not cover the desktop; it makes the
  screen right because the desktop was right before it
  (`Wmgr.Manager.RepaintThroughClip`, `Wmgr.Manager.ClickAndDrag`).
* A tab near the right edge moves the cursor out of the screen (`VtEmu.TabLeaves`;
  exactly then, `VtEmu.CursorInside`).
* Directory paging never ends when some entry does not fit into a reply, or when the
  count is exactly what is kept back (`ReadDir.EntryNeverFits`, `ReadDir.NoRoomNeverEnds`;
  exactly then, `ReadDir.EndsIffEachFits`).
* `tail -c` on a pipe prints at most 32768 bytes (`Tail.TailBytes`).
* Arrows can have more than 255 cells (`Arrows.LongArrow`), but the searches give up
  after 255 (`Arrows.Game.FindHead`, `Arrows.Game.FindTail`).
* Telnet subnegotiation data behind an escaped byte 255 is taken for input
  (`Telnet.LeakedLetter`; exactly then, `Telnet.FilterInvertsIffNoLeak`).

## Model

| member | source | states |
|---|---|---|
| RcatLoading.ConcatenationPreservesLoading | tek/devtools/rcat.c:680-774 | For any units and records: loading the concatenated object gives, where unit i stands, exactly the bytes of loading unit i alone at the bases plus its section offsets. |
| RcatLoading.WholeLoads | tek/devtools/rcat.c:838-855 | The loaded section as a whole is the units loaded alone, one after the other, with the rounding bytes between them. |
| RcatLoading.LoadUnit | tek/devtools/rcat.c:691-755 | Rebased records and addends of one unit, relocated inside a larger section, give what the unit alone gives and touch nothing around it. |
| Loader.RelocateTwice | tek/devtools/rcat.c:733-755 | Relocating at offsets and then at bases is relocating once at their sum, for words that are equal or disjoint, modulo 2^32. |
| Loader.PatchCommute | tek/devtools/rcat.c:754-755 | Additions to words that coincide or share no byte can be made in either order. |
| Loader.DecodeAllOfEncodeAll | tek/devtools/rcat.c:686-757 | A walk over stored records by their length fields sees every record, once and in order. |
| Bytes.HighByteFirst | tek/devtools/rcat.c:691-700 | Stored numbers of four and of two bytes have their highest byte first. |
| Loader.RecordBytes | tek/devtools/rcat.c:691-757 | A stored record byte by byte: offset, kind and name length with the highest byte first, then the name. |
| Loader.OneRecordLoads | tek/devtools/rcat.c:733-755 | What a record of each kind adds to the word at its offset, modulo 2^32, in the segment that its low bits name; every other byte stays. |
| RcatMain.LayOut | tek/devtools/rcat.c:577-610 | Text starts at multiples of four with less than four bytes between units, data and bss without gaps; for any two units text, data and bss of one end before those of the other start, every bss area ends within the total, and the total is the sum of all bss sizes. |
| RcatMain.AllUnitsApart | tek/devtools/rcat.c:577-610 | From sections that follow each other end to end: of any two units the earlier one ends where the later one starts or before, in text, data and bss, and each bss area ends within the total. |
| Rcat.RebaseRecord | tek/devtools/rcat.c:691-755 | One record rewritten in place in the unit buffer: offset shifted, the word it names increased by the offset of the segment it refers to, all other bytes kept. |
| Rcat.RebaseUnit | tek/devtools/rcat.c:686-765 | The walk over a unit leaves exactly the buffer in which every record and every addend is rebased. |
| RcatMain.RebaseUnits | tek/devtools/rcat.c:678-774 | Every unit ends up rebased at its own offsets, and the records written are the shifted records of all units in order. |
| RcatMain.Concatenate | tek/devtools/rcat.c:577-855 | Places all units end to end, and loading the written text and data with the records read back from the written bytes gives, at each unit's own offsets, for any bases and symbols, exactly the bytes that its buffer behind the 64-byte header gives when it is loaded alone. |
| SymbolIndex.ShiftsMultiply | tek/devtools/rcat.c:167-175 | The three shifts and the addition of the hash multiply by 101 modulo 2^32. |
| SymbolIndex.Hash | tek/devtools/rcat.c:167-175 | The loop computes the hash of the whole name. |
| SymbolIndex.OneCharacterMatters | tek/devtools/rcat.c:167-175 | Two names that differ in one character, wherever it is, have different hashes. |
| SymbolIndex.FirstIsTable | tek/devtools/rcat.c:180-187 | Searching a list from the front for a hash is looking up a map in which the first insertion of a hash wins. |
| SymbolIndex.FirstWhere | tek/devtools/rcat.c:180-187 | The symbol found is at a place in front of which none has the hash; none is found exactly when no symbol has it. |
| SymbolIndex.SymbolIndex.SymbolClear | tek/devtools/rcat.c:117-133 | Empties all eight buckets. |
| SymbolIndex.SymbolIndex.SymbolFind | tek/devtools/rcat.c:206-239 | Finds exactly the first symbol that was added with the hash of the name, over eight buckets that grow. |
| SymbolIndex.SymbolIndex.SymbolAdd | tek/devtools/rcat.c:151-204 | Adds a symbol exactly when its hash is new, and says whether it was seen. |
| SymbolIndex.KeptIffFirstOfItsHash | tek/devtools/rcat.c:795-817 | A named symbol is exported if and only if no earlier one has the hash of its name. |
| SymbolIndex.ExportSymbols | tek/devtools/rcat.c:777-822 | Writes exactly the symbols whose hash was not seen before, moved by the offsets of their units. |
| SymbolIndex.MovedAddress | tek/devtools/rcat.c:799-810 | An exported symbol has, in the loaded object, the address it has when its unit is loaded alone. |
| SymbolIndex.SymbolMoves | tek/devtools/rcat.c:799-810 | A symbol keeps its name and section, and its offset grows by the text, data or bss offset of its unit for section 9, 10 or 11. |
| SymbolIndex.SymbolNamesSameByte | tek/devtools/rcat.c:799-810 | A text or data symbol names, in the concatenated section, the byte that it named in its unit. |
| SymbolIndex.DifferentNamesSameHash | tek/devtools/rcat.c:167-187 | Of two symbols with certain different names, which have one hash, only the first is exported. |
| Dependence.UnitSet.AddMember | tek/devtools/rcat.c:249-262 | Adds a unit exactly when it is not there yet; the set never has duplicates. |
| Dependence.ProviderMeans | tek/devtools/rcat.c:320-330 | A record refers to a unit if and only if bit 15 of its kind is set, it has a name, and that unit has the first symbol of that name in the index. |
| Dependence.GatherDependence | tek/devtools/rcat.c:292-341 | From any set, adds what is reachable from a unit through references that resolve, keeps what was there, and terminates. |
| Dependence.Dependencies | tek/devtools/rcat.c:292-341 | From an empty set: without duplicates, exactly the units reachable from the root. |
| Bitmap.BlockMap.ClearMap | tek/devtools/defrag.c:304-311 | Clears whole groups of four bytes: what stays marked is exactly what was marked behind the last whole group. |
| Bitmap.BlockMap.SetBit | tek/devtools/defrag.c:314-330 | Marks one block and says whether it was marked; all others stay. |
| Bitmap.BlockMap.ClrBit | tek/devtools/defrag.c:333-349 | Clears one block and says whether it was marked; all others stay. |
| Bitmap.HighBitFirst | tek/devtools/defrag.c:314-349 | The first block of a map byte has its highest bit, the last one its lowest. |
| BlockTree.AcceptableAppend | tek/devtools/defrag.c:699-773 | Claims are in range, new and different from each other as a whole exactly when they are part by part. |
| BlockTree.ClaimedOfFile | tek/devtools/defrag.c:776-897 | A block is among the claims of a file exactly when it is one of its direct numbers or hangs off one of its three indirect ones. |
| Defrag.L3tol | tek/devtools/defrag.c:210-218 | Unpacks three-byte block numbers, most significant byte first. |
| Defrag.Defragmenter.MapBlock | tek/devtools/defrag.c:699-747 | Takes in a data block: an error is recorded exactly when it is out of range or, in map mode, marked already. |
| Defrag.Defragmenter.MapIndirectBlock | tek/devtools/defrag.c:750-774 | The same for an indirect block, and says whether it was out of range. |
| Defrag.Defragmenter.DoSind | tek/devtools/defrag.c:776-801 | Walks a single indirect block: takes in all its claims, or records an error exactly when they do not fit. |
| Defrag.Defragmenter.DoDind | tek/devtools/defrag.c:803-831 | Walks a double indirect block likewise, also when it gives up early. |
| Defrag.Defragmenter.DoTind | tek/devtools/defrag.c:833-861 | Walks a triple indirect block likewise. |
| Defrag.Defragmenter.MarkInMap | tek/devtools/defrag.c:864-897 | The walk over a file visits its claims in order and records an error exactly when they do not fit; listing keeps 16 bits of at most 16384 block numbers. |
| Defrag.ListedAll | tek/devtools/defrag.c:723-727 | A file of at most 16384 blocks with numbers below 65536 is listed completely and in order. |
| DiskCheck.CheckFdn | tek/devtools/defrag.c:1221-1262 | A descriptor whose mode byte under 0xCF is 0x01 or 0x09 has all its blocks taken in, with an error exactly when they do not fit; any other descriptor changes nothing. |
| DiskCheck.BelongsToMeans | tek/devtools/defrag.c:864-897 | A block is among the claims of a descriptor exactly when one of the ten three-byte numbers from byte 9 on, or a number in a block under those at 39, 42 and 45, leads to it. |
| DiskCheck.ClaimedMeans | tek/devtools/defrag.c:1185-1270 | On a sound disk a block is claimed if and only if some regular file or directory leads to it, by the bytes of its descriptor. |
| DiskCheck.BuildsFdnsMap | tek/devtools/defrag.c:1185-1270 | Reports no error if and only if every claim is in the valid range, made once, and not among the blocks marked behind the last whole group of four map bytes. Then, by the bytes of the descriptors: two descriptors with the mode of a file or directory share no block, all their blocks are marked, and no others are but those left over. |
| DiskCheck.SoundDiskRefused | tek/devtools/defrag.c:304-311 | A sound disk with a map of one byte, and what the memory held before: the check finds an error. |
| Allocator.FindContiguous | tek/devtools/defrag.c:536-579 | Gives the place of the first byte-aligned fit, moved back over the free blocks that end the byte before it; 0 when there is no fit. |
| Allocator.TargetNone | tek/devtools/defrag.c:543-578 | The result is 0 if and only if nowhere in the map are as many free bytes as the blocks need. |
| Allocator.FirstPlace | tek/devtools/defrag.c:543-564 | The run starts less than eight blocks before the first place with as many free map bytes in a row as the blocks need at eight to a byte, or right there. |
| Allocator.RunIsFree | tek/devtools/defrag.c:546-575 | No block of the run is in use, and the run does not pass the end of the map. |
| Allocator.UsedBeforeRun | tek/devtools/defrag.c:565-573 | The block before the run is in use, unless the fit is at the first byte. |
| Allocator.RunInsideMap | tek/devtools/defrag.c:564-578 | The run starts inside the map if and only if the fit is not at its first byte or the byte before the map is zero or odd. |
| Allocator.RunBeforeMap | tek/devtools/defrag.c:564-578 | A free first byte behind an even byte: the run starts below the first valid block. |
| Allocator.RunBehindLastBlock | tek/devtools/defrag.c:543-564 | A full valid range in a map that is longer: the file is put behind the last valid block. |
| Allocator.FreeBlocks | tek/devtools/defrag.c:1139-1146 | Clears exactly the blocks of the candidate, whether they were marked or not. |
| Allocator.MarkRun | tek/devtools/defrag.c:1153-1160 | Marks exactly the run, and reports a collision exactly when one of its blocks was marked. |
| Allocator.MoveCandidate | tek/devtools/defrag.c:1133-1160 | Whenever the run starts inside the map: moving a candidate never hits a marked block, and exchanges its old blocks for the run. |
| Allocator.MovedCount | tek/devtools/defrag.c:1139-1160 | A move keeps the number of blocks in use if and only if all old blocks were in use; otherwise the number grows by those that were not. |
| DiskCheck.OneFilesClaims | tek/devtools/defrag.c:1185-1270 | On a sound disk the blocks of each file are sound by themselves and part of what is in use. |
| DiskCheck.TwoFilesClaims | tek/devtools/defrag.c:1185-1270 | On a sound disk two files share no block. |
| Moves.MoveFile | tek/devtools/defrag.c:1121-1160 | Listing a file of a sound disk and moving it, whatever else is in use: it is put where the search says, at free blocks, and the map changes by exactly its blocks and the run. |
| Moves.MoveFiles | tek/devtools/defrag.c:1120-1180 | The loop over all candidates: nothing collides, different files keep the number of blocks in use, and blocks behind the last valid one come into use if and only if some run ends there. |
| Moves.AfterAllCount | tek/devtools/defrag.c:1120-1180 | Over any series of moves the number of blocks in use stays if and only if each file has all its blocks in use at its turn. |
| Moves.DifferentFilesKeepCount | tek/devtools/defrag.c:1120-1180 | Different files of a sound disk keep the number of blocks in use. |
| Moves.ListedTwice | tek/devtools/defrag.c:895-1049 | A file that is listed twice, under two names: when both moves find a place, its blocks count twice in the end. |
| Moves.AfterAllBeyond | tek/devtools/defrag.c:543-564 | Over any series of moves no block behind the last valid one comes into use if and only if every run ends at or before it. |
| Moves.MarkedAtFirst | tek/devtools/defrag.c:1185-1270 | When the moves begin, a block is in use if and only if clearing left its bit, it is in the swap area, or a file or directory leads to it. |
| Moves.CheckAndMove | tek/devtools/defrag.c:1551-1555 | The whole run, from any memory: when the check finds a sound disk, the map in the end is what the series of moves makes of the claimed blocks, those left over and the swap area. |
| Moves.CopyBlocks | tek/devtools/defrag.c:1166-1172 | Copying fills the whole run with the contents of one and the same block. |
| Moves.CopyKeepsContents | tek/devtools/defrag.c:1166-1172 | The run holds the contents of the file if and only if all its blocks have the contents of the block that is read. |
| BlockIterator.FileBlocks.Opnfbks | tek/devtools/defrag.c:1342-1356 | Sets the iterator to the first of the thirteen entries of a descriptor. |
| BlockIterator.FileBlocks.NextGroup | tek/devtools/defrag.c:1396-1426 | Moves to the next group of 128 slots that has a block and loads it over the buffer; everything skipped is a hole. |
| BlockIterator.FileBlocks.Gfblks | tek/devtools/defrag.c:1384-1432 | Gives the next slot of the file that is not a hole, skipping only holes, and ends where the double indirect range does. |
| BlockIterator.AllBlocks | tek/devtools/defrag.c:1384-1432 | Calling it until it ends gives the non-zero slots in order. |
| BlockIterator.IteratorAgreesWithWalk | tek/devtools/defrag.c:776-897 | For a file in range without a triple indirect block, the iterator gives, in order, exactly the data blocks that the recursive walk visits. |
| TarFormat.ScanOfPrint | tek/utils/tar.c:1007-1016 | An octal number printed to any width is scanned back, whatever follows it. |
| TarFormat.HeaderRoundTrip | tek/utils/tar.c:458-499 | Every field of a header is read back as it was printed, the numbers may overrun their fields into the next, and the checksum agrees. |
| TarFormat.HeaderLayout | tek/utils/tar.c:992-1032 | A header byte by byte: name at 0, mode, owner, group, size and time as blank-padded octal digits and a blank at 100, 108, 116, 124 and 136, the checksum at 148 with its field counted as eight blanks, the link flag at 156. |
| TarFormat.OneChangeIsNoticed | tek/utils/tar.c:487-494 | A header with one byte changed outside its checksum field is refused. |
| Tar.Archiver.ToModes | tek/utils/tar.c:992-1017 | Clears the header and prints mode, owner, size and time into it. |
| Tar.Archiver.Checksum | tek/utils/tar.c:1020-1032 | Blanks the checksum field and adds up the bytes. |
| Tar.Archiver.PutContent | tek/utils/tar.c:701-710 | Writes the content in whole blocks, the last one padded with what the buffer held. |
| Tar.Archiver.PutFile | tek/utils/tar.c:641-711 | Writes a header and padded content, or nothing when the name does not fit. |
| Tar.Tape.WriteTape | tek/utils/tar.c:1221-1241 | Appends a block to the record buffer; what was sent so far is always file plus buffer. |
| Tar.Tape.FlushTape | tek/utils/tar.c:1263-1266 | Everything sent is in the file, whatever the record length. |
| Tar.Tape.ReadTape | tek/utils/tar.c:1193-1219 | Gives the blocks of the archive in order, whatever the blocking factor; the first read finds out the record length. |
| Tar.Archiver.DoRep | tek/utils/tar.c:435-443 | Each file whose name fits stands on the tape as a laid out header, its content from byte 512 on, and less than a block of padding; behind all entries are 1024 zero bytes, and the archive is a multiple of 512 long. |
| Tar.NameableParts | tek/utils/tar.c:646-653 | Which files are written is decided file by file, in order. |
| Tar.NameableOne | tek/utils/tar.c:649-653 | A file is written if and only if its name has less than 100 characters. |
| Tar.Archiver.GetDir | tek/utils/tar.c:458-499 | What a header block tells: end of tape, a wrong checksum, or the fields of an entry. |
| Tar.Archiver.ReadContent | tek/utils/tar.c:805-829 | Gives exactly the bytes of a file and passes exactly its blocks. |
| Tar.Archiver.DoXtract | tek/utils/tar.c:720-838 | Extracts all files of an archive, in order, with names, numbers and contents. |
| Tar.ArchiveTells | tek/utils/tar.c:720-838 | From any entry on, an archive tells which files are still to come and where it ends. |
| Tar.WriteThenExtract | tek/utils/tar.c:720-838 | Writing in records of any length and extracting with any other returns the list of files, without those whose names have 100 characters or more. |
| Rects.RectIntersect | tek_graphics.c:1225-1233 | A pixel is in the intersection if and only if it is in both rectangles. |
| Rects.IntersectionPixel | tek_graphics.c:1225-1233 | The same by the coordinates of the rectangles themselves. |
| Rects.RectAreasOutside | tek_graphics.c:1167-1223 | At most four rectangles; each pixel of the first but not the second is in exactly one of them and no other pixel in any. |
| Wmgr.Manager.SetClip | tek/wmgr/wmgr.c:202-207 | A pixel is in the clip if and only if it is in the rectangle and on the screen. |
| Wmgr.Manager.WindowCreate | tek/wmgr/wmgr.c:554-602 | A new window, 32 pixels wider and higher than its content, is linked in front of the others, its content starting at a multiple of eight, and the stack stays free of cycles. |
| Wmgr.Manager.WindowTop | tek/wmgr/wmgr.c:424-469 | The stack stays linked without cycles: the window, then the others in their order; unknown windows change nothing. |
| Wmgr.FrontIsFirst | tek/wmgr/wmgr.c:1058-1123 | What is to be shown on a pixel is the first window of the stack whose rectangle has it, by coordinates. |
| Wmgr.ShowsLast | tek/wmgr/wmgr.c:1099-1120 | What shows on a pixel is what was drawn on it last, by coordinates. |
| Wmgr.Manager.RepaintSelf | tek/wmgr/wmgr.c:1099-1120 | Draws the overlap through a clip of its own and puts the old clip back. |
| Wmgr.Manager.PaintRegions | tek/wmgr/wmgr.c:1090-1096 | Painting disjoint regions from the next window down paints each pixel of them once. |
| Wmgr.Manager.Paint | tek/wmgr/wmgr.c:1058-1123 | Every pixel of the rectangle is drawn on exactly once, by the frontmost window that contains it (if on the screen) or by the desktop (if in the clip); no other pixel is; the clip is restored. |
| Wmgr.CoversWhenDesktopInClip | tek/wmgr/wmgr.c:1070-1083 | Painting covers all of the rectangle on the screen if and only if the desktop showing in it lies in the clip. |
| Wmgr.PaintMissesDesktop | tek/wmgr/wmgr.c:1070-1083 | A clip over half of the screen: the other half is not painted. |
| Wmgr.Manager.RepaintEverything | tek/wmgr/wmgr.c:1688-1690 | Every screen pixel is drawn on exactly once, and the screen is right whatever it showed before. |
| Wmgr.Manager.WindowMove | tek/wmgr/wmgr.c:616-645 | Afterwards the content starts at the last multiple of eight that is not right of the wanted place, at the wanted height and size; the window moves if and only if it was not there, so a second call moves nothing; a front window's old place becomes the clip. |
| Wmgr.Manager.DragStep | tek/wmgr/wmgr.c:1754-1766 | One step of a drag draws exactly once on every screen pixel that the window left or covers, and shows the right thing; elsewhere the same window is in front as before. |
| Wmgr.Manager.RepaintThroughClip | tek/wmgr/wmgr.c:1779-1780 | The repaint behind a click, through whatever clip is left: if the desktop was right, the whole screen is right. |
| Wmgr.Manager.ClickAndDrag | tek/wmgr/wmgr.c:1700-1786 | Raising a window, dragging it along any series of places and repainting: from a right desktop to a right screen. |
| Wmgr.RaisedElsewhere | tek/wmgr/wmgr.c:432-454 | Raising a window changes nothing where the window is not. |
| VtEmu.Move | tek/wmgr/vtemu.c:43-67 | Copies a region within an array in the direction that overwrites nothing too early. |
| VtEmu.Terminal.ClearRegion | tek/wmgr/vtemu.c:24-40 | Zeroes a region of characters and attributes, or nothing when it is too long. |
| VtEmu.Terminal.VTreset | tek/wmgr/vtemu.c:69-86 | An empty screen with the cursor at its top left, no wrapping and no scrolling region. |
| VtEmu.Terminal.VTmovelines | tek/wmgr/vtemu.c:88-117 | Rows move with characters and attributes; the others stay. |
| VtEmu.Terminal.VTclearlines | tek/wmgr/vtemu.c:139-161 | Rows are emptied; the others stay. |
| VtEmu.Terminal.VTnewline | tek/wmgr/vtemu.c:163-186 | For any margins: scrolls the rows between them when the cursor passes the lower one, and empties the row of the cursor. |
| VtEmu.Terminal.Print | tek/wmgr/vtemu.c:699-714 | A character goes into the last line of the transcript, or is lost beyond the last column. |
| VtEmu.Terminal.FormFeed | tek/wmgr/vtemu.c:687-697 | Starts as many lines as end the page. |
| VtEmu.Terminal.VToutput | tek/wmgr/vtemu.c:664-720 | After any text without escape sequences the screen shows the last rows of the unbounded transcript, characters and attributes, with the cursor on its last line. A text of bytes 0x20 to 0x7e on a fresh screen, shorter than a row or with wrapping on, stands in consecutive rows of that many columns in the current style, the rest of the screen empty, the cursor behind its last character. |
| VtEmu.Terminal.PlainByte | tek/wmgr/vtemu.c:664-720 | What bytes 8, 9, 10, 12, 13 and characters do to the cursor and the screen; any other control byte changes nothing. |
| VtEmu.TextWraps | tek/wmgr/vtemu.c:699-714 | The transcript of a printable text with wrapping on has its characters row by row. |
| VtEmu.CursorInside | tek/wmgr/vtemu.c:681-714 | With wrapping on the cursor is inside the columns after every prefix of a text if and only if each tab is taken where a tab stop is left before the last column. |
| VtEmu.TabLeaves | tek/wmgr/vtemu.c:681-685 | A tab in column 72 of 80 takes the cursor out of the screen. |
| NfsPaths.PathPool.MakeRoom | tek/daemons/nfsd.c:349-383 | One growth by half is always enough for another token and another string. |
| NfsPaths.PathPool.AddSubpath | tek/daemons/nfsd.c:341-402 | Gives the token of a string, adding it exactly when it is new; tokens and strings stay one to one and within what was allocated. |
| NfsPaths.PathPool.EncodePath | tek/daemons/nfsd.c:404-427 | Fills in the tokens of the components and nothing else; older tokens keep their strings. |
| NfsPaths.PathPool.DecodePath | tek/daemons/nfsd.c:429-446 | Gives the strings of the tokens up to 0, each behind a slash. |
| NfsPaths.DecodedLater | tek/daemons/nfsd.c:429-446 | Tokens decode to the same path in every later state of the pool. |
| NfsPaths.ComponentsOfJoined | tek/daemons/nfsd.c:414-424 | A canonical path has the components it was made of. |
| NfsPaths.CanonicalForm | tek/daemons/nfsd.c:404-446 | The canonical form starts with a slash, has neither two in a row nor one at its end, and has the other characters of the path in their order. |
| NfsPaths.CanonicalStays | tek/daemons/nfsd.c:404-446 | A path of that form is its own canonical form. |
| NfsPaths.CanonicalIffComponents | tek/daemons/nfsd.c:404-446 | Paths have one canonical form exactly when they have the same components; making a path canonical twice changes nothing. |
| NfsPaths.HandleIffPath | tek/daemons/nfsd.c:341-446 | Handles are equal if and only if their paths have the same canonical form. |
| NfsPaths.EncodeAndKeep | tek/daemons/nfsd.c:404-446 | A path encoded now and decoded after any other paths were encoded gives its canonical form. |
| ReadDir.Response.AddString | tek/daemons/nfsd.c:529-545 | Appends a length divisible by four, at least four more than the string and less than eight more: the length in four bytes, the string, zero bytes. |
| ReadDir.EntryOnTheWire | tek/daemons/nfsd.c:2036-2051 | An entry byte by byte in both versions, a multiple of four long. |
| ReadDir.Response.ReadDir | tek/daemons/nfsd.c:2006-2051 | Appends exactly the entries behind the cookie that fit, then the end mark and whether the end was reached, word by word; the reply is a multiple of four long; both versions of the protocol. |
| ReadDir.ListedFills | tek/daemons/nfsd.c:2006-2034 | As many entries are listed as end within the count (at most 8448) less 12 or 32 bytes, from byte 28 or 124 on; the next one would not. |
| ReadDir.ParseEntries | tek/daemons/nfsd.c:2036-2051 | A client reads back exactly the entries that were put into a reply. |
| ReadDir.ReplyWithinCount | tek/daemons/nfsd.c:2006-2034 | A reply is within the client's count if and only if an empty one is. |
| ReadDir.EndsIffEachFits | tek/daemons/nfsd.c:2006-2051 | Asking on with the last cookie comes to an end if and only if every entry fits into a reply and the count is not exactly what is kept back. |
| ReadDir.EntryNeverFits | tek/daemons/nfsd.c:2006-2034 | A directory and a count for which no reply ever says that it is the last. |
| ReadDir.NoRoomNeverEnds | tek/daemons/nfsd.c:2006-2051 | An empty directory, and a count of exactly what is kept back: the same. |
| ReadDir.AskOnce | tek/daemons/nfsd.c:2519-2574 | One request gives the next entries in order, at least one unless the end is reached, and the end flag exactly at the end. |
| ReadDir.ListDirectory | tek/daemons/nfsd.c:1995-2054 | The client gets every entry exactly once, in order, and terminates. |
| Tail.ReadAll | tek/utils/tail.c:169-179 | However the reads are cut, the circular buffer holds the end of the stream. |
| Tail.BackLines | tek/utils/tail.c:193-214 | The backward scan stops at the newline that a search of the held bytes from their end finds, or runs out. |
| Tail.FirstFinds | tek/utils/tail.c:216-224 | The search forward finds a byte 10, and none stands before it. |
| Tail.NthCounts | tek/utils/tail.c:193-214 | The newline found has exactly n newlines behind it; none is found exactly when there are not so many. |
| Tail.TailLines | tek/utils/tail.c:157-227 | The last n lines, with the exact result for streams longer than the buffer. |
| Tail.LastLinesCount | tek/utils/tail.c:157-227 | When the last 32768 bytes hold more than n newlines, what is printed is a suffix with exactly n newlines, behind a newline. |
| Tail.LastLinesFew | tek/utils/tail.c:157-227 | When they hold no more than n, a short stream is printed whole, and a long one from behind the first newline of those bytes, or all of them. |
| Tail.TailBytes | tek/utils/tail.c:181-187 | The last n bytes, but never more than 32768 of a pipe. |
| Tail.TailFile | tek/utils/tail.c:160-168 | A seekable file is treated like the stream of its last 32768 bytes. |
| Elf.FixupRodataOffset | elf32touniflex.c:106-144 | Exactly the addends of section symbols of the given section grow by the offset. |
| Elf.EmitReloc | elf32touniflex.c:146-264 | Writes one record per relocation with the kind of its target, and moves every addend into its word, changing no other byte. |
| RelocOrder.BuildIndex | elf32touniflex.c:576-586 | The index holds where each variable-length record starts. |
| RelocOrder.SortRecords | elf32touniflex.c:570-599 | The rewritten bytes decode to the same records, whole, in ascending order of their offsets. |
| RelocOrder.RelocatePermutes | elf32touniflex.c:570-599 | Records whose words are equal or disjoint load the same in any order. |
| Elf.FixedMeaning | elf32touniflex.c:106-221 | Embedded addend plus segment address is the address of the symbol plus the original addend, for every section kind. |
| Elf.SegmentLoads | elf32touniflex.c:499-537 | A segment with embedded addends loads right against any list that holds its records. |
| Elf.Convert | elf32touniflex.c:356-599 | Loading the converted object gives every relocated word of .text and .data its symbol's address plus its addend and changes no other byte; in the loaded data .data stands in front outside its relocated words, .rodata.str1.1 and .rodata stand whole at the even addresses that their section symbols have, without overlapping. The records are in ascending order. |
| Elf.OtherAddresses | elf32touniflex.c:106-221 | Section symbols of any other section stand for the start of bss, data or text. |
| Arrows.Game.Choose | games/arrows.c:266-307 | Writes a cell straight or as a corner; the arrow goes on only into a clear cell of the board. |
| Arrows.Game.GrowArrow | games/arrows.c:253-327 | From a clear cell: the board is unchanged, or a simple path of 2 to 257 cells that were clear is written and nothing else. |
| Arrows.Game.FindHead | games/arrows.c:536-564 | From cell i of an arrow gives a number that unpacks to its first cell if and only if i < 255, otherwise fails. |
| Arrows.Game.FindTail | games/arrows.c:566-600 | From any cell gives a number that unpacks to the last cell if and only if at most 255 cells are left, otherwise fails. |
| Arrows.LongArrow | games/arrows.c:253-327 | Arrows of every length up to the number of cells exist, so also those for which the searches fail. |
| Arrows.ArrowKept | games/arrows.c:253-327 | An arrow that is laid later leaves every earlier arrow as it was. |
| Arrows.ArrowWinds | games/arrows.c:154-165 | Consecutive cells of an arrow are neighbours in the direction that the bits of both cells say; the bits 0x80 and 0x40 mark its first and last cell and no other. |
| Telnet.TermState.Parse | tek/daemons/telnetd.c:244-314 | Filters a chunk in place as the state machine says, data in front; the place written never passes the place read. |
| Telnet.ChunksJoin | tek/daemons/telnetd.c:244-314 | Cutting the input into chunks anywhere makes no difference to data, events and state. |
| Telnet.FilterSees | tek/daemons/telnetd.c:250-311 | For any interleaving of data, commands, negotiations and subnegotiations, data and events that come out, byte for byte. |
| Telnet.FilterBytes | tek/daemons/telnetd.c:250-311 | Between items, byte by byte: data, a doubled 255, a command, a negotiation. |
| Telnet.SubnegotiationBytes | tek/daemons/telnetd.c:280-311 | What stands between 255 250 and 255 240 comes out as one event with its first 256 bytes. |
| Telnet.FilterInvertsIffNoLeak | tek/daemons/telnetd.c:295-309 | Exactly the data that was sent comes out if and only if no subnegotiation has a byte behind a byte 255 in its data. |
| Telnet.LeakedLetter | tek/daemons/telnetd.c:295-309 | A subnegotiation of two bytes after which a letter comes out that nobody sent. |
| Crc.TableEntry | tek/crc.c:6-13 | Every entry of the table is the CRC of its index, bit by bit. |
| Crc.Checksum | tek/crc.c:32-35 | The table loop computes the reflected CRC-16 with polynomial 0xA001 and initial value 0. |
| Crc.CheckValue | tek/crc.c:32-35 | The CRC of nothing is 0 and that of the characters 1 to 9 is 0xBB3D. |
| Crc.BurstDetected | tek/crc.c:32-35 | Strings of one length that differ only within two consecutive bytes have different CRCs. |
| Line.MyLine32 | fpustuff/line.c:39-112 | A line to the right that is not steep toggles exactly one pixel in each column before its end; other lines do nothing. |
| Line.RowError | fpustuff/line.c:56-57 | Row i is within a half plus i/65536 of the exact line. |
| Line.DrawTwice | fpustuff/line.c:97-112 | Drawing the same line twice leaves the bitmap as it was. |

## Left out

- Sockets, processes, pseudo terminals, `stat`, `open` and `read` themselves, and drawing: files are byte sequences, and drawing is recording which pixels were set.
- The conditionally compiled linking parts of `rcat`, its message texts, and the RCS, comment and name sections of its output.
- The `badblocks` special case of `mapblock`: its flag is never set. The counters for statistics, the cylinder lists and the drawing of the map are not modelled either.
- The free list of the file system; the update of a descriptor after its file has moved is only a comment in the source.
- Moves.MoveFiles: takes the candidates as given; how `enum_files` chooses them by size, permissions and cylinders is not modelled. A run that would start before the map is excluded, as it writes to memory that is not the map's.
- Hard links, directories, symbolic links, append and update in `tar`; reading past the end of an archive; archives that `tar` itself did not write, beyond what one header block tells.
- Tar.Archiver.DoXtract: requires an archive with known entries, because reading any other tape can go on forever over an old buffer.
- Reverse output, following a growing file and counting from the beginning in `tail`.
- Escape sequences of the terminal, the lengths of lines and the mask of dirty lines; without wrapping the column can grow beyond 16 bits, which is not modelled.
- `WindowDestroy`, whose relinking always targets the first slot, and `WindowMin`, also at the end of a drag; the choice of what to draw inside a window.
- ReadDir.Response.ReadDir: the bytes in front of the entries (RPC header, attributes, cookie verifier) are taken as given, and error replies are not modelled; neither is the reply with attributes of each entry.
- `release_filehandle`, the inode and file system numbers of a file handle, and tokens that a client made up.
- Relocations of `.rodata` and exported symbols of read-only data in `elf32touniflex`, which the source marks as undecided; relocations other than 32-bit ones write a record without a target and are otherwise not claimed.
- RelocOrder.Qsort: stands for the library sort; only that its result is a sorted permutation is used.
- How often a random choice turns or ends an arrow: any choice is allowed at each point.
- Answers to telnet negotiations: they are recorded as events.
- Line.MyLine32: a word of the bitmap is a sequence of 32 bits, and the mask table selects a bit by its position.
- Crc.Checksum: the table of the source is written as a function of the index, sixteen entries to a row.
