# OxideOS: models and proofs

This project models the parts of OxideOS whose correctness spans many calls, and proves what they keep.
All members are verified by Dafny 4.11; `dafny verify dfyconfig.toml` checks the whole project. Nothing was
executed.

Most components come in two layers. A module of values states what an operation does to a document, a
volume, a desk or a kernel, and holds the laws: invariants over every run, round trips, refinements. A class
or a set of methods has the arrays, fields and loops of the Rust code, and each method is proved to do what
the value layer says.

- **FAT32 writer and installer** (`Disk`, `BootSectors`, `Fat32Layout`, `Fat32Volume`, `Fat32Image`, `Fat32Reader`,
  `Installer`, `Fat32Run`, `Fat32Capacity`, `Install`). The disk is a sector array with an arbitrary pattern
  of failing reads and writes. `Represents` ties an image to an abstract volume; every method of the writer is
  proved to lead from an image of one volume to an image of the next. `Fat32Reader` is written from the format alone
  (sections "FAT Data Structure" and "FAT Directory Structure" of Microsoft's FAT32 File System Specification
  1.03) and reads exactly what the volume has. The code ignores the results of sector I/O when it updates the
  FAT, so content is promised when sector I/O succeeds; which sectors are written, and that the boot record
  comes last, is promised for every fault pattern.
- **Notepad** (`NotepadText`, `NotepadFlat`, `NotepadUndo`, `NotepadFile`, `NotepadFind`, `NotepadBuffer`).
  `NotepadFlat` reads the lines as one string and says where the cursor is and what each key does in it. The operation
  log with its ring of 256 is proved to refine an editor that keeps whole snapshots. A join that is cut at 256
  bytes loses text; `JoinUndoneIffFits` says exactly when undo still works.
- **Markdown** (`MarkdownInline`, `MarkdownBlocks`, `MarkdownParser`, `MarkdownDocument`, and for the proofs
  `MarkdownHtml`, `MarkdownBalanced`, `MarkdownWellFormed`, `MarkdownSlugs`, `MarkdownLocal`,
  `MarkdownEquations`, `MarkdownText`, `MarkdownLines`, `MarkdownPages`). `MarkdownHtml` is an independent
  scanner for properly nested tags. `MarkdownText` says what a reader sees of any rendered text,
  `MarkdownEquations` what element each inline construct gives, `MarkdownLines` what each kind of line is read as,
  and `MarkdownPages` what whole documents become. The ids of headings can clash; `IdsDifferent` says exactly when. Rust's
  Unicode character classes are parameters; the document theorem asks only that they agree with ASCII where it
  matters (`Sane`). Termination of the nested parser is by the total number of characters.
- **Window manager** (`WindowModel`, `WindowManager`, `WindowClicks`). `WindowClicks` says what a click does from
  the coordinates of the windows alone. Minimising forgets that a window was maximised or
  snapped, removal leaves the id of a window being resized, a second snap overwrites the saved place, and a window
  restored from the top of the order is not focused; these are stated as they are.
- **Pipes and pipelines** (`FdTables`, `FdCalls`, `FdKernel`, `PipeBuffer`, `FdLife`, `PipelinePlan`, `PipelineRun`,
  `PipelineOpen`, `PipelineShell`, `PipelineExit`, `CommandLine`). The kernel's descriptor tables and the
  reference counts of pipe ends, and on top of them the shell's pipelines as processes whose calls interleave
  arbitrarily. `close` keeps the counts exact; the other calls do so under a condition, stated both ways, and
  for each there is a kernel where it fails except for the counter of `dup2`: `fork` and starting a program in
  a slot that still holds pipe ends, `exec` with pipe ends open, `pipe` with exactly one free descriptor, `dup`
  and F_DUPFD of a pipe end, `dup2` with a full counter. Exit drops no reference, so a reader waits for ever
  after its last writer has exited without closing; `EofIffWritersGone` and `ExitHidesEof` say when.
- **Raster** (`Raster`), **browser** (`BrowserFlow`, `BrowserLayout`, `PageCodec`), **calendar**
  (`Calendar`), **path resolution** (`PathResolve`).

Where names or comments and code disagree the model follows the code: the boot configuration limine.conf is
stored under the 8.3 name LIMINE.CON, the `..` entry of a directory in the root names cluster 2, where the
FAT32 specification has 0, and the EFI partition, which says FAT32 in its boot sector, has fewer clusters than the
specification asks of a FAT32 volume (`EfiClusterCount`). The alternative text of an image is escaped twice
(`AltReads`).

## Model

| member | source | states |
|---|---|---|
| `Disk.Disk.WriteSector` | kernel/src/kernel/installer.rs:72-75 | A sector write succeeds or not as the fault pattern says, changes that sector only, and is logged |
| `Disk.Disk.ReadSector` | kernel/src/kernel/installer.rs:301-302 | A read that succeeds returns the sector and changes nothing |
| `Disk.Disk.ZeroSector` | kernel/src/kernel/installer.rs:72-75 | A successful call leaves the sector zeroed |
| `Common.Le32RoundTrip` | kernel/src/kernel/installer.rs:303-306 | Little-endian bytes of a 32-bit number read back as that number |
| `BootSectors.PutPartition` | kernel/src/kernel/installer.rs:104-112 | Entry k of the partition table then reads as the given one and no byte outside it has changed |
| `BootSectors.MakeMbr` | kernel/src/kernel/installer.rs:79-102 | Every byte of the boot record: the first 440 of the bootstrap, the disk signature, a bootable partition of type 0xEF at 2048 and one of type 0x06 at 133120 with 131072 sectors each, two empty entries, 0x55 0xAA |
| `BootSectors.MakeEfiBoot` | kernel/src/kernel/installer.rs:122-160 | Every byte of the FAT32 boot sector, read as a BIOS parameter block: 512 bytes a sector, 8 sectors a cluster, 32 reserved, two tables of 128 sectors, root cluster 2, and its names |
| `BootSectors.MakeFsInfo` | kernel/src/kernel/installer.rs:164-171 | Every byte of the FSInfo sector |
| `BootSectors.MakeDataBoot` | kernel/src/kernel/installer.rs:216-243 | Every byte of the FAT16 boot sector |
| `BootSectors.EfiLeads` | kernel/src/kernel/installer.rs:204-206 | From the boot record and the boot sector alone a reader computes the table and cluster addresses the installer writes to |
| `BootSectors.EfiClusterCount` | kernel/src/kernel/installer.rs:116-202 | The partition formatted as FAT32 has 16348 clusters, which the specification calls FAT16 |
| `BootSectors.DataLeads` | kernel/src/kernel/installer.rs:210-265 | From the boot record and the FAT16 boot sector a reader computes the table and root directory addresses the installer writes to |
| `Fat32Layout.FatBytesRoundTrip` | kernel/src/kernel/installer.rs:293-309 | The four bytes of a FAT entry read back as its 28 significant bits |
| `Fat32Layout.DirEntRoundTrip` | kernel/src/kernel/installer.rs:371-383 | Decoding the 32-byte slot of any storable entry gives the entry back |
| `Fat32Volume.WriteFileKeeps` | kernel/src/kernel/installer.rs:450-473 | Every `write_file`, successful or not, keeps the volume well formed and keeps everything already in it at its place |
| `Fat32Volume.FindOrCreateKeeps` | kernel/src/kernel/installer.rs:393-446 | `find_or_create_dir` keeps the volume well formed and answers with a directory whose first entries are `.` for itself and `..` for the parent |
| `Fat32Volume.FindOrCreateAgain` | kernel/src/kernel/installer.rs:393-412 | Asking for the same directory at any later time gives the same cluster and allocates nothing |
| `Fat32Volume.ReadExtends` | kernel/src/kernel/installer.rs:450-473 | A file that can be read keeps its bytes, whatever is written later |
| `Fat32Volume.WriteFileReadBack` | kernel/src/kernel/installer.rs:450-473 | After a successful write the path reads back the new bytes if nothing was in the way there, and otherwise what it read before |
| `Fat32Volume.RunKeeps` | kernel/src/kernel/installer.rs:450-473 | The invariant and the extension hold over every sequence of `write_file` calls, from every prefix of it |
| `Fat32Volume.RunReadBack` | kernel/src/kernel/installer.rs:450-473 | In every sequence of calls, a successful call whose place was free reads back at the end |
| `Fat32Volume.NonClashingRunReadBack` | kernel/src/kernel/installer.rs:281-473 | On an empty volume, every successful call of a sequence whose names do not clash reads back exactly its bytes at the end |
| `Fat32Capacity.WriteFileFits` | kernel/src/kernel/installer.rs:281-290 | A write succeeds if and only if its missing directories and its data fit in the remaining clusters, and then takes exactly those |
| `Fat32Capacity.WriteFileBounded` | kernel/src/kernel/installer.rs:355-389 | No directory gets more entries than a call can add |
| `Fat32Image.FatUpdateSpec` | kernel/src/kernel/installer.rs:293-309 | Patching both FAT copies changes that one entry, in both |
| `Fat32Image.StoreHolds` | kernel/src/kernel/installer.rs:312-352 | An image with the chained clusters of a file written holds the volume with that file |
| `Fat32Image.AppendHolds` | kernel/src/kernel/installer.rs:355-389 | An image with one more slot filled holds the volume with one more entry |
| `Fat32Image.NewDirHolds` | kernel/src/kernel/installer.rs:413-446 | An image with a zeroed cluster and two dot slots holds the volume with a new directory |
| `Fat32Reader.AscendingChain` | kernel/src/kernel/installer.rs:312-352 | Following the FAT through consecutive links visits exactly the ascending clusters of a file |
| `Fat32Reader.ReadFileIsRead` | kernel/src/kernel/installer.rs:281-473 | A reader that only knows the on-disk format, and skips volume labels and long-name slots by the attribute byte, reads at every path what the volume held by the image has there |
| `Fat32Reader.DotsReadBack` | kernel/src/kernel/installer.rs:413-446 | For every path the reader can follow, `.` of a subdirectory leads to itself and `..` to the directory it is listed in |
| `Fat32Reader.ChainsWellFormed` | kernel/src/kernel/installer.rs:281-352 | Every chain ascends, ends in the end mark and shares no cluster with another chain |
| `Fat32Reader.TablesWellFormed` | kernel/src/kernel/installer.rs:183-193 | Both FAT copies agree entry by entry, and entries from the allocation mark on are zero |
| `Installer.Fat32Writer.constructor` | kernel/src/kernel/installer.rs:275-278 | A new writer starts allocating after the root cluster |
| `Installer.Fat32Writer.AllocCluster` | kernel/src/kernel/installer.rs:281-290 | Gives the next cluster, zero-linked or end-marked in both copies, or nothing when the partition is full; writes stay in the FATs |
| `Installer.Fat32Writer.WriteEntry` | kernel/src/kernel/installer.rs:293-309 | With I/O succeeding both copies get the entry; in any case only those two FAT sectors are written |
| `Installer.Fat32Writer.WriteData` | kernel/src/kernel/installer.rs:312-352 | The image then holds the stored bytes, or nothing was promised because the clusters ran out; for every fault pattern the writes stay in the partition |
| `Installer.Fat32Writer.AddDirEntry` | kernel/src/kernel/installer.rs:355-389 | The image then holds the volume with the entry appended, or the directory was full |
| `Installer.Fat32Writer.FindOrCreateDir` | kernel/src/kernel/installer.rs:393-446 | The image then holds the volume `FindOrCreate` gives, with the same answer |
| `Installer.Fat32Writer.WriteFile` | kernel/src/kernel/installer.rs:450-473 | The image then holds the volume `WriteFile` gives, with the same answer, so by `ReadIsFiled` and `RepresentedListed` every entry has its 32 bytes as written there; for every fault pattern the writes stay in the partition |
| `Fat32Run.WriteAll` | kernel/src/kernel/installer.rs:281-473 | After any number of `write_file` calls on an empty partition, failing or not, the sectors hold the volume of the run, the allocation table is sound, and every file stored on a path that was free or clashed with no other call is read back in full, from a slot whose 32 bytes are its name, 0x20, its first cluster and its length; directories have 0x10 and no size |
| `Fat32Run.RepresentedSound` | kernel/src/kernel/installer.rs:183-352 | In every image the writer reaches each directory and file has its own ascending chain up to the end mark, the FAT copies agree, and nothing from the allocation mark on is in use |
| `Fat32Run.RunReadable` | kernel/src/kernel/installer.rs:281-473 | Every such file of a run is read back from any image of its volume, and listed so |
| `Fat32Run.SlotSaysOf` | kernel/src/kernel/installer.rs:371-383 | The 32 bytes of a directory slot in numbers: name, attribute, both halves of the cluster, size, zeros elsewhere |
| `Fat32Run.ReadIsFiled` | kernel/src/kernel/installer.rs:355-389 | A file the volume has is listed on disk, in the directory its path leads to, with attribute 0x20, its length and the first cluster of its bytes |
| `Fat32Run.RepresentedListed` | kernel/src/kernel/installer.rs:413-446 | Every subdirectory and dot entry is listed with attribute 0x10 and size 0 |
| `Install.FormattedIsEmpty` | kernel/src/kernel/installer.rs:183-202 | A formatted partition holds the empty volume |
| `Install.FormatEfiPartition` | kernel/src/kernel/installer.rs:116-202 | With I/O succeeding the partition is formatted and its boot sector, backup and FSInfo are as `BootSectors` says; in any case only LBAs 2048 to 133119 are written |
| `Install.FormatDataPartition` | kernel/src/kernel/installer.rs:210-265 | With I/O succeeding the data partition has its boot sector and reads as an empty FAT16 volume; in any case only LBAs 133120 to 264191 are written |
| `Install.DataReads` | kernel/src/kernel/installer.rs:245-262 | Read as FAT16, entry 0 is 0xFFF8, entry 1 is 0xFFFF and every other entry 0 in both copies, and the root directory is empty |
| `Install.BootNames` | kernel/src/kernel/installer.rs:478-530 | The eleven bytes of every boot file and directory name, from its name and extension |
| `Install.WriteBootFiles` | kernel/src/kernel/installer.rs:491-530 | Answers whether all boot files were stored, and the image then holds the volume of those calls |
| `Install.BootCallsValid` | kernel/src/kernel/installer.rs:491-530 | The names and paths of the boot files are valid and do not clash |
| `Install.BootFilesFit` | kernel/src/kernel/installer.rs:491-530 | All boot files are stored if and only if their sizes and directories fit in the partition |
| `Install.BootFilesReadable` | kernel/src/kernel/installer.rs:491-530 | Each of the four boot files reads back from the image byte for byte |
| `Install.DoInstall` | kernel/src/kernel/installer.rs:536-582 | Result code and step for every fault pattern; a result from -1 to -5 has not touched sector 0; otherwise the boot record is the very last write, and it is the one described; with I/O succeeding success is decided by the sizes alone and leaves both partitions formatted and every file readable |
| `NotepadUndo.TypeUndoes` | kernel/src/gui/notepad.rs:786-794 | The operation recorded for a typed character undoes and redoes it |
| `NotepadUndo.EnterUndoes` | kernel/src/gui/notepad.rs:796-806 | The operation recorded for a line break undoes and redoes it |
| `NotepadUndo.DeleteUndoes` | kernel/src/gui/notepad.rs:808-816 | The operation recorded for a deleted character undoes and redoes it |
| `NotepadUndo.JoinUndoes` | kernel/src/gui/notepad.rs:817-826 | The operation recorded for a joined line undoes and redoes it when the join fits |
| `NotepadUndo.RunRefines` | kernel/src/gui/notepad.rs:628-826 | Every mix of edits, cursor moves, undos and redos without a truncating join does what an editor that keeps whole snapshots does |
| `NotepadUndo.RunSafe` | kernel/src/gui/notepad.rs:663-718 | After every such run the newest operations of both logs refer to places that exist |
| `NotepadUndo.UndoTimes` | kernel/src/gui/notepad.rs:702-709 | Undoing n times goes back to the snapshot before the n-th last edit |
| `NotepadUndo.UndoThenRedo` | kernel/src/gui/notepad.rs:702-718 | Undoing and redoing n times gives the document back, with the cursor where the last edit left it |
| `NotepadUndo.UndoRedoOfRun` | kernel/src/gui/notepad.rs:628-718 | After any run of edits and moves the log holds the newest 256 edits; undoing n of them restores the document and cursor from before the n-th last, and redoing restores the end |
| `NotepadUndo.JoinUndoneIffFits` | kernel/src/gui/notepad.rs:766-784 | Undoing a join restores the document if and only if the joined line was not cut at 256 bytes |
| `NotepadBuffer.Buffer.RawInsertCharAt` | kernel/src/gui/notepad.rs:722-730 | Shifting in place inserts the byte into that line only |
| `NotepadBuffer.Buffer.RawDeleteCharAt` | kernel/src/gui/notepad.rs:732-741 | Shifting in place removes the byte from that line only |
| `NotepadBuffer.Buffer.RawSplitLine` | kernel/src/gui/notepad.rs:743-764 | Shifting rows in place splits the line at the column |
| `NotepadBuffer.Buffer.RawJoinLines` | kernel/src/gui/notepad.rs:766-784 | Shifting rows in place joins the line with the next, cut at 256 bytes |
| `NotepadBuffer.Buffer.UndoPush` | kernel/src/gui/notepad.rs:628-640 | The ring then holds the newest 256 operations and the redo stack is empty |
| `NotepadBuffer.Buffer.UndoPop` | kernel/src/gui/notepad.rs:642-647 | Takes the newest operation off the ring |
| `NotepadBuffer.Buffer.ApplyOp` | kernel/src/gui/notepad.rs:663-700 | Applies an operation to the arrays as the value model does and returns its reverse |
| `NotepadBuffer.Buffer.InsertChar` | kernel/src/gui/notepad.rs:786-794 | The arrays, cursor and logs then are those of the value model |
| `NotepadBuffer.Buffer.InsertNewline` | kernel/src/gui/notepad.rs:796-806 | The arrays, cursor and logs then are those of the value model |
| `NotepadBuffer.Buffer.Backspace` | kernel/src/gui/notepad.rs:808-826 | The arrays, cursor and logs then are those of the value model |
| `NotepadBuffer.Buffer.Undo` | kernel/src/gui/notepad.rs:702-709 | The arrays, cursor and logs then are those of the value model |
| `NotepadBuffer.Buffer.Redo` | kernel/src/gui/notepad.rs:711-718 | The arrays, cursor and logs then are those of the value model |
| `NotepadBuffer.Buffer.MoveCursor` | kernel/src/gui/notepad.rs:948-979 | The cursor moves as the value model says (see `LeftRight` and `UpDown`) and stays inside the text |
| `NotepadFlat.OffsetsDiffer` | kernel/src/gui/notepad.rs:948-979 | Every cursor place has its own offset in the document as one string, from zero to its length |
| `NotepadFlat.LeftRight` | kernel/src/gui/notepad.rs:962-979 | Left and right change that offset by exactly one, and stay only at the start and the end of the document |
| `NotepadFlat.LeftRightInverse` | kernel/src/gui/notepad.rs:962-979 | They undo each other everywhere else |
| `NotepadFlat.UpDown` | kernel/src/gui/notepad.rs:948-961 | Up and down change the row by exactly one if there is such a row, and the column is the old one or the end of a shorter line |
| `NotepadFlat.TypeInserts` | kernel/src/gui/notepad.rs:786-794 | Typing inserts the byte into the document at the cursor offset and moves past it, unless the line has 256 bytes |
| `NotepadFlat.EnterInserts` | kernel/src/gui/notepad.rs:796-806 | Return inserts a newline at the cursor offset and moves past it, unless there are 1024 lines |
| `NotepadFlat.BackDeletes` | kernel/src/gui/notepad.rs:808-826 | Backspace removes the byte before the cursor offset and moves there, unless there is none; a join past 256 bytes loses the rest too |
| `NotepadBuffer.Buffer.Serialize` | kernel/src/gui/notepad.rs:473-483 | Writes the lines joined by newlines, and the buffer never fills early |
| `NotepadBuffer.Buffer.Load` | kernel/src/gui/notepad.rs:525-552 | The arrays then hold the parsed lines, cut at 256 bytes, if and only if the data has fewer than 1024 newlines |
| `NotepadBuffer.Buffer.FindNext` | kernel/src/gui/notepad.rs:574-624 | Finds the next occurrence after the current one in cyclic document order, or none |
| `NotepadFile.WrittenIsJoined` | kernel/src/gui/notepad.rs:473-483 | The bytes written row by row are the lines joined by newlines |
| `NotepadFile.ParsedIsCut` | kernel/src/gui/notepad.rs:525-552 | Parsing gives the newline-separated lines, each cut at 256 bytes |
| `NotepadFile.OpenAfterSave` | kernel/src/gui/notepad.rs:473-552 | Opening what was saved gives the document back, for all documents without newline bytes in lines |
| `NotepadFile.SaveAfterOpen` | kernel/src/gui/notepad.rs:473-552 | Saving what was opened gives the bytes back if and only if no line is longer than 256 bytes |
| `NotepadFind.FoundIffOccurs` | kernel/src/gui/notepad.rs:581-624 | A match is reported if and only if the query occurs |
| `NotepadFind.TwoPasses` | kernel/src/gui/notepad.rs:581-624 | A pass from just after the current match and, if it finds nothing, one from the top together find the cyclically next occurrence |
| `NotepadFind.NextMoves` | kernel/src/gui/notepad.rs:581-624 | The search stays at an occurrence only if it is the only one |
| `MarkdownHtml.NeutralElement` | tools/docgen/src/markdown.rs:508-569 | An element around balanced content is balanced |
| `MarkdownInline.EscapeHtmlSafe` | tools/docgen/src/markdown.rs:603-614 | Escaped text has no angle brackets and unescapes to the original |
| `MarkdownInline.EscapeText` | tools/docgen/src/markdown.rs:603-614 | The escaping loop writes that text |
| `MarkdownInline.EscapeAttrSafe` | tools/docgen/src/markdown.rs:616-628 | An escaped attribute has no quotes or angle brackets and unescapes to the original |
| `MarkdownInline.BacktickCloseIsFirst` | tools/docgen/src/markdown.rs:801-819 | The closing backticks found are the first run of exactly that length |
| `MarkdownInline.ScanBacktickClose` | tools/docgen/src/markdown.rs:801-819 | The scanning loop finds that run |
| `MarkdownInline.ScanEmphasisClose` | tools/docgen/src/markdown.rs:821-847 | The scanning loop finds the first closing delimiter of the value model |
| `MarkdownInline.EmphasisCloseIsFirst` | tools/docgen/src/markdown.rs:821-847 | The close found is the first run of the delimiter, outside code and escapes, that is long enough and may close |
| `MarkdownInline.MatchingIsFirst` | tools/docgen/src/markdown.rs:849-888 | The bracket or parenthesis found is the first place where as many have closed as opened, escaped ones aside |
| `MarkdownInline.ScanMatching` | tools/docgen/src/markdown.rs:849-888 | The counting loop finds the matching bracket or parenthesis of the value model |
| `MarkdownInline.RenderSpan` | tools/docgen/src/markdown.rs:651-799 | The rendering loop writes what the recursive renderer gives, whose meaning `RenderedText` and the equations below fix |
| `MarkdownText.RenderedText` | tools/docgen/src/markdown.rs:646-799 | For every text, taking the tags out of its rendering and reading the entities gives the text without its markup: what emphasis, links and code enclose, through all nesting |
| `MarkdownText.LettersKept` | tools/docgen/src/markdown.rs:646-799 | In a text without links, tags and entities no character but spaces and delimiters is lost, repeated or moved |
| `MarkdownLocal.RenderSpanAlone` | tools/docgen/src/markdown.rs:651-799 | A span renders like its text alone, whatever stands around it |
| `MarkdownLocal.Peel` | tools/docgen/src/markdown.rs:651-655 | A text renders as its first construct followed by the rendering of the rest on its own, unless the rest starts with an underscore, which looks at the character before it |
| `MarkdownEquations.PlainRenders` | tools/docgen/src/markdown.rs:646-799 | A text without markup renders to itself, escaped |
| `MarkdownEquations.QuotedRenders` | tools/docgen/src/markdown.rs:657-660 | Every text can be written with backslashes so that it renders to itself, escaped |
| `MarkdownEquations.Backslash` | tools/docgen/src/markdown.rs:657-660 | A backslash makes the punctuation after it literal |
| `MarkdownEquations.Stars` | tools/docgen/src/markdown.rs:684-749 | One, two, three stars or underscores around a text give em, strong, or em in strong around its rendering |
| `MarkdownEquations.Tildes` | tools/docgen/src/markdown.rs:684-749 | Two tildes give del |
| `MarkdownEquations.LoneDelimiters` | tools/docgen/src/markdown.rs:684-749 | Delimiters before white space or with none of their kind after them stand for themselves |
| `MarkdownEquations.Backticks` | tools/docgen/src/markdown.rs:661-683 | Backticks around a text give code with that text escaped |
| `MarkdownEquations.CodeSpaces` | tools/docgen/src/markdown.rs:661-683 | One space on each side of code is dropped unless there is nothing but spaces |
| `MarkdownEquations.LinkRenders` | tools/docgen/src/markdown.rs:890-916 | A caption and a destination give an anchor around the rendered caption |
| `MarkdownEquations.SimpleLink` | tools/docgen/src/markdown.rs:890-945 | With a bare address, the anchor to that address |
| `MarkdownEquations.TitledLink` | tools/docgen/src/markdown.rs:890-945 | With an address and a quoted title, the anchor with both attributes |
| `MarkdownEquations.BracketedAddress` | tools/docgen/src/markdown.rs:932-945 | An address in angle brackets is the address without them |
| `MarkdownEquations.SimpleImage` | tools/docgen/src/markdown.rs:890-930 | An image with its address, and its caption as alternative text, escaped twice |
| `MarkdownEquations.AltReads` | tools/docgen/src/markdown.rs:902-908 | So an alternative text of plain text reads as written if and only if it holds no > |
| `MarkdownEquations.AutoLink` | tools/docgen/src/markdown.rs:947-960 | A scheme address in angle brackets is an anchor to itself |
| `MarkdownEquations.MailLink` | tools/docgen/src/markdown.rs:947-960 | A mail address in angle brackets is a mailto anchor |
| `MarkdownEquations.LoneAngle` | tools/docgen/src/markdown.rs:769-777 | A < that nothing closes is escaped |
| `MarkdownEquations.Entity` | tools/docgen/src/markdown.rs:982-1003 | An entity is left as it is |
| `MarkdownEquations.LoneAmp` | tools/docgen/src/markdown.rs:778-788 | Any other ampersand is escaped |
| `MarkdownBalanced.RenderInlineBalanced` | tools/docgen/src/markdown.rs:646-799 | For every text in which rendering reaches no raw tag, such as one with tags only inside backticks, rendered inline markup is properly nested and closed, with no stray angle bracket |
| `MarkdownBalanced.RawTagUnbalanced` | tools/docgen/src/markdown.rs:947-969 | A raw tag is passed through, so the condition cannot be dropped; inside backticks the same tag is no raw tag |
| `MarkdownBalanced.HarmlessTagFree` | tools/docgen/src/markdown.rs:651-799 | A text where no `<` is followed by a letter, by `/` and a letter or by `!--` has no raw tag |
| `MarkdownBlocks.UnquotedShrinks` | tools/docgen/src/markdown.rs:147-162 | The lines inside a quote have fewer characters in all |
| `MarkdownBlocks.ItemShrinks` | tools/docgen/src/markdown.rs:164-202 | The lines inside a list item have fewer characters in all |
| `MarkdownBlocks.ParseCovers` | tools/docgen/src/markdown.rs:281-461 | Blocks take consecutive line ranges separated by blank lines only |
| `MarkdownBlocks.LineInOneBlock` | tools/docgen/src/markdown.rs:281-461 | Every line that is not blank is in exactly one block |
| `MarkdownBlocks.ParseMade` | tools/docgen/src/markdown.rs:281-461 | Every block is made from exactly its own lines and as many as belong to it: a code block from its opening line with that language up to its first closing line, dedented; quotes from all quoted lines, unquoted; tables with that head, alignment and all rows; lists ordered and numbered by their first marker; the text of paragraphs, code and HTML holds the lines in order with a newline after each but the last |
| `MarkdownBlocks.JoinConsists` | tools/docgen/src/markdown.rs:281-461 | A joined text splits at its newlines into the lines it was made of |
| `MarkdownBlocks.ItemEndMeans` | tools/docgen/src/markdown.rs:368-394 | An item takes the lines that are indented to its text, and blank ones if the next line that is not blank is so indented, and no others |
| `MarkdownLines.HeadingIs` | tools/docgen/src/markdown.rs:96-111 | One to six hashes and a space, indented at most three columns, make a heading of that level with the text between them and the closing hashes |
| `MarkdownLines.RuleIs` | tools/docgen/src/markdown.rs:113-123 | Dashes, stars or underscores alone make a rule if and only if there are three or more; no other character does |
| `MarkdownLines.FenceIs` | tools/docgen/src/markdown.rs:125-140 | Three or more backticks or tildes open a code block with what follows as information |
| `MarkdownLines.FirstWordIs` | tools/docgen/src/markdown.rs:291-297 | Its language is the first word of that |
| `MarkdownLines.QuoteIs` | tools/docgen/src/markdown.rs:142-162 | A > indented at most three columns quotes the rest of the line without one space |
| `MarkdownLines.BulletIs` | tools/docgen/src/markdown.rs:164-180 | A dash, star or plus and a space start a bullet |
| `MarkdownLines.OrderedIs` | tools/docgen/src/markdown.rs:181-202 | A number of up to nine digits, a dot or parenthesis and a space start a numbered item with that number |
| `MarkdownLines.HtmlIs` | tools/docgen/src/markdown.rs:259-270 | A line is raw HTML by the character after its < |
| `MarkdownLines.RowIs` | tools/docgen/src/markdown.rs:232-257 | Cells between bars are read as those cells |
| `MarkdownLines.SeparatorIs` | tools/docgen/src/markdown.rs:204-230 | A separator line of dashes and colons gives the alignments it shows |
| `MarkdownLines.TrimMeans` | tools/docgen/src/markdown.rs:96-140 | Trimming cuts white space off both ends and nothing else |
| `MarkdownLines.SlugOfWords` | tools/docgen/src/markdown.rs:474-500 | The slug of words is the words in lower case joined by dashes |
| `MarkdownParser.CollectFenced` | tools/docgen/src/markdown.rs:291-310 | The loop up to the closing fence gives the code block of the recursive parser |
| `MarkdownParser.CollectQuote` | tools/docgen/src/markdown.rs:325-334 | The loop over quoted lines and the nested parse give its quote |
| `MarkdownParser.CollectItem` | tools/docgen/src/markdown.rs:368-394 | The loop over the lines of an item, looking ahead past blank lines, gives its stripped lines |
| `MarkdownParser.CollectList` | tools/docgen/src/markdown.rs:336-399 | The loop over items of one kind and indent gives its list |
| `MarkdownParser.CollectText` | tools/docgen/src/markdown.rs:401-459 | The loops over rows, raw HTML lines and paragraph lines give its table, HTML or paragraph |
| `MarkdownParser.ParseBlocks` | tools/docgen/src/markdown.rs:281-461 | The whole of the nested loops returns the blocks of the recursive parser, of which `ParseMade` says what lines make each |
| `MarkdownWellFormed.SlugifyOk` | tools/docgen/src/markdown.rs:474-500 | Heading ids are safe inside an attribute |
| `MarkdownWellFormed.BlockNeutral` | tools/docgen/src/markdown.rs:508-569 | Every block that is not raw HTML and in whose text rendering reaches no raw tag renders to balanced HTML; code may hold anything |
| `MarkdownWellFormed.DocumentBalanced` | tools/docgen/src/markdown.rs:281-599 | Parsing and rendering any document without raw HTML blocks and reached raw tags gives properly nested, closed elements |
| `MarkdownWellFormed.RawHtmlUnbalanced` | tools/docgen/src/markdown.rs:419-445 | A line of raw HTML is passed through, so the condition cannot be dropped |
| `MarkdownWellFormed.HarmlessDocumentBalanced` | tools/docgen/src/markdown.rs:281-599 | So does any document in whose source no `<` is followed by a letter, by `/` and a letter or by `!--` |
| `MarkdownPages.HeadingPage` | tools/docgen/src/markdown.rs:502-513 | A line of hashes and text becomes a heading of that level with the slug as id and the rendered text |
| `MarkdownPages.RulePage` | tools/docgen/src/markdown.rs:502-531 | Three or more dashes, stars or underscores become a rule |
| `MarkdownPages.ParagraphPage` | tools/docgen/src/markdown.rs:583-601 | Lines of prose become one paragraph, each rendered, with newlines between |
| `MarkdownPages.HardBreak` | tools/docgen/src/markdown.rs:583-601 | Two spaces or a backslash at the end of a line become a break |
| `MarkdownPages.CodePage` | tools/docgen/src/markdown.rs:291-526 | A fenced block becomes code with its lines unchanged but escaped, and its language as a class |
| `MarkdownPages.QuotePage` | tools/docgen/src/markdown.rs:325-536 | Any document at all with every line quoted becomes its own rendering inside a block quote |
| `MarkdownPages.BulletPage` | tools/docgen/src/markdown.rs:336-399 | Bulleted lines become a list of their rendered texts in order |
| `MarkdownPages.NumberPage` | tools/docgen/src/markdown.rs:336-399 | Numbered lines become an ordered list that starts at the first number, whatever the others are |
| `MarkdownPages.TablePage` | tools/docgen/src/markdown.rs:401-418 | A head, a separator and rows become a table with the cells rendered in order and aligned by column |
| `MarkdownPages.TwoParagraphs` | tools/docgen/src/markdown.rs:281-290 | A blank line separates paragraphs |
| `MarkdownPages.HtmlPage` | tools/docgen/src/markdown.rs:419-445 | A line of raw HTML stands as it is |
| `MarkdownSlugs.IdsAre` | tools/docgen/src/markdown.rs:474-493 | The id of each heading is its slug, numbered by how many earlier headings have the same slug |
| `MarkdownSlugs.NumberedOnce` | tools/docgen/src/markdown.rs:490-491 | A numbered slug comes from one slug and one number only |
| `MarkdownSlugs.IdsDifferent` | tools/docgen/src/markdown.rs:474-493 | All heading ids are different if and only if no slug is another one followed by a dash and a number from 1 to below how often that one occurs |
| `MarkdownSlugs.IdsClash` | tools/docgen/src/markdown.rs:474-493 | The headings a, a, a-1 get the ids a, a-1, a-1 |
| `MarkdownSlugs.RenderSlugs` | tools/docgen/src/markdown.rs:502-569 | Rendering numbers the headings of a document in order, through quotes and lists, as that list of headings |
| `WindowModel.RunConsistent` | kernel/src/gui/window_manager.rs:121-535 | Over every run of window operations and mouse events the stacking order lists exactly the occupied slots, each once, the focused and dragged windows exist, and no id is out of range |
| `WindowModel.StepKeeps` | kernel/src/gui/window_manager.rs:121-535 | Every single operation keeps that |
| `WindowModel.AddKeeps` | kernel/src/gui/window_manager.rs:121-148 | A new window gets a slot that was not in the order |
| `WindowModel.WithoutAt` | kernel/src/gui/window_manager.rs:150-178 | Shifting the order down over a gap removes exactly that id |
| `WindowModel.OthersKeepOrder` | kernel/src/gui/window_manager.rs:279-304 | Removing a window or bringing it to the front keeps the relative order of all others |
| `WindowModel.HitIsTopmost` | kernel/src/gui/window_manager.rs:323-434 | A click goes to the topmost window it touches, and to one whenever it touches any |
| `WindowClicks.PartIs` | kernel/src/gui/window_manager.rs:307-395 | Which part of a window a point is on, from the rectangle of the window in pixels, and that it is on none exactly when it touches nothing |
| `WindowClicks.ButtonClick` | kernel/src/gui/window_manager.rs:323-434 | A click on the 14-pixel square at 10, 28 or 46 of the topmost touched window closes, minimises or maximises it |
| `WindowClicks.BorderClick` | kernel/src/gui/window_manager.rs:307-434 | A click within eight pixels of the right or bottom border of a normal window raises it and starts resizing that border, both in the corner |
| `WindowClicks.TitleClick` | kernel/src/gui/window_manager.rs:323-434 | A click in the top rows raises the window and starts dragging it from that point, a snapped one at its old size, a maximised one not at all |
| `WindowClicks.BodyClick` | kernel/src/gui/window_manager.rs:323-434 | A click anywhere else inside only raises the window |
| `WindowClicks.MissedClick` | kernel/src/gui/window_manager.rs:323-434 | A click that touches no window changes nothing and says so |
| `WindowClicks.TaskbarReaches` | kernel/src/gui/window_manager.rs:436-466 | A click in the top 48 rows is for the clock, or restores, minimises or raises the window whose item is there, by its state and the focus; elsewhere nothing |
| `WindowClicks.AddedOnTop` | kernel/src/gui/window_manager.rs:121-148 | A new window is on top and focused, in the first free slot; none is added exactly when all sixteen are taken |
| `WindowClicks.RemovedIsGone` | kernel/src/gui/window_manager.rs:150-183 | A removed window is gone, the others are as they were, and the focus goes from it to the window now on top |
| `WindowClicks.RaisedIsOnTop` | kernel/src/gui/window_manager.rs:279-304 | A raised window is last in the order and nothing about any window changes |
| `WindowClicks.MinimizedStays` | kernel/src/gui/window_manager.rs:185-210 | A minimised window keeps its place in the order and its rectangle |
| `WindowClicks.MaximizedFills` | kernel/src/gui/window_manager.rs:212-235 | A maximised window covers a point of the screen if and only if it is below the taskbar |
| `WindowClicks.SnappedFills` | kernel/src/gui/window_manager.rs:254-277 | A snapped window covers a point of the screen if and only if it is below the taskbar in that half |
| `WindowModel.MinimizeMovesFocus` | kernel/src/gui/window_manager.rs:185-210 | Minimising the focused window moves the focus to the topmost other window that is not minimised, and to none exactly when there is none |
| `WindowModel.RaiseFocuses` | kernel/src/gui/window_manager.rs:237-304 | Raising or restoring a window focuses it if and only if it had the focus or another window was above it; from the top the focus stays where it was |
| `WindowModel.MinimizeRestoreFocus` | kernel/src/gui/window_manager.rs:185-304 | Minimising and restoring the focused window gives the focus back if and only if another window is above it |
| `WindowModel.MaximizeTwice` | kernel/src/gui/window_manager.rs:212-235 | Maximising twice, or snapping and restoring, gives the geometry back |
| `WindowModel.SnapTwice` | kernel/src/gui/window_manager.rs:254-277 | After snapping twice, restoring gives the original back if and only if the rectangle of the window was the first half already |
| `WindowModel.MinimizeRestore` | kernel/src/gui/window_manager.rs:185-251 | Minimising and restoring leaves the window normal, whatever it was |
| `WindowModel.RemoveAndResize` | kernel/src/gui/window_manager.rs:150-183 | The id kept for resizing stays live if and only if another window was removed |
| `WindowModel.TitleDragMoves` | kernel/src/gui/window_manager.rs:489-511 | A press on the title bar and a movement move the window by that movement, clipped at the left and under the taskbar |
| `WindowModel.EdgeDragResizes` | kernel/src/gui/window_manager.rs:489-511 | A press on an edge and a movement change that edge only, down to the least size |
| `WindowModel.ReleaseSnaps` | kernel/src/gui/window_manager.rs:513-535 | Letting go near an edge snaps to that half, and restoring brings the place back |
| `WindowManager.Manager.constructor` | kernel/src/gui/window_manager.rs:75-102 | A new manager is the empty desk |
| `WindowManager.Manager.AddWindow` | kernel/src/gui/window_manager.rs:121-148 | The arrays then are those of the value model, in the first free slot |
| `WindowManager.Manager.RemoveWindow` | kernel/src/gui/window_manager.rs:150-183 | The arrays then are those of the value model |
| `WindowManager.Manager.MinimizeWindow` | kernel/src/gui/window_manager.rs:185-210 | The arrays then are those of the value model |
| `WindowManager.Manager.MaximizeWindow` | kernel/src/gui/window_manager.rs:212-235 | The arrays then are those of the value model |
| `WindowManager.Manager.RestoreWindow` | kernel/src/gui/window_manager.rs:237-251 | The arrays then are those of the value model |
| `WindowManager.Manager.Snap` | kernel/src/gui/window_manager.rs:254-277 | The arrays then are those of the value model |
| `WindowManager.Manager.BringToFront` | kernel/src/gui/window_manager.rs:279-304 | The arrays then are those of the value model |
| `WindowManager.Manager.HandleClick` | kernel/src/gui/window_manager.rs:323-434 | The arrays and the answer then are those of the value model, which `ButtonClick` to `MissedClick` give from the coordinates |
| `WindowManager.Manager.HandleTaskbarClick` | kernel/src/gui/window_manager.rs:436-466 | The arrays and the answer then are those of the value model, which `TaskbarReaches` gives from the coordinate |
| `WindowManager.Manager.HandleDrag` | kernel/src/gui/window_manager.rs:489-511 | The arrays then are those of the value model |
| `WindowManager.Manager.ReleaseDrag` | kernel/src/gui/window_manager.rs:513-535 | The arrays then are those of the value model |
| `FdTables.CloseCounted` | kernel/src/kernel/fs/ramfs.rs:242-256 | `close` keeps every pipe end counted once per table entry that refers to it, and open exactly while there is one |
| `FdTables.Dup2Counted` | kernel/src/kernel/fs/ramfs.rs:347-371 | `dup2`, also onto an open descriptor or itself, keeps the counts exact if and only if the 8-bit counter of the copied end has room |
| `FdTables.ForkCounted` | kernel/src/kernel/proc/scheduler.rs:831-876 | `fork` keeps the counts exact if and only if the slot the child takes was left without pipe ends |
| `FdTables.ExecCounted` | kernel/src/kernel/sys/syscall.rs:1803-1816 | `exec` keeps the counts exact if and only if the process had closed all but its standard descriptors |
| `FdTables.PipeCounted` | kernel/src/kernel/sys/syscall.rs:1473-1496 | `pipe` keeps the counts exact unless a pipe is free and exactly one descriptor is: then a read end stays behind in the table |
| `FdTables.DupCounted` | kernel/src/kernel/sys/syscall.rs:741-761 | `dup` and F_DUPFD keep the counts exact if and only if they fail or copy no pipe end |
| `FdTables.LaunchCounted` | kernel/src/kernel/proc/scheduler.rs:420-440 | Starting a program keeps the counts exact if and only if its slot was left without pipe ends |
| `FdCalls.CloseTouches` | kernel/src/kernel/fs/ramfs.rs:242-256 | `close` empties that entry of that process and changes no other |
| `FdCalls.Dup2Touches` | kernel/src/kernel/fs/ramfs.rs:347-371 | `dup2` copies the entry if there is one, and changes no other |
| `FdCalls.ForkTouches` | kernel/src/kernel/proc/scheduler.rs:855-876 | A child has the entries of its parent, and no other process changes |
| `FdCalls.ExecTouches` | kernel/src/kernel/sys/syscall.rs:1803-1816 | `exec` empties the entries from 3 on and changes nothing else |
| `FdCalls.LaunchTouches` | kernel/src/kernel/proc/scheduler.rs:420-440 | A program starts with no entries, and no other process changes |
| `FdCalls.DupTouches` | kernel/src/kernel/sys/syscall.rs:443-459 | `dup` and F_DUPFD copy to the lowest free descriptor from the given one on, and fail exactly when there is nothing to copy or no such descriptor |
| `FdCalls.PipeTouches` | kernel/src/kernel/sys/syscall.rs:1473-1496 | `pipe` opens the first pipe closed at both ends, and gives its ends to the two lowest free descriptors from 3 on, the reading end first |
| `FdTables.NoRefsIffUnheld` | kernel/src/kernel/ipc/pipe.rs:66-95 | The count of an end is zero exactly when no table holds it |
| `FdLife.ReadTells` | kernel/src/kernel/ipc/pipe.rs:116-134 | What a read returns, from who holds the ends and what is queued: data while there is any, then end of file exactly when no table holds the write end, otherwise try again |
| `FdLife.EofIffWritersGone` | kernel/src/kernel/proc/scheduler.rs:599-612 | A reader of an empty pipe is told the file ended exactly when no process, exited ones included, holds the write end; so it learns of the last writer's end exactly when a writer lives or no exited one left a write end |
| `FdLife.CountsUpset` | kernel/src/kernel/proc/scheduler.rs:391-434 | A kernel with one pipe open whose counts `fork`, starting a program, `exec` and `dup` each upset |
| `FdLife.PipeUpset` | kernel/src/kernel/sys/syscall.rs:1473-1496 | A kernel with one free descriptor whose counts `pipe` upsets |
| `FdKernel.Kernel.AllocFd` | kernel/src/kernel/fs/ramfs.rs:110-113 | Finds the lowest free descriptor from 3 on |
| `FdKernel.Kernel.AllocPipe` | kernel/src/kernel/ipc/pipe.rs:66-83 | Opens both ends of the first closed pipe with one reference each |
| `FdKernel.Kernel.SysClose` | kernel/src/kernel/fs/ramfs.rs:242-256 | Table and counts then are those of the value model |
| `FdKernel.Kernel.SysDup2` | kernel/src/kernel/fs/ramfs.rs:347-371 | Table and counts then are those of the value model |
| `FdKernel.Kernel.SysDupFrom` | kernel/src/kernel/sys/syscall.rs:443-459 | The search loop takes the first free descriptor from the given one on; table and counts then are those of the value model |
| `FdKernel.Kernel.SysFork` | kernel/src/kernel/proc/scheduler.rs:855-876 | Table and counts then are those of the value model |
| `FdKernel.Kernel.OpenPipe` | kernel/src/kernel/fs/ramfs.rs:156-170 | Takes the two lowest free descriptors, or leaves only the read entry, or nothing |
| `FdKernel.Kernel.SysPipe` | kernel/src/kernel/sys/syscall.rs:1473-1496 | Table and counts then are those of the value model |
| `PipeBuffer.Ring.Write` | kernel/src/kernel/ipc/pipe.rs:98-112 | Appends as many bytes as fit in 4095, in order |
| `PipeBuffer.Ring.Read` | kernel/src/kernel/ipc/pipe.rs:116-134 | Takes the oldest bytes, in order, and answers as the ends and the queue say: bad descriptor, data, end of file or try again |
| `PipeBuffer.RunConserves` | kernel/src/kernel/ipc/pipe.rs:98-134 | Over every run of writes and reads, the bytes handed out followed by the bytes queued are exactly the bytes accepted |
| `PipelinePlan.AfterStage` | userspace/sh/src/main.rs:235-247 | The calls of stage i give it exactly the shell's table with standard input from pipe i-1 and standard output to pipe i or the redirect |
| `PipelinePlan.AfterShell` | userspace/sh/src/main.rs:270-275 | The shell's closing calls give it its own table back, without the redirect |
| `PipelineOpen.PipesOpen` | userspace/sh/src/main.rs:222-230 | With enough free pipes and descriptors every `pipe` succeeds, with distinct pipes and distinct descriptors from 3 on, and the counts stay exact |
| `PipelineOpen.FreshCanRun` | userspace/sh/src/main.rs:217-230 | On a kernel with nothing open, every pipeline of one to eight stages meets the conditions of the laws below |
| `PipelineRun.EveryScheduleWires` | userspace/sh/src/main.rs:217-281 | In whatever order the shell and the stages make their calls, at the end every stage has exactly its table, the shell its own, all others are untouched, and every pipe counts one reader and one writer (none for a stage that could not be forked) |
| `PipelineRun.NoEndLost` | userspace/sh/src/main.rs:217-281 | At no moment of any order does a pipe count no writer, or no reader, while that stage runs or may still be forked |
| `PipelineRun.StageExecs` | userspace/sh/src/main.rs:249-260 | A wired stage can go on to `exec` without upsetting the counts, if the shell held no other pipe ends |
| `PipelineShell.InOrderIsRun` | userspace/sh/src/main.rs:232-276 | The order in which the shell's loops make the calls is one of those orders |
| `PipelineShell.InOrderWires` | userspace/sh/src/main.rs:217-276 | From any kernel with room, the shell's own order gives that outcome |
| `PipelineShell.OpenPipes` | userspace/sh/src/main.rs:222-230 | The descriptor arrays hold what the calls of `pipe` gave, -1 where one failed |
| `PipelineShell.WireStage` | userspace/sh/src/main.rs:235-247 | The loop makes exactly the calls of the stage |
| `PipelineShell.CloseAll` | userspace/sh/src/main.rs:242-247 | The loop closes both ends of every pipe, and the redirect |
| `PipelineShell.RunPipeline` | userspace/sh/src/main.rs:217-281 | The kernel then is the one those calls give; from any kernel with room every stage is wired and every pipe has one reader and one writer |
| `PipelineExit.ExitHidesEof` | kernel/src/kernel/proc/scheduler.rs:599-612 | In any finished pipeline, once the stage that writes to a pipe has exited no live process can write to it and yet a reader that has taken everything is told to try again |
| `PipelineExit.TwoStageExit` | userspace/sh/src/main.rs:217-281 | So with two stages on a fresh kernel: the first exits and the second never sees the end of its input |
| `PipelineExit.ReusedSlot` | kernel/src/kernel/proc/scheduler.rs:794-876 | A `fork` that takes the slot of a stage that has exited keeps the counts exact if and only if the pipeline has one stage |
| `CommandLine.TrimCuts` | userspace/sh/src/main.rs:76-80 | Trimming cuts spaces and tabs off both ends and nothing else |
| `CommandLine.PiecesJoin` | userspace/sh/src/main.rs:192-211 | The pieces of a line hold no bars and, joined by bars, give the line back |
| `CommandLine.JoinPieces` | userspace/sh/src/main.rs:192-211 | Every list of pieces without bars comes back from the line that joins them |
| `CommandLine.SplitPipes` | userspace/sh/src/main.rs:192-211 | Returns the first eight pieces, trimmed |
| `Raster.TrackStep` | kernel/src/gui/graphics.rs:268-286 | Every step moves once along the longer axis and stays within half a pixel of the ideal line |
| `Raster.TrackEnd` | kernel/src/gui/graphics.rs:268-286 | The pen stays in the box of the endpoints and reaches the far one exactly after the last step |
| `Raster.Surface.PutPixelSafe` | kernel/src/gui/graphics.rs:430-434 | Colours that pixel if it is on the screen, and no other |
| `Raster.Surface.DrawLine` | kernel/src/gui/graphics.rs:268-286 | Visits exactly max(dx, dy) + 1 points from one endpoint to the other, each within half a pixel of the ideal line; those on the screen are coloured and nothing else |
| `Raster.CircleStep` | kernel/src/gui/graphics.rs:289-308 | The decision value stays the circle function at the midpoint, and the height stays the rounded one |
| `Raster.RoundedUnique` | kernel/src/gui/graphics.rs:289-308 | Rounding leaves one height, or two at an exact tie |
| `Raster.Surface.DrawCircle` | kernel/src/gui/graphics.rs:289-308 | One octant point per column with |x^2 + y^2 - r^2| <= y, mirrored eight ways; beyond the last column only exact ties are left in the octant; nothing else is coloured |
| `BrowserFlow.WrapMeans` | userspace/browser/src/main.rs:408-417 | A full line is cut after a space with none later, or kept whole because its last sixteen bytes have none |
| `BrowserFlow.PushKeeps` | userspace/browser/src/main.rs:395-434 | A byte is kept exactly when the pending line has room, and lines stay within the limit |
| `BrowserFlow.RunConserves` | userspace/browser/src/main.rs:366-434 | Until the line cap, over every run, the lines that are not rules and the pending line together are exactly the bytes pushed outside the title, and no line is wider than the limit |
| `BrowserFlow.RunSpaced` | userspace/browser/src/main.rs:366-434 | Over all runs no blank line comes first or after another blank one if and only if the page has columns: with none, an empty rule counts as one |
| `BrowserFlow.BlankMeans` | userspace/browser/src/main.rs:385-393 | A blank line follows the pending text, unless nothing is above it or there is one already |
| `BrowserFlow.RuleMeans` | userspace/browser/src/main.rs:486-494 | A rule is a line of up to 80 dashes in its own colour below the pending text |
| `BrowserFlow.LooksOfLast` | userspace/browser/src/main.rs:395-434 | A line has the colour and link of its last byte: those of the link, or of the heading level |
| `BrowserFlow.RunTitle` | userspace/browser/src/main.rs:395-434 | Over every run the title is the first 128 bytes pushed inside it |
| `BrowserLayout.Layout.EmitLine` | userspace/browser/src/main.rs:366-379 | The lines and the buffer then are those of the value model |
| `BrowserLayout.Layout.EmitBlank` | userspace/browser/src/main.rs:385-393 | The lines and the buffer then are those of the value model |
| `BrowserLayout.Layout.EmitRule` | userspace/browser/src/main.rs:486-494 | The lines then are those of the value model |
| `BrowserLayout.Layout.FindWrap` | userspace/browser/src/main.rs:408-416 | The backward loop finds the cut |
| `BrowserLayout.Layout.PushChar` | userspace/browser/src/main.rs:395-434 | The lines, the shifted buffer and the title then are those of the value model |
| `PageCodec.DecodeHeld` | userspace/browser/src/main.rs:851-889 | Whatever page within the limits the segment holds is what the reader reconstructs |
| `PageCodec.Layout` | userspace/browser/src/main.rs:774-818 | Where everything of a page is in the segment, byte by byte in numbers |
| `PageCodec.LimitsAre` | userspace/browser/src/main.rs:774-818 | What is cut off: lines past 2000, links past 100, and strings past 256, 128 and 120 bytes |
| `PageCodec.WriteRow` | userspace/browser/src/main.rs:802-808 | Stores one line in its own 110 bytes and changes nothing else |
| `PageCodec.WriteLink` | userspace/browser/src/main.rs:810-816 | Stores one link, cut to 256 bytes, in its own 260 bytes and changes nothing else |
| `PageCodec.WritePage` | userspace/browser/src/main.rs:774-818 | The segment then holds the page cut to 2000 lines, 100 links, and the title or address cut to 128 bytes |
| `PageCodec.WriteError` | userspace/browser/src/main.rs:820-833 | The segment then holds an error page with the message |
| `PageCodec.ReadPage` | userspace/browser/src/main.rs:844-889 | Reads what the segment decodes to, within the limits |
| `PageCodec.HandOver` | userspace/browser/src/main.rs:774-889 | Reading after writing returns the page cut to the limits |
| `Calendar.TablesAgree` | kernel/build.rs:64-68 | The month lengths of the build script and of the calendar panel agree and add up to the year |
| `Calendar.Ordered` | kernel/build.rs:55-78 | Later dates have larger day numbers |
| `Calendar.Unique` | kernel/build.rs:55-78 | No two dates share a day number |
| `Calendar.CurrentDate` | kernel/build.rs:49-77 | Gives the valid date whose number is the day count |
| `Calendar.YearStartClosed` | kernel/src/gui/calendar.rs:47-52 | The days before a year in closed form, over all leap-year rules |
| `Calendar.DowCounts` | kernel/src/gui/calendar.rs:47-52 | The weekday formula equals (days + 4) mod 7 for every date from 1970 on |
| `PathResolve.Normalise` | kernel/src/gui/terminal.rs:223-230 | The loop keeps the segments the stack machine keeps |
| `PathResolve.ResolvedIsNormal` | kernel/src/gui/terminal.rs:213-236 | Every result is the root or a path of plain segments, which resolving again leaves alone |
| `PathResolve.ResolveTwice` | kernel/src/gui/terminal.rs:213-236 | Resolving a path and then a relative one from there is resolving both at once |
| `PathResolve.DownAppends` | kernel/src/gui/terminal.rs:213-236 | A plain name appends itself to the directory |
| `PathResolve.UpUndoesDown` | kernel/src/gui/terminal.rs:213-236 | `..` after it leads back, and stays at the root |
| `PathResolve.StayThere` | kernel/src/gui/terminal.rs:213-236 | `.` and nothing lead to the directory itself |
| `PathResolve.FromWhere` | kernel/src/gui/terminal.rs:213-236 | A path from the root does not depend on the directory, any other is resolved after it |

## Left out

- The contents of the four boot files are parameters.
- The size of the disk is taken as a 32-bit number, as the driver returns it; the driver itself is not modelled.
- Notepad selection, clipboard, menus, scrolling, word-wrap drawing and file names. `delete_selection` and `paste_clipboard` change text without recording it, so the undo laws do not speak of them.
- NotepadBuffer.Buffer.Load: on data with 1024 or more newlines the code sets a line count past its array; the model says the buffer is then not valid and nothing more.
- NotepadBuffer.Buffer.Undo: asks that the newest operation refers to a place that exists, which `RunSafe` proves of every run of recorded edits. After a paste or a cut join it need not, and the code then leaves the cursor outside the text.
- NotepadBuffer.Buffer.Redo: asks the same of the redo log.
- Markdown: splitting the source text into lines and `first_heading`; conformance with a Markdown specification.
- MarkdownBalanced.RenderInlineBalanced: asks that rendering reaches no raw tag, since those are passed through. Raw tags that happen to close each other are balanced too, so the condition is sufficient and not necessary.
- MarkdownText.LettersKept: leaves out texts with brackets, tags and entities, whose addresses are not shown; `RenderedText` covers them.
- MarkdownEquations.Stars: the enclosed text holds no further delimiter of the same kind; for those `EmphasisCloseIsFirst` says which one closes.
- MarkdownPages.ParagraphPage: lines of prose start with a letter and hold no bars; every other document is covered by `ParseMade`.
- MarkdownWellFormed.DocumentBalanced: asks the same of all inline text, and that no block is raw HTML, for the same reason.
- Window drawing, the context menu and wallpapers; 64-bit overflow of coordinates.
- WindowModel.RunConsistent: asks that `set_focused` is given the id of an existing window, as its callers do.
- Which slot the scheduler picks for a child is a parameter, as is whether `fork` succeeds; exit is modelled as far as descriptors go.
- PipelineRun.EveryScheduleWires: asks that the stages get distinct slots that hold no pipe ends, which leaves out a stage that exits before a later `fork` takes its slot; `ReusedSlot` proves that the counts are then no longer exact.
- FdTables.ForkCounted: asks that the child's copies fit in the 8-bit counters.
- Numbers of raw pipe descriptors (80 and up) and error codes of `close`, `dup2` and `pipe`, which the shell ignores.
- PipelineShell.RunPipeline: the loop over `waitpid`, parsing of a stage's program name and `exec` itself come after the wiring and are not part of it.
- FdKernel.Kernel: the tables of the processes are sequences inside an array, not arrays inside an array.
- Shell variables, redirect parsing, jobs and built-ins.
- Alpha blending, rectangles, text and cursor drawing; overflow of 64-bit coordinates.
- BrowserFlow.RunConserves: past the cap of 4096 lines bytes are dropped once the pending line is full, so the law ends there.
- The tag and entity dispatch of `parse_html`: the law covers every sequence of calls it can make. Fetching, navigation and drawing are not part of this model.
- PageCodec.WritePage: the status text is a parameter, and strings are taken as valid UTF-8, for which the code copies the bytes unchanged. How the status text is made is not part of this model: it slices the title or address at byte 60 (userspace/browser/src/main.rs:784), which panics when that byte is inside a character.
- Calendar.DowCounts: years in which the 32-bit sums of the formula overflow (beyond three thousand million), and drawing and navigation of the panel.
- The remaining kernel: scheduler, paging, network, ATA driver, RamFS and ext2 contents, and the graphical programs.
