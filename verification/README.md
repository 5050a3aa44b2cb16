# Verified model of the journal file, the terminal core and the streaming edges

This Dafny project models three parts of the repository and proves what they are meant to guarantee.

* **The journal file** (`pkg/journalfile`). The file is an image of objects keyed by offset, and the writer is a
  class that changes it by single writes, each of them recorded. So it can be said what every state of the file
  looks like, also in the middle of an append, and the reader is run against a file that may change between any two
  of its reads. `JournalImage`, `JournalShape` and `JournalWrites` hold the format and what it means to be well
  formed; `JournalExtend`, `JournalIndex`, `JournalChains`, `JournalSteps`, `JournalQuiet`, `JournalLinks`,
  `JournalCommit`, `JournalAppend` and `JournalDedup` hold the lemmas about single steps; `JournalWriter` and
  `JournalReader` are the two programs; `JournalTheorems` has the results.
* **The terminal core** (`vterm/libvterm/src`) and its re-renderer (`vterm/wasm.go`). `Cells`, `Screen`,
  `Scrollback`, `Resize` and `Damage` are about the grid; `ParserRules`, `Parser`, `ParserLoop` and
  `ParserCommands` about escape sequences; `PenState`, `Utf8`, `Render`, `RenderBytes`, `RenderTrip` and `Decimal`
  about attributes and characters; `Cursor` about positions, margins and modes.
* **The streaming edges**. `Streams` is the line and event reader of `internal/protocol/protocol.go`, `Attach` the
  snapshot-then-stream protocol of `internal/host/tty.go`.

Code that works by changing things is written as classes and loops over arrays and fields, each method proved
against a specification function; what the design promises is proved about those functions, over all inputs or
over all runs.

## Assumptions

* The 64-bit hash of the journal is a parameter. Deduplication goes by the hash alone, so `AppendEntry` asks that
  the hash does not clash on what the file holds and what is added. Field names hold no `=`.
* `AppendEntry` asks that the file is below 4 GiB, because `tail_entry_array_offset` has 32 bits. Writes succeed.
* A run of scrolls, moves or cursor commands has a fixed screen size; the cursor needs at least two columns.
* Default colours are the unchanged ones of the terminal where pens are restored, and bold-high-bright is off there
  unless a member says otherwise.

## Where the code differs from what one might expect

The model follows the code in each case, and the members named state it exactly.

* `vterm_scroll_rect` with two axes erases only the corner exposed by both; with distance zero it would erase all,
  which its caller prevents (`Screen.ShiftsExactlyWhen`).
* Scrolling a region at the top of the screen backwards by less than its height loses its bottom rows, while a
  backward scroll by its whole height pushes them (`Scrollback.AlwaysConservesExactlyWhen`,
  `Scrollback.RunConservesExactlyWhen`).
* With row merging, a stored damage report without rows swallows a later one of one row that begins on the same row;
  ED 1 with the cursor in the first row makes such a report. A glyph of width zero changes a cell but reports an
  empty rectangle (`Damage.LostGlyph`, `Damage.RowMergeKeepsAll`, `Damage.GlyphReported`).
* In the content of a string, an ESC followed by NUL, DEL, another ESC or a C0 control other than BEL, CAN and SUB
  depends on how the input is split (`Parser.EscExactlyWhen`). So does an OSC string with such a control, ESC aside,
  in its command part: the mark of the first fragment is cleared there, and the string is joined to whatever the
  receiver holds of one given up before (`Parser.CommandDependsOnSplit`, `Parser.HeldMattersExactlyWhen`). The command
  part of a DCS string is not a string state and has neither. A CSI command with more than 16 arguments is excluded
  from clean inputs.
* When a chunk ends in an ESC inside a string and a control that interrupts came after that ESC, the parser takes the
  ESC off a length of zero; so it does for an empty chunk after an ESC in content (`Parser.OkExactlyWhen`,
  `Parser.BelowZeroHappens`).
* DECRC does not clamp. DECOM puts the cursor on the left margin at once, and DECSLRM can put an open-ended left
  margin past the last column; a list of modes that sets DECOM and then saves the cursor therefore saves a position
  off the screen (`Cursor.CursorState.OnCsi`, `Cursor.SavedPastMargin`). Code points U+0080 to U+009F have width
  -1: with a wrap pending, or without room to the left, they move the cursor off the screen
  (`Cursor.CursorState.PutGlyph`, `Cursor.FullRowThenC1`). REP of a glyph without width never ends
  (`Cursor.CursorState.RepeatEndsExactlyWhen`). REP of a wide glyph does not wrap, so that its last one may begin in
  the last column and reach past the row, where `putglyph` writes to a cell that is not there
  (`Cursor.CursorState.RepeatFits`, `Cursor.WideRepeat`).
* The UTF-8 decoder may write one code point more than it was given room for: an ASCII character that cuts a sequence
  short gives two (`Utf8.Utf8Decoder.Decode`, `Utf8.OverrunHappens`).
* `ansiForCell` has no code for blink, conceal and double or curly underline and does not turn strike off
  (`Render.RestoresWhenLossless`).
* A file opened again starts with empty caches, so each session writes its own object for a payload or name that the
  file already holds (`JournalTheorems.WriteSession`).
* A reader whose first `Next` sees an empty journal stays at end of file until it seeks
  (`JournalReader.Reader.NextEntry`).
* On attach, the cursor position is asked for after the snapshot is rendered and may already reflect the next chunk
  (`Attach.Host.AttachDuring`, `Attach.CursorAhead`).

## Model

| member | source | states |
|---|---|---|
| `JournalTheorems.AppendIsAtomic` | pkg/journalfile/journal.go:636-716 | After every write of an append but the last, following the chain from the head array decodes exactly the log before; after the last exactly the log after; it decodes nothing only while no header write has announced the first entry |
| `JournalTheorems.CommitOnce` | pkg/journalfile/journal.go:773-810 | The last write of an append is the one commit point: before it the chain from the head array ends with the old log, or no head array is announced; it changes nothing but the slot of the first global array or the link in the old tail |
| `JournalWriter.JournalFile.AppendEntry` | pkg/journalfile/journal.go:248-303 | The log grows by exactly this entry, with the next sequence number and these fields; every file state on the way commits the old log until the last write, which is the committing link; what is stored in the session grows by the payloads and names of these fields, and the counters by one for each that was not stored in it before; each item carries the hash of its payload |
| `JournalTheorems.WriteThenRead` | pkg/journalfile/journal.go:76-142 | Write then read is the identity: for any sessions of appends, each reopening the file the one before closed, a fresh reader with filters returns exactly the matching entries of all sessions in order, then the end of file, unless the file reached 4 GiB |
| `JournalTheorems.ReadClosed` | pkg/journalfile/reader.go:160-244 | A new reader on a closed file returns exactly the filtered subsequence of its log; a missing field counts as the empty string |
| `JournalTheorems.Follow` | pkg/journalfile/reader.go:160-244 | A reader with any filters, opened on a journal that has entries, with refreshes and calls of Next in any order while writes go on between any two reads: the entries returned are exactly the matching ones among the first entries of the log, in order, each entry of which was decoded once; at end of file none that its header announces is missing |
| `JournalTheorems.Resume` | pkg/journalfile/reader.go:109-117 | A cursor formatted from the last entry, parsed by a reader opened now or later, leads to exactly the successor |
| `JournalTheorems.ReferencesAreTheLog` | pkg/journalfile/journal.go:508-539 | For each data object, the inline offset followed by the used slots of its array chain is the list of all entries of the log that refer to it, strictly increasing, and the entry count is its length |
| `JournalTheorems.ReadArraysFrom` | pkg/journalfile/journal.go:583-634 | Reading the used slots of an entry-array chain from array j on gives the list from item 16j on: no slot is skipped or read twice at an array boundary |
| `JournalTheorems.UsedSlots` | pkg/journalfile/journal.go:598-619 | The slots of one array up to the first zero are exactly its stretch of the list |
| `JournalTheorems.OnOneChain` | pkg/journalfile/journal.go:470-491 | A data object is met on the walk along a bucket exactly when its hash falls into that bucket, and then once; the tail in the table is the last object of the walk |
| `JournalTheorems.WalkBucketFrom` | pkg/journalfile/journal.go:480-486 | Following next_hash_offset from any object of a bucket visits the rest of the bucket and ends |
| `JournalTheorems.FieldListsData` | pkg/journalfile/journal.go:359-402 | Each data object is on the list of exactly one field object, the one whose name its payload starts with; the list is newest first |
| `JournalTheorems.WalkFieldFrom` | pkg/journalfile/journal.go:359-402 | Following next_field_offset from any object of a list visits the rest of the list and ends |
| `JournalTheorems.DedupReadsBack` | pkg/journalfile/journal.go:280-289 | Deduplication goes by the hash alone: a cached object reads back as the wanted field exactly when its payload is the wanted one |
| `JournalTheorems.StoredOnce` | pkg/journalfile/journal.go:280-289 | No two data objects written in one session hold the same payload, and no two field objects the same name |
| `JournalTheorems.SessionCounts` | pkg/journalfile/journal.go:280-289 | The counters of data and field objects are those of the file when it was opened, and one for each different payload and name stored since |
| `JournalTheorems.WriteSession` | pkg/journalfile/journal.go:76-142 | A session that opens a closed file, appends a batch and closes it adds one data object for each different payload of the batch and one field object for each name, whatever the file held before |
| `JournalTheorems.FieldTableNames` | pkg/journalfile/journal.go:493-504 | In the table of fields each bucket names the first and the last of its field objects, and each field object lies between those of its bucket |
| `JournalTheorems.LayoutIncreases` | pkg/journalfile/journal.go:306-308 | Objects follow each other in the file: each ends before every later one begins |
| `JournalTheorems.ObjectsDisjoint` | pkg/journalfile/journal.go:344-416 | Any two objects are disjoint, 8-byte aligned, and lie between the header and the end of the file |
| `JournalTheorems.NoGaps` | pkg/journalfile/journal.go:306-308 | Between two neighbouring objects there is less than 8 bytes of padding and nothing else |
| `JournalTheorems.HeaderAccounts` | pkg/journalfile/journal.go:740-769 | Of a closed file: the counters are the numbers of data, field, entry and array objects and, with the two tables, of all objects; the tail object is the last one, header size plus arena size is the end of the last object and of the file; tail sequence number and entry count are the length of the log; head and tail fields are those of the first and the last entry |
| `JournalTheorems.AppendBatch` | pkg/journalfile/journal.go:248-303 | A batch of appends adds exactly its entries; it stops early only at 4 GiB; the session stores exactly its payloads and names besides those it had, and the counters grow by the new ones |
| `JournalImage.ReadAllCommitted` | pkg/journalfile/reader.go:183-318 | In any state that commits a log, walking the chain from the first global array decodes that whole log |
| `JournalImage.ReadChainFrom` | pkg/journalfile/reader.go:183-318 | Walking on from the array of entry i decodes the log from i on |
| `JournalImage.OpenAnywhere` | pkg/journalfile/reader.go:49-79 | A reader that opens between any two writes decodes the committed log, or nothing while the header on disk announces none |
| `JournalImage.CutPayload` | pkg/journalfile/reader.go:320-346 | Splitting a stored payload at its first = gives back key and value, for every value |
| `JournalImage.CutPayloadExactlyWhen` | pkg/journalfile/reader.go:320-346 | A field reads back as itself exactly when its name holds no = |
| `JournalImage.Align8` | pkg/journalfile/journal.go:306-308 | The least multiple of 8 not below the offset |
| `JournalCommit.CommitFirst` | pkg/journalfile/journal.go:790-799 | With an empty log, the write of the slot of the first global array commits the first entry |
| `JournalCommit.CommitLink` | pkg/journalfile/journal.go:801-807 | Otherwise the single write of the link in the old tail array turns the state from committing n entries into committing n + 1 |
| `JournalChains.FreeSlot` | pkg/journalfile/journal.go:598-621 | In the last array of a chain the zero slots are exactly those past the list, and the last slot is used exactly when the array is full |
| `JournalChains.SlotFound` | pkg/journalfile/journal.go:610-618 | The slot where a scan for zero stops is the one after the last item of the list |
| `JournalChains.FillSlot` | pkg/journalfile/journal.go:610-618 | Writing the first free slot appends one item to the list of the chain |
| `JournalChains.AppendArray` | pkg/journalfile/journal.go:621-630 | Linking a new array after a full chain appends one item to the list of the chain |
| `JournalChains.LinkNewArray` | pkg/journalfile/journal.go:508-539 | The second entry of a data object starts its first array, and an entry that finds no free slot starts the next: either way the chain lists all entries in increasing order |
| `JournalWriter.JournalFile.Write` | pkg/journalfile/journal.go:311-318 | One write to the file; it is admitted only if the new image still commits the old log or an extension of it and the announced header only advances, and it is recorded in the history |
| `JournalWriter.JournalFile.PadEnd` | pkg/journalfile/journal.go:368-382 | Pads to the next 8-byte boundary, changing no object |
| `JournalWriter.JournalFile.PutFieldObject` | pkg/journalfile/journal.go:418-468 | A complete field object at the aligned end of the file, written in single writes that leave the log as it is |
| `JournalWriter.JournalFile.PutDataObject` | pkg/journalfile/journal.go:344-416 | The same for a data object |
| `JournalWriter.JournalFile.PutEntryObject` | pkg/journalfile/journal.go:636-675 | The same for an entry object and its items |
| `JournalWriter.JournalFile.PutArrayObject` | pkg/journalfile/journal.go:542-580 | The same for an entry array |
| `JournalWriter.JournalFile.EnsureField` | pkg/journalfile/journal.go:418-468 | Returns a field object whose name is the one asked for: the one written in this session, with no change to the file, or a new one if there is none; structure, counters and log are kept |
| `JournalWriter.JournalFile.NewField` | pkg/journalfile/journal.go:424-467 | A new field object, the last of its bucket in the table of fields, and in the cache |
| `JournalWriter.JournalFile.RecordField` | pkg/journalfile/journal.go:424-467 | Its writing, its cache entry and the counters |
| `JournalWriter.JournalFile.LinkFieldHash` | pkg/journalfile/journal.go:493-504 | The object becomes the tail of its bucket, and the head if the bucket was empty; field buckets are not chained |
| `JournalWriter.JournalFile.LinkDataHash` | pkg/journalfile/journal.go:470-491 | The old tail of the bucket is linked to the object first, then the table names it as tail |
| `JournalWriter.JournalFile.AppendData` | pkg/journalfile/journal.go:344-416 | Fails exactly when the payload has no =, changing nothing; else exactly one new data object, without references, is on its bucket chain and at the head of its field list |
| `JournalWriter.JournalFile.IndexNew` | pkg/journalfile/journal.go:368-415 | A new data object becomes head of its field list and tail of its bucket, counted, with no references |
| `JournalWriter.JournalFile.WriteData` | pkg/journalfile/journal.go:384-408 | The writes of a new data object, in order: the object, the head of the field list, the bucket |
| `JournalWriter.JournalFile.LinkField` | pkg/journalfile/journal.go:398-402 | Patches the head of one field list and nothing else |
| `JournalWriter.JournalFile.CreateEntryArray` | pkg/journalfile/journal.go:542-580 | A new array at the aligned end holding one entry and 15 zero slots, counted in the header |
| `JournalWriter.JournalFile.LastArray` | pkg/journalfile/journal.go:585-596 | The walk along a chain ends, and at its last array, because offsets strictly increase |
| `JournalWriter.JournalFile.ScanSlots` | pkg/journalfile/journal.go:598-619 | The first zero slot of an array, or its capacity when there is none |
| `JournalWriter.JournalFile.AppendToEntryArray` | pkg/journalfile/journal.go:583-634 | The entry goes into the first free slot of the last array, or, exactly when that is full, into a new array linked after it |
| `JournalWriter.JournalFile.StoreReference` | pkg/journalfile/journal.go:508-534 | Inline for the first entry, else through the array chain; the entry info still to be written names the first array and counts all references but the new one |
| `JournalWriter.JournalFile.LinkDataToEntry` | pkg/journalfile/journal.go:508-539 | The list of entries of this data object grows by the entry; all other lists and the log stay |
| `JournalWriter.JournalFile.PatchInfo` | pkg/journalfile/journal.go:536-538 | Writes the entry info of one data object |
| `JournalWriter.JournalFile.LinkItems` | pkg/journalfile/journal.go:677-682 | Every data object of the entry, and no other, gets the entry appended to its list |
| `JournalWriter.JournalFile.PutGlobalArrayHeader` | pkg/journalfile/journal.go:776-796 | The header of a one-slot array, not yet linked |
| `JournalWriter.JournalFile.AppendEntryArray` | pkg/journalfile/journal.go:773-810 | Adds the array of the entry and links it: every state before the last write commits the log before, and the last write is the slot of the first global array or the link in the old tail |
| `JournalWriter.JournalFile.WriteEntry` | pkg/journalfile/journal.go:636-682 | The entry object is complete, its items lead to complete data objects, and they refer to it, while the log is still the old one |
| `JournalWriter.JournalFile.Commit` | pkg/journalfile/journal.go:684-711 | Array, link and header counters: the last write commits the entry and the header describes the longer log |
| `JournalWriter.JournalFile.AppendEntryObject` | pkg/journalfile/journal.go:636-716 | Both together: all writes but the last leave the log as it was, the last is the committing one; the recorded payloads and time stamps are those given |
| `JournalWriter.JournalFile.AppendStored` | pkg/journalfile/journal.go:297-303 | The same for an entry whose fields are stored; it adds no payload and no name |
| `JournalWriter.JournalFile.BeginWrite` | pkg/journalfile/journal.go:332-342 | Marks the file online with one header write, unless it is so already; nothing else changes |
| `JournalWriter.JournalFile.PutField` | pkg/journalfile/journal.go:273-294 | The item names a data object holding exactly key=value. If the payload was stored in this session, that is the object which held it and the file does not change; else it is a new one |
| `JournalWriter.JournalFile.PutFields` | pkg/journalfile/journal.go:269-295 | For any order of the map: one item per field, to distinct data objects, whose payloads give back the map |
| `JournalWriter.JournalFile.StoreFields` | pkg/journalfile/journal.go:258-295 | The file is marked, then every field has a data object; the items give back the fields while the log is still the old one |
| `JournalWriter.JournalFile.Sync` | pkg/journalfile/journal.go:740-769 | Header written back, offline; the file on disk then describes all of the log |
| `JournalWriter.JournalFile.Create` | pkg/journalfile/journal.go:50-73 | A new file is empty, at rest and well formed |
| `JournalWriter.JournalFile.OpenAppend` | pkg/journalfile/journal.go:76-142 | Opening a closed file re-establishes the whole invariant from header and tables on disk, with empty caches; nothing is stored in the session yet |
| `JournalReader.CursorRoundTrip` | pkg/journalfile/reader.go:140-157 | Parsing a formatted cursor gives the sequence number back, whatever the boot id |
| `Decimal.ParsePrint` | pkg/journalfile/reader.go:140-157 | Decimal notation reads back as the number |
| `JournalReader.Reader.ReadEntryArray` | pkg/journalfile/reader.go:246-273 | Header and slots read at two moments: the entry of record i and, if it was linked when first looked at, the array of record i + 1 |
| `JournalReader.Reader.ReadDataObject` | pkg/journalfile/reader.go:320-346 | Key and value of the stored payload, at whatever moments header and payload are read |
| `JournalReader.Reader.ReadFields` | pkg/journalfile/reader.go:301-309 | The field map of an item list |
| `JournalReader.Reader.ReadEntry` | pkg/journalfile/reader.go:275-318 | Exactly entry i of the log with its sequence number, while writes go on between the reads |
| `JournalReader.Reader.LoadEntryArray` | pkg/journalfile/reader.go:127-137 | The array of a committed record becomes the current one |
| `JournalReader.Reader.ScanArray` | pkg/journalfile/reader.go:195-215 | Finds the next entry past the current sequence number, or leaves the array used up; each entry passed is decoded once |
| `JournalReader.Reader.ReloadTail` | pkg/journalfile/reader.go:227-232 | Reading the current array again keeps the place in it |
| `JournalReader.Reader.TailMoved` | pkg/journalfile/reader.go:224-238 | At the end of an array: true only if a next array is now linked, false only if the header announces nothing more |
| `JournalReader.Reader.StartIteration` | pkg/journalfile/reader.go:183-192 | Starts at the first array the header announces |
| `JournalReader.Reader.NextEntry` | pkg/journalfile/reader.go:183-244 | Returns the entry after the last sequence number, or end of file, and that only if the header announces no more or the reader is stuck; it gets stuck exactly when its first call sees no head array, and stays so; it never fails |
| `JournalReader.Reader.MoveOn` | pkg/journalfile/reader.go:217-240 | At the end of an array: goes on to the next one or finds it newly linked; if neither, the header announces nothing more |
| `JournalReader.Reader.Next` | pkg/journalfile/reader.go:160-180 | Returns the next matching entry with none skipped in between; at end of file every announced entry was looked at; stuck exactly as for the entry before filtering |
| `JournalReader.Reader.SeekHead` | pkg/journalfile/reader.go:102-105 | Starts over |
| `JournalReader.Reader.SeekCursor` | pkg/journalfile/reader.go:109-117 | Succeeds exactly when the cursor parses, and then continues after that sequence number; a failed seek changes nothing |
| `JournalReader.Reader.Refresh` | pkg/journalfile/reader.go:369-371 | Reads the header again; what it announces never shrinks and the place is kept |
| `JournalReader.Reader.OpenRead` | pkg/journalfile/reader.go:49-62 | Opens the file at any moment, before the first entry |
| `JournalReader.Reader.Drain` | pkg/journalfile/reader.go:160-244 | Reading on to end of file returns exactly the matching entries between the two places |
| `Screen.OneAxisShifts` | vterm/libvterm/src/vterm.c:305-372 | A scroll along one axis, or by at least the rectangle, is the simultaneous shift: each cell of the rectangle holds what was `down` rows and `right` columns away, or a blank; outside nothing changes |
| `Screen.ShiftsExactlyWhen` | vterm/libvterm/src/vterm.c:305-372 | For which distances that holds whatever the screen shows: exactly the one-axis scrolls and those that leave nothing. With two axes only a corner is erased; with distance zero everything is |
| `Screen.MoveThenErase` | vterm/libvterm/src/vterm.c:322-371 | One move and one erasure of the exposed part make up a scroll |
| `Screen.EraseAll` | vterm/libvterm/src/vterm.c:315-320 | A distance of at least the size erases the whole rectangle |
| `Screen.ScreenBuffer.MoveRow` | vterm/libvterm/src/screen.c:255-261 | One row moved in place with overlap equals the simultaneous move, all other cells untouched |
| `Screen.ScreenBuffer.MoveRect` | vterm/libvterm/src/screen.c:239-264 | Row by row in the order chosen, equals the simultaneous move for every overlap |
| `Screen.ScreenBuffer.Erase` | vterm/libvterm/src/screen.c:284-309 | The rectangle blank, each cell with no text, the colours of the pen and the width class of its line, cut off at the last row; protected cells kept in a selective erase; the rest untouched |
| `Screen.ScreenBuffer.ScrollRect` | vterm/libvterm/src/vterm.c:305-372 | The whole screen afterwards, for every rectangle and every pair of distances |
| `Screen.ScreenBuffer.CopyCells` | vterm/libvterm/src/vterm.c:374-413 | Cell by cell in the order chosen, equals the simultaneous copy for every overlap and every sign of both distances |
| `Scrollback.TopRegionScrolled` | vterm/libvterm/src/state.c:113-184 | What a vertical scroll of a region from row 0 leaves on the screen, row by row, in both directions |
| `Scrollback.InfoFollowsRows` | vterm/libvterm/src/state.c:157-175 | In a vertical scroll of whole lines each row that moves takes its line info along, new rows are blank and plain, the others stay |
| `Scrollback.ScrollConserves` | vterm/libvterm/src/state.c:113-184 | Pushed rows and screen together are the old history with only blank rows inserted, for forward scrolls and for a backward scroll by the whole region |
| `Scrollback.BackwardLoses` | vterm/libvterm/src/state.c:130-184 | A backward scroll by less than the region pushes nothing, its bottom rows are gone and blank rows stand at the top |
| `Scrollback.ConservesExactlyWhen` | vterm/libvterm/src/state.c:113-184 | For a given screen, a scroll of the top region conserves the lines exactly when it is forward, backward by the whole region, or changes nothing |
| `Scrollback.AlwaysConservesExactlyWhen` | vterm/libvterm/src/state.c:113-184 | It does so whatever the screen shows exactly when it is forward or backward by the whole region |
| `Scrollback.RunConservesExactlyWhen` | vterm/libvterm/src/state.c:113-184 | A whole run conserves the lines of every screen exactly when no scroll of it is backward by less than its region over a row that still holds a line of the first screen; which rows do follows from the regions and distances alone |
| `Scrollback.RunConserves` | vterm/libvterm/src/state.c:113-184 | A run that loses none keeps the whole history of any given session, with blank rows inserted |
| `Scrollback.SessionScrolled` | vterm/libvterm/src/state.c:113-184 | What one scroll of a region from row 0 pushes and leaves on the screen, for every distance, zero and more than the region too |
| `Scrollback.TextsAfter` | vterm/libvterm/src/state.c:113-184 | On a screen where exactly the rows marked as lines of the first screen have text: a scroll adds no text to the history, and one that loses a line takes some away |
| `Scrollback.InsertedThen` | vterm/libvterm/src/state.c:113-184 | Inserting blank rows twice is inserting blank rows: conservation carries over runs |
| `Scrollback.KeptThen` | internal/host/tty.go:255-274 | What the host keeps depends only on the order of the pushed lines |
| `Scrollback.ScrollingTerminal.OnPushLine` | internal/host/tty.go:255-274 | The ring holds the last maxScrollback lines of everything kept; in the alternate screen nothing is kept |
| `Scrollback.ScrollingTerminal.PushRow` | vterm/libvterm/src/screen.c:209-219 | Pushes exactly one row of the screen as it is |
| `Scrollback.ScrollingTerminal.Premove` | vterm/libvterm/src/screen.c:221-237 | Pushes the rows of a rectangle from the top, in order, if it covers whole lines at the top of the primary screen; else nothing |
| `Scrollback.ScrollingTerminal.PremoveRows` | vterm/libvterm/src/state.c:130-143 | Announces exactly the rows that the vertical scroll is about to destroy |
| `Scrollback.ScrollingTerminal.PremoveCols` | vterm/libvterm/src/state.c:145-154 | The same for the columns of a horizontal scroll |
| `Scrollback.ScrollingTerminal.ScrollLineinfo` | vterm/libvterm/src/state.c:157-175 | Line info moves with whole lines and is cleared for new ones |
| `Scrollback.ScrollingTerminal.Scroll` | vterm/libvterm/src/state.c:113-184 | Distances cut to the rectangle; rows pushed before they are overwritten; screen, line info, pushed rows and ring afterwards |
| `Scrollback.ScrollingTerminal.ScrollAll` | vterm/libvterm/src/state.c:113-184 | Any run of whole-line scrolls of regions from row 0 on the primary screen: pushed rows, screen and line info are those of the specification and the ring holds the last lines; if the run loses no line of the screen it starts with, the history of the session is the old one with blank rows inserted |
| `Resize.ResizeConserves` | vterm/libvterm/src/screen.c:519-759 | The pushed rows followed by the new rows are the old rows in order, cut to the new width, without some blank rows at the bottom or with blank rows added there; rows are pushed or dropped only when the new screen is full |
| `Resize.CutKeepsText` | vterm/libvterm/src/screen.c:620-660 | A row no wider than the new screen keeps all it shows |
| `Resize.CursorStays` | vterm/libvterm/src/screen.c:640-672 | The cursor ends inside the screen, on the same content when its row is kept and on the top row otherwise |
| `Resize.CursorRowKept` | vterm/libvterm/src/screen.c:574-618 | Exactly when the row of the cursor is kept: when the rows from it down to the last that is needed fit the new screen |
| `Resize.PlacedAll` | vterm/libvterm/src/screen.c:734-747 | The placed rows moved to the top, blanks below, are the resized screen |
| `Resize.PlacingEnds` | vterm/libvterm/src/screen.c:574-618 | Where the loop stops, the number of rows left over at the top and of blank rows dropped is the one the specification names |
| `Resize.TrailingBlank` | vterm/libvterm/src/screen.c:561-562 | The counted rows at the bottom are blank and the one above them is not |
| `Resize.LinePopcount` | vterm/libvterm/src/screen.c:511-517 | The number of cells up to the last one that is not blank |
| `Resize.CopyRow` | vterm/libvterm/src/screen.c:620-660 | One row at its new place, cleared after its content, and the cursor if it is on it |
| `Resize.MoveRows` | vterm/libvterm/src/screen.c:592-593 | The overlapping move of whole rows equals the simultaneous one |
| `Resize.ScrollDown` | vterm/libvterm/src/screen.c:576-603 | What was placed is moved down over blank rows at the bottom, and the cursor with it |
| `Resize.PlaceRow` | vterm/libvterm/src/screen.c:620-663 | One turn of the loop: the rows placed so far extend by one |
| `Resize.PlaceRows` | vterm/libvterm/src/screen.c:546-664 | The loop over the old rows from the bottom: which rows are placed, dropped and left over |
| `Resize.PushTop` | vterm/libvterm/src/screen.c:680-690 | Exactly the rows left over are pushed, in order |
| `Resize.MoveUp` | vterm/libvterm/src/screen.c:734-747 | Rows moved to the top and the rest cleared |
| `Resize.ResizeBuffer` | vterm/libvterm/src/screen.c:519-759 | New buffer, cursor and pushed rows are those of the specification; the cursor is always set, so the abort is never reached |
| `Damage.RowMergeKeepsAll` | vterm/libvterm/src/screen.c:123-135 | Merging reports of one row that begin on the same row loses nothing exactly when the stored one has a row; so a stored report without rows swallows exactly those |
| `Damage.GlyphReported` | vterm/libvterm/src/screen.c:174-207 | All that a glyph changes lies in the rectangle reported for it exactly when the glyph has a width, or changes nothing |
| `Damage.Expanded` | vterm/libvterm/src/rect.h:9-15 | The least rectangle, by rows and columns, that spans both |
| `Damage.EmitKeeps` | vterm/libvterm/src/screen.c:105-160 | A report brings its rectangle up to date and makes nothing stale |
| `Damage.SwapKeeps` | vterm/libvterm/src/screen.c:136-140 | Reporting what was held back and holding back another rectangle loses nothing |
| `Damage.ChangeReported` | vterm/libvterm/src/screen.c:105-160 | A change inside a rectangle that is then reported keeps every cell current or about to be |
| `Damage.ScrolledInside` | vterm/libvterm/src/screen.c:326-408 | A scroll changes only cells it moves to or erases |
| `Damage.DamagedScreen.Emit` | vterm/libvterm/src/screen.c:158-159 | The drawer copies exactly the reported rectangle |
| `Damage.DamagedScreen.FlushDamage` | vterm/libvterm/src/screen.c:1097-1112 | What was held back is reported and nothing is left pending |
| `Damage.DamagedScreen.DamageRect` | vterm/libvterm/src/screen.c:105-160 | For cell, row and screen merging: what is held back afterwards; every cell that was current or reported stays so, and the new rectangle is, unless a stored report without rows swallows it; then nothing is reported and only the columns of the stored one grow |
| `Damage.DamagedScreen.PutGlyph` | vterm/libvterm/src/screen.c:174-207 | The screen and what is held back afterwards for every width; the cell of a glyph has its code points and the pen of the screen. Every changed cell is reported or pending exactly if, for a glyph with a width, its report is not swallowed or nothing changed, and, for one without, its cell is pending anyway or is as the drawer shows it; a position off the screen changes nothing |
| `Damage.DamagedScreen.Erase` | vterm/libvterm/src/screen.c:284-324 | The screen and what is held back afterwards for every rectangle; every changed cell is reported or pending exactly if the report is not swallowed or nothing changed |
| `Damage.DamagedScreen.ScrollRect` | vterm/libvterm/src/screen.c:326-408 | The screen and what is held back afterwards; every changed cell is reported or pending |
| `Damage.DamagedScreen.Run` | vterm/libvterm/src/screen.c:1097-1112 | Any run of glyphs, erasures and scrolls, then a flush: nothing is held back; if every glyph on the screen has a width and no report is swallowed, which follows from the rectangles of the run alone, whoever drew only what was reported shows the screen, and every cell that differs from the start was reported |
| `Damage.PutReported` | vterm/libvterm/src/screen.c:174-207 | The exact condition for a glyph |
| `Damage.ReportableKept` | vterm/libvterm/src/screen.c:123-135 | A run in which every glyph has a width and, by row, every erasure has rows, from a held report that is none or has rows, never has a report swallowed |
| `Damage.LostGlyph` | vterm/libvterm/src/screen.c:123-135 | By row, an erasure of no rows as ED 1 in the first row makes it, a glyph there and a flush: the cell has changed and no report has it |
| `Parser.ChunkIndependent` | vterm/libvterm/src/parser.c:111-386 | However a clean input is split into non-empty chunks, the same commands, joined strings and text come out, equal to a reading byte by byte, and the parser is left in the same state |
| `Parser.SimulateChunk` | vterm/libvterm/src/parser.c:111-386 | One chunk does what its bytes do one at a time, with the pointer into the chunk and the partial string accounted for |
| `Parser.SimulateChunks` | vterm/libvterm/src/parser.c:111-386 | So do any chunks, from any reachable state |
| `Parser.SimulateByte` | vterm/libvterm/src/parser.c:139-376 | So does each byte in the middle of a chunk |
| `Parser.EscThenInterrupt` | vterm/libvterm/src/parser.c:159-201 | In the content of every string, an ESC followed by a second ESC or by a control that interrupts is content when read in one chunk and is not when the input is split between them |
| `Parser.EscExactlyWhen` | vterm/libvterm/src/parser.c:159-201 | In the content of a string, an ESC and the byte after it mean the same in one chunk and in two exactly when that byte is neither |
| `Parser.CommandInterrupted` | vterm/libvterm/src/parser.c:170-180 | A control in the command part of an OSC string clears the mark of the first fragment, so the receiver joins the string to what it held before |
| `Parser.CommandInterruptedReference` | vterm/libvterm/src/parser.c:261-281 | Read byte by byte, the same string stands alone |
| `Parser.HeldMattersExactlyWhen` | vterm/libvterm/src/parser.c:170-180 | The two agree exactly when the receiver held nothing |
| `Parser.CommandDependsOnSplit` | vterm/libvterm/src/parser.c:170-180 | A piece of a string that is then given up, and an OSC string with a control in its command part: the same bytes give different strings for different splits, exactly unless the receiver happens to hold that very piece from before |
| `Parser.OkExactlyWhen` | vterm/libvterm/src/parser.c:170-201 | Exactly which chunks keep within bounds, from the bytes and the registers: no command has an argument too many, and the chunk does not end in an ESC inside a string that a control came after, nor is it empty after an ESC in content |
| `Parser.BelowZeroHappens` | vterm/libvterm/src/parser.c:378-383 | In the content of a string other than SOS, an ESC and an interrupting control at the end of a chunk make the length of the last fragment go below zero |
| `ParserRules.ReactFits` | vterm/libvterm/src/parser.c:143-376 | How states and actions go together for every state and byte, on which the correctness of the string pointer rests |
| `ParserRules.RunThen` | vterm/libvterm/src/parser.c:139-376 | Reading byte by byte composes |
| `ParserRules.CleanThen` | vterm/libvterm/src/parser.c:139-376 | A clean input is clean in both parts wherever it is cut |
| `ParserCommands.RunCsi` | vterm/libvterm/src/parser.c:203-259 | ESC [, leader bytes, arguments, intermediates and a final byte give exactly one CSI command with exactly these, from any state in which no string is being read; leader and intermediates beyond the limit are dropped |
| `ParserCommands.RunEsc` | vterm/libvterm/src/parser.c:306-320 | ESC, intermediates and a final byte that stand for no C1 control give exactly that escape sequence |
| `ParserCommands.EscLetter` | vterm/libvterm/src/parser.c:185-194 | ESC and a letter do what the C1 control does |
| `ParserCommands.RunOsc` | vterm/libvterm/src/parser.c:261-281 | OSC with a number, a semicolon and any content, ended by BEL or ESC \, gives exactly that string |
| `ParserCommands.RunBareOsc` | vterm/libvterm/src/parser.c:261-281 | Without semicolon the first byte that is no digit begins the content |
| `ParserCommands.RunEmptyOsc` | vterm/libvterm/src/parser.c:261-281 | An OSC that ends with its number has no content |
| `ParserCommands.RunDcs` | vterm/libvterm/src/parser.c:283-303 | DCS with a command and any content gives exactly that string |
| `ParserCommands.RunPlainString` | vterm/libvterm/src/parser.c:293-303 | So do APC, PM and SOS |
| `ParserCommands.Cancels` | vterm/libvterm/src/parser.c:152-158 | CAN and SUB end whatever is being read, without an event |
| `ParserCommands.Delivered` | vterm/libvterm/src/parser.c:143-180 | Other controls are delivered at once and what is being read goes on |
| `ParserCommands.GivesUp` | vterm/libvterm/src/parser.c:185-201 | ESC and a byte other than a backslash in the content of a string give it up |
| `ParserCommands.WriteRead` | vterm/libvterm/src/parser.c:111-386 | Every event, written as bytes, is read back as that event and no other |
| `ParserCommands.WriteReadAll` | vterm/libvterm/src/parser.c:111-386 | Any list of events written one after the other is read back as that list, and the bytes are a clean input |
| `ParserCommands.EventsInChunks` | vterm/libvterm/src/parser.c:111-386 | And so however the bytes are split into non-empty chunks |
| `ParserLoop.InputParser.StringFragment` | vterm/libvterm/src/parser.c:64-109 | A fragment is handed on with its first and last marks; joined to the ones before |
| `ParserLoop.InputParser.TextCallback` | vterm/libvterm/src/parser.c:361-373 | The receiver may take any non-empty part of a run of text |
| `ParserLoop.InputParser.CsiFinal` | vterm/libvterm/src/parser.c:243-259 | Intermediates, the final byte or an invalid command |
| `ParserLoop.InputParser.CsiArg` | vterm/libvterm/src/parser.c:220-242 | Digits, sub-arguments and arguments |
| `ParserLoop.InputParser.CsiLead` | vterm/libvterm/src/parser.c:204-219 | Leader bytes |
| `ParserLoop.InputParser.OscCommandTurn` | vterm/libvterm/src/parser.c:261-281 | The number of an OSC string and where its content begins |
| `ParserLoop.InputParser.DcsCommandTurn` | vterm/libvterm/src/parser.c:283-291 | The command of a DCS string and where its content begins |
| `ParserLoop.InputParser.StringByte` | vterm/libvterm/src/parser.c:293-303 | Content, BEL and ST |
| `ParserLoop.InputParser.C1Turn` | vterm/libvterm/src/parser.c:321-360 | The C1 controls |
| `ParserLoop.InputParser.EscapeTurn` | vterm/libvterm/src/parser.c:306-320 | An escape sequence that is no C1 control |
| `ParserLoop.InputParser.Switch` | vterm/libvterm/src/parser.c:203-375 | The switch on the state equals the rule for the byte |
| `ParserLoop.InputParser.NulTurn` | vterm/libvterm/src/parser.c:143-151 | NUL and DEL |
| `ParserLoop.InputParser.CancelTurn` | vterm/libvterm/src/parser.c:152-158 | CAN and SUB |
| `ParserLoop.InputParser.EscTurn` | vterm/libvterm/src/parser.c:159-165 | ESC |
| `ParserLoop.InputParser.ControlTurn` | vterm/libvterm/src/parser.c:170-180 | Other C0 controls |
| `ParserLoop.InputParser.InEscTurn` | vterm/libvterm/src/parser.c:185-201 | The byte after an ESC |
| `ParserLoop.InputParser.Turn` | vterm/libvterm/src/parser.c:139-376 | One turn of the loop equals one step of the specification |
| `ParserLoop.InputParser.ReadSome` | vterm/libvterm/src/parser.c:361-373 | A run of text taken in any pieces, or one byte, advances the scan of the chunk |
| `ParserLoop.InputParser.Write` | vterm/libvterm/src/parser.c:111-386 | Reading a chunk is what the specification of a chunk says, for every chunk within bounds, a condition on its bytes and the registers |
| `ParserLoop.InputParser.WriteAll` | vterm/libvterm/src/parser.c:111-386 | Reading any chunks of a clean input is reading the input byte by byte |
| `ParserLoop.TextRun` | vterm/libvterm/src/parser.c:361-373 | A run of text only adds text, whatever part of it is taken at once |
| `PenState.SetAfterGet` | vterm/libvterm/src/pen.c:504-549 | For every reachable pen: resetting and applying the arguments listed for it restores it, exactly unless bold is shown as bright and the pen is bold with one of the first eight palette colours |
| `PenState.ArgsFit` | vterm/libvterm/src/pen.c:504-549 | The list never has more than 20 arguments, the size of the array of the caller, and 20 occur |
| `PenState.SgrReachable` | vterm/libvterm/src/pen.c:276-469 | Every pen that SGR commands make has attributes and colours in range |
| `PenState.AttributeCodes` | vterm/libvterm/src/pen.c:276-469 | What each attribute code, the fonts, the reset and the off codes do to any pen, whatever follows; 2, 6, 20 and 26 do nothing |
| `PenState.BoldCode` | vterm/libvterm/src/pen.c:295-303 | Bold, and the colour it makes bright where it is shown so |
| `PenState.OnThenOff` | vterm/libvterm/src/pen.c:295-457 | The code of an attribute and then its off code leave it off and all else as it was |
| `PenState.BoldOnThenOff` | vterm/libvterm/src/pen.c:295-390 | So do bold and 22, except that a colour that bold made bright stays bright |
| `PenState.ColourParameters` | vterm/libvterm/src/pen.c:397-457 | The palette and default colours set one colour and leave the rest |
| `PenState.SgrIndexed` | vterm/libvterm/src/pen.c:91-115 | 38 and 48 with 5 and an index, joined or separate |
| `PenState.SgrRgb` | vterm/libvterm/src/pen.c:91-115 | 38 and 48 with 2 and three components |
| `PenState.ShortColours` | vterm/libvterm/src/pen.c:91-115 | A colour cut short or of an unknown kind changes nothing |
| `PenState.UnderlineStyles` | vterm/libvterm/src/pen.c:309-329 | The underline styles after 4 and a colon |
| `PenState.Pencil.Lookup` | vterm/libvterm/src/pen.c:91-115 | The colour that 38 and 48 name, and how many arguments it takes, for every list however short |
| `PenState.Pencil.SetColour` | vterm/libvterm/src/pen.c:397-457 | Colour parameters |
| `PenState.Pencil.SetAttr` | vterm/libvterm/src/pen.c:295-445 | Attribute parameters |
| `PenState.Pencil.SetOther` | vterm/libvterm/src/pen.c:295-457 | Parameters other than the reset |
| `PenState.Pencil.SetPen` | vterm/libvterm/src/pen.c:276-469 | The index loop over the arguments equals applying parameter after parameter |
| `PenState.Pencil.SkipMore` | vterm/libvterm/src/pen.c:467-467 | Skips a parameter with its sub-arguments |
| `PenState.Pencil.PutColour` | vterm/libvterm/src/pen.c:471-502 | Writes the arguments for one colour, at most five |
| `PenState.Pencil.GetPen` | vterm/libvterm/src/pen.c:504-549 | Writes exactly the arguments that describe the pen, never past the end of the array |
| `Utf8.DecodeFill` | vterm/libvterm/src/encoding.c:28-155 | Decoding an encoded code point gives it back from any state of the decoder, after a replacement for anything unfinished, for every code point but controls, DEL, surrogates, FFFE and FFFF |
| `Utf8.DecodeFillAll` | vterm/libvterm/src/encoding.c:28-155 | A whole text comes back |
| `Utf8.FeedThen` | vterm/libvterm/src/encoding.c:28-155 | Decoding a followed by b is decoding both at once, in the middle of a sequence too |
| `Utf8.TakeSound` | vterm/libvterm/src/encoding.c:28-155 | What comes out is a replacement, the ASCII byte just read, or a complete sequence in its shortest form |
| `Utf8.FeedSound` | vterm/libvterm/src/encoding.c:72-103 | No surrogate and no non-character ever comes out |
| `Utf8.QuietExactlyWhen` | vterm/libvterm/src/encoding.c:45-153 | Exactly which bytes give nothing: those that begin a sequence between characters and those that continue one without ending it |
| `Utf8.Misplaced` | vterm/libvterm/src/encoding.c:48-153 | A byte that cannot stand where it stands gives a replacement |
| `Utf8.RuneIsFill` | vterm/wasm.go:932-954 | The Go encoder and the C encoder agree exactly below 0x200000, so on all of Unicode |
| `Utf8.FillUtf8` | vterm/libvterm/src/utf8.h:16-38 | The buffer filled backwards holds the encoding; length as in section 2 of RFC 2279 |
| `Utf8.Utf8Decoder.Start` | vterm/libvterm/src/encoding.c:106-149 | A first byte |
| `Utf8.Utf8Decoder.Continue` | vterm/libvterm/src/encoding.c:62-104 | A continuation byte, and the check of a finished code point |
| `Utf8.Utf8Decoder.TakeByte` | vterm/libvterm/src/encoding.c:45-153 | One byte of text |
| `Utf8.Utf8Decoder.Decode` | vterm/libvterm/src/encoding.c:28-155 | Decodes up to a control, the end or the room in the output; state and output are those of the specification; one code point too many comes out exactly when the last byte is an ASCII character that cuts a sequence short with room for one, and never if there is room for every byte and for a sequence begun before |
| `Utf8.OverrunsExactlyWhen` | vterm/libvterm/src/encoding.c:38-57 | The exact condition for the byte on which the output overruns |
| `Utf8.EnoughRoom` | vterm/libvterm/src/encoding.c:28-155 | No more code points than bytes, with one more for a sequence begun before |
| `Utf8.OverrunHappens` | vterm/libvterm/src/encoding.c:48-57 | A lead byte and an ASCII character with room for one code point give two |
| `Render.RowRestores` | vterm/wasm.go:734-778 | A rendered row read by a terminal with a reset pen: every cell has its text, each has its own pen exactly when each step from cell to cell is lossless, and the pen is reset at the end |
| `Render.RestoresWhenLossless` | vterm/wasm.go:781-872 | From the pen of one cell the codes lead to that of the next exactly when blink, conceal and double or curly underline need not be turned on and strike is not turned off alone |
| `Render.DrawCells` | vterm/wasm.go:734-778 | The same after any number of cells |
| `Render.SgrCodes` | vterm/wasm.go:781-872 | What the emitted codes do to any pen |
| `Render.CodesFit` | vterm/wasm.go:781-872 | One sequence never has more parameters than the parser has room for |
| `RenderBytes.AnsiForCell` | vterm/wasm.go:781-872 | The bytes are one SGR sequence with exactly these codes, or nothing if there are none |
| `RenderBytes.RenderRow` | vterm/wasm.go:734-778 | The bytes of a row are those of its codes and texts in order, with a reset at the end if any code was emitted |
| `RenderBytes.RunSequence` | vterm/libvterm/src/parser.c:203-259 | The parser reads an SGR sequence back as one command with the same arguments |
| `RenderBytes.RowParses` | vterm/wasm.go:734-778 | The parser reads a rendered row back as the SGR commands and the text of its cells, in order (SGR is section 8.3.117 of ECMA-48) |
| `RenderBytes.TextDecodes` | vterm/wasm.go:932-954 | The text bytes of a cell decode to its characters |
| `RenderTrip.RowRoundTrip` | vterm/wasm.go:734-872 | From the bytes of a rendered row through the parser, the SGR commands and the decoder: every character of every cell in order, each with the pen of its own cell exactly when every step is lossless, and a reset pen in the end |
| `RenderTrip.GiveCells` | vterm/wasm.go:734-778 | After any number of cells, what the events draw is what the codes and texts stand for |
| `Cursor.CursorState.Run` | vterm/libvterm/src/state.c:300-1612 | Any run of text, controls, escapes and CSI commands on a fixed size of at least two columns: up to the first operation that breaks off, cursor and saved cursor stay on the screen and 0 <= top < bottom <= rows, all loops end, and margins and modes are those the operations give. An operation breaks off only by a glyph of negative width that leaves the screen, a REP that never ends, or a list of modes that saves the cursor past the margin; widths that are not negative, REP after a glyph with a width and other lists of modes never do |
| `Cursor.CursorState.OnCsi` | vterm/libvterm/src/state.c:954-1612 | Position, saved position, margins, modes and tab stops after every CSI command, recognised or not; the cursor is on the screen, the saved cursor exactly unless a list of DEC modes sets DECOM and then saves while the left margin lies past the last column; every command ends exactly unless it is a REP whose loop does not |
| `Cursor.SavedPastMargin` | vterm/libvterm/src/state.c:777-855 | That case does happen |
| `Cursor.SlrmOk` | vterm/libvterm/src/state.c:1508-1535 | DECSLRM n;m: the margins are columns n to m if there are such, all if not, and n to the last if no m is given; that leaves a column exactly when it does not put such an open-ended left margin past the last column |
| `Cursor.StbmOk` | vterm/libvterm/src/state.c:1481-1506 | DECSTBM n;m: the region is lines n to m if there are such, and else the whole screen |
| `Cursor.CursorState.Linefeed` | vterm/libvterm/src/state.c:186-200 | Down one row except at the bottom of the region or screen |
| `Cursor.CursorState.TabForward` | vterm/libvterm/src/state.c:245-264 | To the count-th tab stop to the right, or the last column; the loop ends |
| `Cursor.CursorState.TabBack` | vterm/libvterm/src/state.c:245-264 | To the count-th tab stop to the left, or the first column |
| `Cursor.CursorState.Wrap` | vterm/libvterm/src/state.c:415-420 | To the start of the next row |
| `Cursor.CursorState.PutGlyph` | vterm/libvterm/src/state.c:415-460 | Where the glyph is put: on the screen, and within the row if the row is wide enough. Where the cursor is afterwards, with and without a pending wrap, and whether a wrap is pending; it stays on the screen exactly if the width is not negative, or no wrap is pending, there is room to the left and the cursor is not past the end of a double-width row |
| `Cursor.CursorState.MakeRoom` | vterm/libvterm/src/state.c:415-434 | Wraps exactly if a wrap is pending or the glyph does not fit |
| `Cursor.CursorState.Advance` | vterm/libvterm/src/state.c:455-460 | Moves past the glyph, or has the next one wrap |
| `Cursor.FullRowThenC1` | vterm/libvterm/src/state.c:415-460 | A full row and then a C1 code point: the cursor is off the screen although there was room to its left |
| `Cursor.CursorState.OnText` | vterm/libvterm/src/state.c:300-475 | Puts the glyphs of a run until one leaves the screen, which only one of negative width does; on lines of single width, where the cursor is afterwards and whether a wrap is pending; the width remembered for REP is that of the last glyph |
| `Cursor.CursorState.OnControl` | vterm/libvterm/src/state.c:477-574 | What BS, HT, LF, VT, FF, CR, IND, NEL, HTS and RI do to position, pending wrap and tab stops; other controls do nothing to them |
| `Cursor.CursorState.SaveCursor` | vterm/libvterm/src/state.c:594-617 | DECSC then DECRC brings the position back, unclamped |
| `Cursor.CursorState.OnEscape` | vterm/libvterm/src/state.c:619-758 | What DECSC, DECRC, RIS and the line width sequences do to position, saved position, margins, modes and tab stops; others do nothing to them |
| `Cursor.CursorState.SetDecMode` | vterm/libvterm/src/state.c:777-869 | What each mode does to position, saved position and margins |
| `Cursor.CursorState.SetModes` | vterm/libvterm/src/state.c:1343-1372 | Position, saved position and modes after a list of DEC modes, and exactly when it leaves the cursor, or saves it, past the last column |
| `Cursor.CursorState.ClampCursor` | vterm/libvterm/src/state.c:1575-1586 | To the nearest place the cursor may be at |
| `Cursor.CursorState.Move` | vterm/libvterm/src/state.c:1025-1080 | A cursor movement goes to the place asked for, or the nearest allowed |
| `Cursor.CursorState.Repeat` | vterm/libvterm/src/state.c:1260-1276 | The columns REP fills, and that it goes on for count columns or to the end of the row; whether it ends |
| `Cursor.CursorState.RepeatEndsExactlyWhen` | vterm/libvterm/src/state.c:1265-1268 | Some number of turns takes the loop of REP to the column it goes up to exactly when the glyph has a width or, on a double-width row, there is nothing left to fill |
| `Cursor.CursorState.RepeatFits` | vterm/libvterm/src/state.c:1260-1276 | Every glyph that REP repeats fits the row exactly when the columns it fills, rounded up to whole glyphs, do |
| `Cursor.RepeatFitsExactlyWhen` | vterm/libvterm/src/state.c:1265-1268 | The same for any start, end, width and row |
| `Cursor.WideRepeat` | vterm/libvterm/src/state.c:1260-1276 | It does happen that one does not: on five columns, a glyph of two and a REP of nine puts one on the last column |
| `Cursor.CursorState.SetScrollRegion` | vterm/libvterm/src/state.c:1481-1506 | DECSTBM: margins and position afterwards |
| `Cursor.CursorState.SetSideMargins` | vterm/libvterm/src/state.c:1508-1535 | DECSLRM: margins afterwards |
| `Cursor.CursorState.ClearTabstops` | vterm/libvterm/src/state.c:1316-1336 | TBC |
| `Cursor.CursorState.Command` | vterm/libvterm/src/state.c:1005-1560 | What every command without leader and intermediates does: moves go to the nearest allowed place, DECSTBM n;m makes lines n to m the region, or all if that is none, and homes the cursor, DECSLRM the same for columns, CHT and CBT go to the counted tab stop, TBC clears tab stops, SM and RM set insert and newline mode; nothing else changes |
| `Cursor.CursorState.SetUp` | vterm/libvterm/src/state.c:1316-1365 | TBC, SM and RM |
| `Cursor.CursorState.SetMargins` | vterm/libvterm/src/state.c:1481-1535 | DECSTBM and DECSLRM |
| `Cursor.CursorState.Tab` | vterm/libvterm/src/state.c:1082-1085 | CHT and CBT |
| `Cursor.CursorState.Draw` | vterm/libvterm/src/state.c:1087-1241 | Commands that erase or scroll leave the cursor at the nearest allowed place |
| `Cursor.MovesMean` | vterm/libvterm/src/state.c:1025-1312 | Which way each move goes, how far, and what it leaves |
| `Cursor.TabbedOnce` | vterm/libvterm/src/state.c:245-264 | There is only one column that is the counted tab stop |
| `Cursor.OneDecMode` | vterm/libvterm/src/state.c:777-855 | What one DEC mode does to position and saved position |
| `Cursor.DecModesMean` | vterm/libvterm/src/state.c:1343-1372 | A list of DEC modes sets origin mode, autowrap and side margins exactly if it names them |
| `Cursor.OutExactlyWhen` | vterm/libvterm/src/state.c:777-855 | Exactly when a list of modes leaves the cursor, or saves it, off the screen |
| `Cursor.TextFillsRows` | vterm/libvterm/src/state.c:415-460 | Narrow glyphs from the first column fill the rows one after the other: after q rows and m cells the cursor is behind the last one, or on the last column with a wrap pending |
| `Cursor.CursorState.Reset` | vterm/libvterm/src/state.c:2100-2165 | RIS and DECSTR: position, margins and modes afterwards; the saved cursor stays |
| `Attach.Host.Run` | internal/host/tty.go:514-582 | For every interleaving of terminal write, broadcast, attach and detach: if a snapshot covers s chunks and the stream starts at chunk a, then a <= s <= a + 1; snapshot and stream together are the whole output; what a client got is an uninterrupted stretch; known clients keep their ids. The output is the old one and the chunks of the enabled writes; if none is left unsent, every client has all of it |
| `Attach.NothingMissing` | internal/host/tty.go:558-576 | From the no-gap condition: the snapshot, followed by what was received after it, is the whole output |
| `Attach.Host.BroadcastChunk` | internal/host/tty.go:771-779 | Every client gets the chunk and none is added or lost |
| `Attach.Host.BeginAttach` | internal/host/tty.go:514-557 | Succeeds exactly if there is no client or the size is not smaller than the terminal; the first client sets the size, a size not given is 24 by 80, and the id is new |
| `Attach.Host.TakeCursor` | internal/host/tty.go:561-563 | The position is taken separately, when all chunks written by then are on the screen |
| `Attach.Host.AttachDuring` | internal/host/tty.go:559-576 | From snapshot to registration, whatever the reader does: the cursor is ahead of the snapshot exactly if the reader could write a chunk in between and did, and then by one |
| `Attach.CursorAhead` | internal/host/tty.go:559-563 | It does happen: snapshot, a chunk, cursor |
| `Attach.Host.RegisterClient` | internal/host/tty.go:567-576 | A client under an id never used before, with no gap |
| `Attach.Host.Detach` | internal/host/tty.go:618-635 | Fails exactly for an unknown id; removes that client only |
| `Attach.Host.Do` | internal/host/tty.go:514-635 | What each step does to output, clients, the attach in progress and those that have left; it keeps the invariant, and ids only grow |
| `Attach.SentAfter` | internal/host/tty.go:770-779 | Nothing is left unsent if the last enabled write is followed by an enabled broadcast |
| `Attach.NeverStuck` | internal/host/tty.go:505-582 | From every state an attach in progress can be finished and what is written can be sent; then the next chunk can be written and the next client attach |
| `Streams.LinesJoin` | internal/protocol/protocol.go:52-82 | The lines joined by newlines give back the stream, up to one final newline |
| `Streams.LinesPlain` | internal/protocol/protocol.go:52-82 | No line holds a newline, and there are as many lines as newlines, one more for text after the last |
| `Streams.LinesRoundTrip` | internal/protocol/protocol.go:52-82 | Lines written with newlines read back as the same lines |
| `Streams.CutLeftmost` | internal/protocol/protocol.go:106-120 | An event is cut off at the first delimiter of the buffer, and nothing is if there is none |
| `Streams.CutStable` | internal/protocol/protocol.go:106-120 | A delimiter found stays the first one whatever is read afterwards, also when it straddled two reads |
| `Streams.LinesOfEventsRoundTrip` | internal/protocol/protocol.go:86-140 | Events written with data lines, with or without the space, and any other lines in any order hand on exactly the texts of their data lines, event by event |
| `Streams.EventsRoundTrip` | internal/protocol/protocol.go:86-140 | Texts written as events, one data line per line, come back one by one (section 9.2 of the WHATWG HTML standard) |
| `Streams.ProtocolReader.EmitLines` | internal/protocol/protocol.go:60-72 | Hands on the complete lines; what is kept holds no newline and means the same later |
| `Streams.ProtocolReader.ProcessLines` | internal/protocol/protocol.go:52-82 | The calls of the handler are the lines of the whole stream, for every chunking |
| `Streams.ProtocolReader.ParseEvent` | internal/protocol/protocol.go:123-140 | The data lines of one event joined by newlines, or no call when it has none |
| `Streams.ProtocolReader.EmitEvents` | internal/protocol/protocol.go:106-120 | Hands on the complete events; what is kept holds no delimiter |
| `Streams.ProtocolReader.ProcessSse` | internal/protocol/protocol.go:86-103 | The calls of the handler are the events of the whole stream, for every chunking |

## Left out

- initialize: its single writes; a new file appears as a whole, well formed.
- I/O errors, short writes and truncated files: every write of the model succeeds.
- The hash functions, the xor hash of an entry, and 64-bit overflow of offsets: not part of this model.
- Field hash buckets as chains: the code does not link them, so reachability through them is not claimed.
- JournalWriter.JournalFile.AppendEntry: needs a file below 4 GiB, because the tail offset in the header is cut to 32 bits there; field names without =, because others do not read back (`JournalImage.CutPayloadExactlyWhen`); and a hash without clashes on what is stored, because deduplication goes by it alone (`JournalTheorems.DedupReadsBack`).
- JournalWriter.JournalFile.PutField: the same two for one field: a name without =, and a hash without clashes on what is stored.
- JournalWriter.JournalFile.OpenAppend: only for a file that was closed; one left online by a crash is not modelled.
- Reader.Wait and the watch on the file: only the refresh it leads to.
- Resize.ResizeBuffer: reflow, which this program turns off, the second screen, line info, and sb_popline are not modelled.
- Screen.ScreenBuffer.Erase: the words of a cell after its first zero character, which erasing leaves stale, are not part of a cell; nor are those that show again when a wide glyph overwrites the first one.
- Damage.DamagedScreen.PutGlyph: a glyph that begins on the screen has to fit its row, because past it the code writes through a null cell. Text puts only such glyphs (`Cursor.CursorState.PutGlyph`); when REP does, `Cursor.CursorState.RepeatFits` says.
- Damage.DamagedScreen.Run: the same for each glyph of the run; merging of scrolls is not modelled; the drawer is told of moves as damage. A run that loses a report may be repaired by a later one, or lose only what the drawer shows already, which depends on the cells; so the condition of a run is sufficient, while that of each operation is exact.
- Scrollback.ScrollingTerminal.ScrollAll: conservation is claimed for the runs that lose no line, since it is false for the others (`Scrollback.RunConservesExactlyWhen`).
- Cursor.CursorState.OnText: the gathering of combining characters is not modelled; text arrives as glyph widths, and ends at a glyph that leaves the screen.
- Cursor.CursorState.Run: ends at an operation that breaks off, since what the code does with a cursor off the screen, or in a loop without end, is not modelled; the widths of lines after a scroll are left open, so that every outcome is covered.
- Double-height lines, DECSLRM line-width claims, keyboard, mouse and selection: they only add cases.
- Parser: the 8-bit mode without UTF-8; the terminal runs in UTF-8 mode.
- Parser.ChunkIndependent: states that a clean input is enough; each kind of byte that makes an input unclean has its own exact condition (`Parser.EscExactlyWhen`; for the command part of OSC `Parser.CommandDependsOnSplit` and `Parser.HeldMattersExactlyWhen`), but there is no single condition for whole inputs, since what follows an unclean byte may hide it.
- Integer overflow of CSI arguments and counts: arguments are mathematical integers.
- PenState.Pencil.SetPen: arguments past the end of the list count as missing, where the code would read what an earlier command left there.
- Render.RowRestores: cells of width 1; the padding of a wide character renders as a space and is not modelled.
- Choice of the decoder from the first byte of a run of text: chunk independence is for one decoder instance.
- Streams.ProtocolReader.ProcessSse: a carriage return is an ordinary character, as in the code.
- Attach.Host.Run: only safety; deadlock freedom, resizing while attached and failed writes to a client are not modelled.
