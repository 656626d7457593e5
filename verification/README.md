# A verified model of the storage engine

The repository is a small database that keeps everything in one memory-mapped file of 4096-byte
pages. This project models it from the bits of a page up to whole runs of client commands, and
proves that every operation keeps the file in order and does what a client expects of it. Where the
program fails, the model fails with it: a lemma gives the input, and a theorem says exactly when.

## How the model is built

1. **A page** (`PageLayout`, `PageRows`, `MappedPage`, `FileHeader`). The size arithmetic, doubles and
   32-bit products included; what each page operation does to row slots, with its status codes; and
   the same operations in place on an `array` of bytes with header record, occupancy bitmap and row
   slots, each proved equal to the slot-level one. `FileHeader` shows what the file header means to
   a search that takes page 0 for a table page.
2. **The file** (`FileImage`, `ListHeads`, `Layouts`). What it means that the bytes of the file stand for its pages,
   for the two counters in page 0 and for the list heads, which are part of the rows of the table of
   tables; and every change of them, made in the bytes by the operations on mapped memory. `Layouts`
   reads the engine's own rows by the columns of their tables.
3. **The engine** (`StorageModel`, `StorageFrames`, `Allocation`, `Recycling`, `StorageEngine`). Class `Storage`
   holds the bytes of the file, the pages as they read, the list heads of every table and the two
   counters of the file header, and updates them as the C code does; `OnBytes` says that the bytes
   stand for the pages, the counters and the list heads, and every method keeps it. Two ghost fields
   say which sequence of pages each list is and who holds each extent. `Inv` is the global invariant:
   every list is acyclic,
   null-terminated and linked both ways; pages on a full list are full, pages on a free list have
   room and a row; the rows of `free_pages` are exactly the pages that are free, with their sizes;
   and the extents tile the data part of the file. Every `panic` on this path is an `assert false`
   that is proved dead. The recursion through `free_pages` terminates because a nested allocation
   sees no page with room in that table, and one removal cannot empty a full page
   (`Storage.Nesting` is the measure). `Recycling` says which page the allocator takes and by how much
   the file grows, from the state before.
4. **Cursors** (`CursorModel`, `CursorSteps`, `TableContents`, `TableFrames`). What is still ahead of
   a cursor is a sequence of keys; deleting or overwriting the current row leaves it as it was,
   although pages change lists, jump to the head of a list, or are freed under the cursor.
5. **Strings and the catalog** (`RowFormat`, `Tables`, `StringStore`, `Catalog`, `Consistency`,
   `Databases`). All tables are seen as one finite map from (page, row) to table and bytes, and on
   top of it client tables as a map from (page, row) to column values, strings included. String
   columns and heap rows correspond one to one: every string column has its own heap row, and no
   heap row is left without a column. Two heap tables have different row sizes, and the record of a
   table has the extent size of the table and the number of columns of its schema.
6. **Clients** (`RowsIterators`, `ClientLoops`, `KeyedRows`, `Nesting`, `Schemas`, `Comparison`,
   `Filters`). The iterator over client tables, the select, update and delete loops, rows named by
   key, joins and nested iterators as one walk over pairs, schemas kept as rows of the schema table,
   comparisons of column values (floats by their bit patterns), and filter trees.
7. **Whole runs** (`Runs`, `PageCosts`, `Clients`, `Conservation`). A client is a function from the answers so far
   to its next command, so it can use the ids of tables it created and the keys of rows it inserted or
   found. The run of any client over table creations, inserts, removals and replacements by key, and
   select, delete and update loops changes the client tables step by step as a finite map, leaves
   every page of the file accounted for exactly once and the bytes standing for the pages, or stops
   at a command that meets a limit of the format or names a row that is not there. `PageCosts` bounds,
   from the state before, by how much an operation makes the file grow; `Clients` has a client that
   creates a table, inserts a row, replaces and removes it.
8. **The chunk cache** (`ChunkCache`, `MappedFile`): the circular intrusive list of mapped file chunks,
   with reference counts of 16 bits and byte offsets of 32 bits; the pointer that it gives for a page of
   the engine shows the bytes that stand for that page.
9. **Persistence** (`Persistence`): nothing is known beside the bytes. Two databases in order with the
   same bytes have the same counters, tables, lists and rows.
10. **The example program** (`Examples`): the repository's own example, for any table and rows, and that it
   completes with its own table in a new file.
11. **Failures** (`Failures`): inputs at which the program does not do what it is for.

A method that can stop early has an `ok` result, an outcome, or the result `Strayed`. `ok` is false
only when the file has reached 65536 pages or the table ids are used up (`AtLimit`). Whether that can
happen is told from the state before the call: every operation has a bound on the pages and tables by
which the file grows (`GrewBy`: the extent of the row, one page for each page freed, a heap table and
an extent of it for each string), and completes if there is room for so many (`Room`). The bound of a
run is the sum of those of its commands.

## Findings

- A search of a table without a page with room starts at page 0, the file header. Read as a page
  header it has no rows and its link is the upper half of the page count. So the search is right
  exactly while the file has fewer than 65536 pages (`HeaderReadsAsPage`, `Select`, `JoinTables`,
  `SelectNested`); beyond that it strays to page 1, which is no page, or to a page of another table.
  `SearchStrays` gets there from a new file with two tables and one row, in the columns as the client
  declared them.
- File offsets in bytes are computed in 32 bits, so a new chunk is mapped at the right place exactly
  if the page asked for is below 2^20; page 2^20 is sought in the file header (`NewChunkStart`,
  `GetPages`). The 16-bit reference count of a chunk is right exactly below 65536 holders
  (`GetChunkWith`).
- The heap row size wraps at 16 bits for strings of more than 65500 bytes, terminator included; up to
  there the search window for heap tables holds exactly one possible row size, beyond it the table
  made for the string is not even in the window (`WindowExact`), and the string is copied beyond its
  row (`CopyFits`).
- The bound of the search for an extent size in `init_table` is computed in 32 bits. The search finds
  an extent for ten rows exactly for rows of at most 26843134 bytes (`ChooseScale`). Wider rows mostly
  find none within 16 bits, but some find one in which not even one row fits (`WideTable`).
- Loading a schema gives back what was written exactly when every column has the size of its type:
  CHARS columns of clients lose their size (`ReloadedSame`, `CreateTable`).
- A client table named `#heap_table#` passes the search for a heap table, for some string, exactly if its
  row size is between 5 and 65553. It is the row at which that search stops if there is no other heap
  table in the window of the search, and its rows have another layout exactly if the row size is not
  4 modulo 50 (`NameClash`, `NameClashExample`). Commands do not create tables of that name.
- The counter of tables has 16 bits: the first `n` tables have different ids exactly if `n` is at most
  65536, and table 65536 gets the id of the table of tables (`IdsDiffer`).
- A join whose first table is empty compares every row of the second table with a null pointer: it
  crashes exactly if the second table has a row (`JoinTables`, `JoinFromEmpty`). The nested iterator
  handles an empty outer table (`SelectNested`).
- A removal or replacement by key panics exactly if there is no row at the key (`RemoveAt`,
  `ReplaceAt`).
- A column-value filter on a column that does not exist is a null node, which lets every row pass
  (`MissingColumn`).
- A float pattern that is no number is equal to every float for the filters, joins included
  (`FloatPredicatesMean`, `JoinMeans`).

## Model

| member | source | states |
|---|---|---|
| Runs.Run | src/storage.c:184-468 | the run of any client that picks its commands from the answers so far acts on the client tables as on a finite map, one step per command; it completes, with the database valid, every data page accounted for once and pages, counters and list heads in the bytes of the file; it panics if and only if the next command names a row that is not there; and it stops only if the bounds of all commands up to the next one, told from the states before them, add up to the limits of the format |
| Runs.Execute | src/storage.c:184-468 | the same for one command, with its answer; a table that is created has its name in its record; a removal or replacement by key panics if and only if the row is not there, and with room for the bound of the command it does not stop |
| Runs.ValidAccounts | src/storage.c:16-43 | in every valid state every data page has exactly one holder |
| Runs.ValidOnBytes | src/storage.c:184-468 | in every valid state the bytes of the file hold its pages, both counters in page 0, and the list heads of every table in its row of the table of tables, and no page lies beyond the limit of 32-bit byte offsets |
| Persistence.FileDetermines | src/storage_intlzr.c:109-131 | two valid databases with the same bytes have the same counters, tables, list heads, lists and rows, and clients with the same schemas see the same tuples |
| Persistence.SameList | src/storage.c:45-78 | with the same bytes and the same head, a list has the same pages |
| Persistence.HeadsThere | src/storage.c:80-104 | the list heads of a table are in the bytes of its record |
| Runs.NewFile | src/storage_intlzr.c:64-96 | a new file is ready for commands, with at most 11 pages and exactly 4 tables |
| Clients.LifeAllowed | src/examples/crud.c:17-85 | wherever its table may be created, every command of the client that creates a table, inserts a row in it, replaces and removes that row is allowed and names a row that is there |
| Clients.LiveRow | src/storage.c:184-468 | with room for its four commands that client completes; its table is new and without rows, and every other tuple is as before |
| Examples.ProgramAllowed | src/examples/crud.c:13-42 | wherever its table may be created, every command of the example program is allowed |
| Examples.ProgramEnds | src/examples/crud.c:44-85 | its search finds exactly the inserted rows that pass, each once and with its values; its update and its deletion meet every row once; at the end its table has no rows, every tuple that was there is as before, and the only new ones are rows of its schema |
| Examples.ProgramUpdates | src/examples/crud.c:68-76 | wherever its table may be created, after the update of the example program every inserted row that passes has its new values, column by column |
| Examples.RunProgram | src/examples/crud.c:13-42 | with room for the bounds of its commands it completes, with that outcome and that update |
| Examples.RunExample | src/examples/crud.c:13-85 | with its own table and 100 rows it completes in a new file, whatever the floats are, and after its update every row has 10 in its first column |
| KeyedRows.RemoveAt | src/storage.c:317-347 | at any place in a page of the table the removal succeeds or panics, and it panics if and only if there is no row; it does not stop if there is room for one page per string column and one more |
| KeyedRows.ReplaceAt | src/storage.c:349-372 | likewise for the replacement, with room for the new strings |
| Conservation.PageConservation | src/storage.c:16-43 | every page from the data offset to the page count lies in exactly one extent, which is met on exactly one list from its head, or is named with its right size by exactly one row of `free_pages` |
| Conservation.SameChain | src/storage.c:45-78 | the links and the head determine a list |
| PageLayout.CapacityExact | src/page.c:47-58 | x rows fit with header and bitmap exactly when x is at most the computed number, so one more would not fit |
| PageLayout.DoubleQuotient | src/page.c:47-53 | whatever correctly rounded double the division gives, its floor is the computed number of rows |
| PageLayout.SlotsDisjoint | src/page.c:60-80 | header, bitmap and all row slots are disjoint and inside the extent |
| PageLayout.ChooseScale | src/table.c:28-31 | the search ends at the first 16-bit extent size that meets the bound computed in 32 bits, it ends if and only if the last one does, and what it finds is big enough for ten rows if and only if the row size is at most 26843134 |
| PageLayout.ScaleExists | src/table.c:28-31 | some 16-bit extent size is big enough if and only if the row size is at most 26843134 |
| PageLayout.ActualGrows | src/page.c:64-68 | a larger extent has more room beside header and bitmap |
| PageLayout.TenRows | src/table.c:28-31 | an extent that is big enough holds at least ten rows |
| PageLayout.LeastBound | src/table.c:28-31 | the extent found is at most one page larger than ten rows and their 15 bytes of header and bitmap |
| PageLayout.BitmapInFirstPage | src/page.c:162-202 | with the least extent that is big enough, header and bitmap lie in the first 4096 bytes, as the one-page mappings assume |
| Failures.WideTable | src/table.c:28-31 | 6554 columns of 65535 bytes have a row size whose tenfold wraps to 196604: the search ends at 49 pages, in which not one row fits |
| PageRows.FirstEmpty | src/page.c:187-202 | the least empty slot, or -1 if and only if the page is full |
| MappedPage.SetIntoBitmap | src/page.c:94-107 | in place, exactly one bit changes as `is_row_empty` reads it, and the result tells whether it did |
| MappedPage.IsRowEmpty | src/page.c:109-111 | tells whether the row's bit is clear |
| MappedPage.FindEmptyRow | src/page.c:187-202 | the byte and mask loop finds the first empty slot of the page that the bytes stand for |
| MappedPage.IsPageEmpty | src/page.c:162-169 | true if and only if no row is occupied, given that the padding bits are zero |
| MappedPage.ReadRow | src/page.c:113-127 | the four statuses, each exactly when it applies, and the bytes of the row |
| MappedPage.CreatePage | src/page.c:84-92 | afterwards no slot is occupied, the padding bits are zero, and the header record reads back as the geometry and link given |
| MappedPage.WritePageMeta | src/page.c:36-45 | the header record reads back from its 14 bytes as it was written, and no slot and no padding bit changes |
| MappedPage.WriteRow | src/page.c:146-160 | slots and status are those of the slot-level operation; padding stays zero and the header record stays |
| MappedPage.ReplaceRow | src/page.c:134-144 | likewise, the bitmap untouched |
| MappedPage.RemoveRow | src/page.c:171-184 | likewise, with the three outcomes of a removal; the bytes of the row are zero afterwards |
| FileImage.PatchKeeps | src/page.c:84-216 | when the bytes of one extent are replaced by bytes that stand for another page, the file stands for the pages with that one replaced |
| FileImage.ReachedRight | src/mem_mapping.c:185-191 | the extents of a file in order do not overlap, end inside the file, and start where the chunk cache computes their bytes right |
| FileImage.ReadMeta | src/page.c:24-34 | the record read through a mapping of one page is that of the page the bytes stand for |
| FileImage.WriteMeta | src/page.c:36-45 | in the bytes of the file, exactly the links of that page change |
| FileImage.SetNextIn | src/storage.c:45-56 | in the bytes of the file, exactly that link changes |
| FileImage.BlankPage | src/page.c:84-92 | in the bytes of the file, exactly that page becomes a page of that geometry without rows |
| FileImage.FindAndWrite | src/page.c:204-216 | in the bytes of the file, exactly the first empty slot of that page takes the row, with the status of the slot-level operation |
| FileImage.ReplaceIn | src/page.c:134-144 | likewise for the replacement of a row |
| FileImage.RemoveFrom | src/page.c:171-184 | likewise for the removal of a row |
| FileImage.Grow | src/mem_mapping.c:114-117 | the file is as long as asked for, or as it was if that is longer; what was in it stays, the rest is zero, and it stands for the same pages |
| FileImage.WriteCounts | src/storage.c:27-34 | in the bytes of the file, exactly the counters change |
| ListHeads.HeadsStored | src/storage.c:80-104 | with the new list heads written into the record of a table, the bytes stand for the same pages and the new heads |
| ListHeads.WriteHeads | src/storage.c:89-93 | in the bytes of the file, exactly the list heads in that record change |
| MappedFile.GetPage | src/mem_mapping.c:185-191 | the pointer that the chunk cache gives for a page of the engine reaches over its extent and shows the bytes that stand for the page |
| Allocation.RemovalCases | src/page.c:171-184 | a page reported as freed was on the list of pages with room and is empty; one reported as not full was full; otherwise it keeps both room and a row |
| FileHeader.HeaderReadsAsPage | src/storage_intlzr.c:70-75 | the bytes of the file header read as a page without rows whose link is the page count divided by 65536 |
| FileHeader.HeaderOnFile | src/rows_iterator.c:113-149 | in the bytes of a file in order, page 0 reads as the page that the engine's cursor uses there |
| StorageModel.UnlinkKeeps | src/storage.c:45-56 | unlinking a page keeps the invariant; the unlinked page keeps its own stale links |
| StorageModel.PushKeeps | src/storage.c:58-78 | pushing a page on a list keeps the invariant |
| StorageEngine.Storage.constructor | src/storage_intlzr.c:16-40 | the table of tables gets the first data page with its own row, the invariant holds, and the bytes stand for that page, its list heads and the counters |
| StorageEngine.Storage.NextRow | src/rows_iterator.c:113-149 | the next row reported is the first passing key ahead in free-list then full-list order, and what is ahead then is the rest; the end is reported exactly when nothing passing is ahead; it strays exactly from page 0 of a file with at least 65536 pages; the panic on row size 0 is dead |
| Failures.SearchStrays | src/rows_iterator.c:113-149 | in a new file with two client tables and one row in the second, whose 26843134 bytes make the file larger than 65535 pages, the next search of the first table strays |
| StorageEngine.Storage.ReadPageMeta | src/page.c:24-34 | the in-memory copy agrees with the page header; the panic on row size 0 is dead |
| StorageEngine.Storage.RemoveFromTableList | src/storage.c:45-56 | neighbours are linked past the page and the head moves if the page was first; no panic |
| StorageEngine.Storage.PushToTableList | src/storage.c:58-78 | the page becomes the head in front of the old one; no panic |
| StorageEngine.Storage.MovePage | src/storage.c:80-104 | the page goes from one list of its table to the head of the other; all rows and all other tables stay; the invariant holds |
| StorageEngine.Storage.StorageAddPage | src/storage.c:16-43 | a blank page of the right size, with everything else in order: if an extent of that size is recorded in `free_pages`, the one named by the first such row that a search meets, and the file grows by at most the page that its own table then needs; otherwise, and only then, the end of the file; it succeeds if and only if the search does not stray and the record can be removed, or the end is below page 2^20; terminates with at most one nested allocation |
| Recycling.SpareMet | src/storage.c:19-21 | a search of `free_pages` by size meets a row if and only if an extent of that size is recorded |
| Recycling.TakenExact | src/storage.c:21-27 | the page taken is one that was recorded, and not the end of the file, if and only if there was one of that size, and no row of `free_pages` names it any more |
| Recycling.FreedIsSpare | src/storage.c:309-315 | a page of a client table that loses its last row is recorded with its size, so it can be taken again |
| Recycling.TakesSpare | src/storage.c:184-193 | a row for a table without room goes to a recorded extent if there is one of its size, and the file grows by at most one page |
| StorageEngine.Storage.CreateTablePage | src/storage.c:106-112 | the table has an empty page at the head of its first list, taken as `storage_add_page` does; no row changes |
| StorageEngine.Storage.InsertRow | src/storage.c:184-211 | exactly one more row of that table, in the first empty slot of the head of its first list if there is one, and otherwise in the first slot of the extent taken, so of a recorded one if there is one of that size; other tables untouched; invariant kept; it succeeds if and only if there is such a head or an extent can be taken |
| StorageEngine.Storage.FindAndWrite | src/page.c:204-216 | the first empty slot takes the row, and the status tells whether the page is now full |
| StorageEngine.Storage.HandlePageFreed | src/storage.c:309-315 | the emptied page leaves its free list and is recorded in `free_pages` with its size; the file grows, by one page, if and only if no other page of `free_pages` has room and no extent of one page is recorded; it succeeds if and only if such a page has room or the file has fewer than 65536 pages |
| StorageEngine.Storage.ClearSlot | src/page.c:171-184 | exactly that slot is emptied and the status is that of the slot-level operation |
| StorageEngine.Storage.RemoveRow | src/storage.c:317-347 | exactly that row is gone; what becomes of the lists of the table; a freed page keeps its stale link; other tables untouched; invariant kept; it fails if and only if the row is the last of its page, no other page of `free_pages` has room, and the file has at least 65536 pages |
| StorageEngine.Storage.ReplaceRow | src/storage.c:349-372 | exactly that row has the new bytes, in place; lists and counters unchanged |
| StorageEngine.Storage.RegisterTable | src/storage.c:439-442 | a table without pages takes the next table id, and its row becomes its record |
| StorageEngine.Storage.MapRecord | src/storage.c:439-442 | the row becomes the record of its table, in which its list heads are kept from then on, and page 0 counts one more table |
| CursorModel.StartPending | src/rows_iterator.c:12-27 | a fresh cursor has all passing rows ahead and nothing behind |
| CursorSteps.RemovalAhead | src/rows_iterator.c:151-159 | after deleting the current row the same passing rows are ahead, although its page may have jumped to the head of the other list or been freed |
| CursorSteps.ReplacementAhead | src/rows_iterator.c:162-173 | overwriting the current row changes nothing ahead of the cursor, whatever the filter says of the new row |
| TableContents.TableHitsExact | src/rows_iterator.c:113-149 | a full walk reports a key exactly when the table has a passing row there, and reports it once |
| TableMap.InsertedContents | src/storage.c:184-211 | inserting is adding one fresh key to the map of all rows |
| TableMap.RemovedContents | src/storage.c:317-347 | removing is deleting exactly that key |
| TableMap.ReplacedContents | src/storage.c:349-372 | replacing is overwriting exactly that key |
| RowFormat.AppendPiece | src/storage.c:148-180 | the running pointer puts each column at the sum of the sizes before it and leaves the earlier columns |
| RowFormat.CStringReads | src/storage.c:171-172 | a stored string reads back whatever bytes follow its terminator |
| RowFormat.WindowExact | src/storage.c:117-123 | the window of row sizes holds exactly one heap row size, the computed one, if and only if the string has at most 65500 bytes |
| RowFormat.CopyFits | src/storage.c:153-168 | a string of n characters fits in the heap row made for it if and only if n + 1 is at most 65500 |
| RowFormat.HeapRowReads | src/storage.c:292-296 | length, text and table id read back from a heap row |
| Tables.FixedSizes | src/table.c:56-86 | the four fixed layouts have the row sizes that the engine relies on |
| Tables.HeapRowColumns | src/table.c:79-86 | a heap row is a row of the layout length, characters, table id |
| Layouts.LowByteFirst | src/storage.c:163-166 | numbers are stored with the low byte first |
| Layouts.RecordColumns | src/table.h:28-36 | what the engine reads of a table record is in the columns name, id, number of columns, extent size and row size of the table of tables |
| Layouts.HeadColumns | src/table.h:28-36 | the list heads are in the last two columns of that row, and no other column changes with them |
| Layouts.FreeRowColumns | src/storage_intlzr.c:81-85 | a row of `free_pages` has the page and the extent size in its two columns |
| Layouts.TypeNumbers | src/scheme.h:13-23 | a type is stored as its number, and read back from it |
| Tables.InitTable | src/table.c:12-33 | the row size is the sum of the column sizes, which cannot wrap, and the extent size is that of the search; it is the least that is big enough if and only if the row size is at most 26843134 |
| Catalog.TableReads | src/table.h:28-36 | name, id and row size read back from a row of the table of tables |
| Catalog.CountsRead | src/table.h:28-36 | number of columns and extent size read back |
| Catalog.CatalogExtended | src/storage.c:427-446 | a new table and its row keep rows and tables in one-to-one correspondence |
| Catalog.SizesCount | src/storage.c:114-140 | there are as many heap tables as row sizes of heap tables |
| Consistency.FoundHeap | src/storage.c:114-137 | a heap table found by size has exactly the row size computed from the string length |
| Consistency.HeapListed | src/storage.c:114-137 | the search by size finds the heap table for a string if there is one |
| Consistency.ListedOnce | src/storage.c:298-302 | every table has exactly one row in the table of tables, so a search by id finds the right one |
| Consistency.RowPut | src/storage.c:184-211 | storing prepared bytes keeps tables, catalog and strings consistent, leaves no heap row unused, and adds exactly one tuple |
| Consistency.StringRemoved | src/storage.c:277-307 | dropping one string affects no other row of any client table |
| Consistency.RowGone | src/storage.c:327-346 | dropping a row whose strings are gone removes exactly its tuple |
| StringStore.PreparedStep | src/storage.c:149-180 | one more column of the row in preparation reads back as its value |
| StringStore.RowStored | src/storage.c:145-182 | a stored row reads back as the values it was given, and all string columns of all rows stay readable |
| StringStore.StoredNoLeaks | src/storage.c:153-168 | every heap row is referred to by a string column |
| StringStore.StringDropped | src/storage.c:277-307 | a string column has its heap row, and without it all other columns are still in order |
| Databases.Database.constructor | src/storage_intlzr.c:64-96 | the bootstrap establishes the whole invariant, with three tables and no tuple |
| Databases.Database.FindTable | src/storage.c:374-387 | the first row met in the table of tables that passes, or the certainty that there is none |
| Databases.Database.WriteTable | src/storage.c:427-446 | a table with the next id and the given size, no rows, listed once, its record mapped where its row is and holding the name, the number of columns and the sizes of rows and extents as given; the sizes of heap tables gain this one exactly if the name is that of heap tables; clients' rows untouched |
| Databases.Database.FieldsNumber | src/storage.c:391-395 | the number of columns in the record of a table is that of its schema |
| Databases.Database.GetHeapTable | src/storage.c:114-140 | if there is a heap table for the length, the table of the first such row met, and the file is unchanged; otherwise a new one, which a search for that length then finds; never two of one row size |
| Databases.Database.InsertString | src/storage.c:153-168 | one new heap row, holding the string, in the heap table for its length, which is made if and only if there was none |
| Databases.Database.PrepareRow | src/storage.c:145-182 | the bytes read as the values; the only new heap rows are one per string column, and there is one new heap table for each row size that was needed and not there |
| Databases.Database.Insert | src/storage.c:184-211 | the client tables gain exactly one tuple, at a fresh key, with the given values, where `table_insert_row` finds place once the strings are stored: a recorded extent if the table has no room and there is one of its size; it completes if there is room for the strings and the file has fewer than 65536 pages |
| Databases.Database.RemoveString | src/storage.c:277-307 | exactly the heap row of that column goes, from the heap table that its id names |
| Databases.Database.Remove | src/storage.c:317-347 | exactly the row and the heap rows of its strings go; every other tuple reads as before; it completes if there is room for one page per string column and one more |
| Databases.Database.Replace | src/storage.c:349-372 | exactly that tuple has the new values; every other tuple reads as before; the heap tables are those before and those for the new strings; it completes if there is room for the old and new strings |
| Databases.Database.Get | src/storage.c:213-252 | the values of the tuple; a string that cannot be read does not occur |
| RowsIterators.ReadFieldsExact | src/storage.c:222-249 | what a search reads of a row is what the tables hold |
| RowsIterators.RowsIterator.constructor | src/rows_iterator.c:57-62 | everything that passes is ahead |
| RowsIterators.RowsIterator.Next | src/rows_iterator.c:113-149 | one step of the walk over tuples |
| RowsIterators.RowsIterator.RemoveCurrent | src/rows_iterator.c:151-159 | exactly the current tuple goes, and the same passing tuples are ahead, read in the changed file |
| RowsIterators.RowsIterator.UpdateCurrent | src/rows_iterator.c:162-173 | exactly the current tuple changes: every column has the value given for it, or the one it had if none is given; and the same tuples are ahead |
| ClientLoops.HitsAreTuples | src/rows_iterator.c:113-149 | a walk meets every tuple of the table that passes, once, and nothing else |
| ClientLoops.Select | src/examples/crud.c:56-66 | the select loop reports every passing tuple once, with its values, in walk order; it strays exactly when there is no page with room and the file has at least 65536 pages |
| ClientLoops.Delete | src/examples/crud.c:78-85 | the delete loop terminates, deletes each passing tuple once, in walk order, and leaves exactly the others; it completes if there is room for the bound of one removal times the number of passing tuples |
| ClientLoops.Update | src/examples/crud.c:68-76 | the update loop rewrites exactly the tuples that passed at the start, each once: every column of each has the value given for it, from the values the tuple had then, or the one it had; it completes if there is room for the bounds of all the rewritings, added up over those tuples |
| Nesting.PairWalk.constructor | src/join.c:33-38 | the whole nested-loop product of the outer row found and of the rows after it is to come |
| Nesting.PairWalk.NextRow | src/join.c:41-56 | the next pair of the nested loops, with the combined row, or the end exactly when no pair is left; it strays exactly when the inner cursor takes page 0 for a page in a file of at least 65536 pages |
| Nesting.WalkRest | src/rows_iterator.c:113-149 | all pairs of the nested loops, in cursor order, each with its combined row |
| Nesting.JoinTables | src/join.c:20-56 | for any two tables: the join crashes if and only if the first has no row and the second has one (and the file has fewer than 65536 pages), strays if and only if the file has at least 65536 pages and one of them has no page with room, and otherwise gives the pairs of the nested loops |
| Nesting.JoinExact | src/join.c:20-56 | a pair is given if and only if both tuples are there and the values compare as equal, and is given once |
| Nesting.JoinMeans | src/join.c:49-50 | on columns that can be joined, that is equality of the values, and for floats equality of the numbers or a value that is no number |
| Failures.JoinFromEmpty | src/join.c:33-36 | in a new file, a new table joined with the schema table crashes |
| Nesting.SelectNested | src/rows_iterator.c:30-51 | for each outer row that passes, every inner row that passes on the combined row; ends also with no outer row; strays if and only if the file has at least 65536 pages and the outer table has no page with room, or some outer row passes and the inner table has none |
| Nesting.NestedExact | src/rows_iterator.c:30-51 | a pair is given if and only if the outer tuple passes its condition and the values of both tuples, the outer ones first, pass the inner one |
| Nesting.NestedDistinct | src/rows_iterator.c:133-142 | no pair comes twice |
| Schemas.WriteScheme | src/storage.c:448-454 | one row of the schema table per column, at fresh keys, and no other tuple changes; one new heap table for each size of name that was not there |
| Schemas.FillOne | src/scheme.c:29-40 | the row of a column fills the slot of its order, whatever rows came before |
| Schemas.LoadScheme | src/storage.c:391-408 | as many rows are read as the record of the table says, and every column ends up in its slot, whatever order the rows come in; the search does not end early |
| Schemas.ReloadedSame | src/scheme.c:29-40 | loading restores the columns if and only if they stand in order and have the sizes of their types |
| Schemas.CharsLost | src/scheme.c:29-40 | a CHARS column comes back without its size |
| Schemas.CreateTable | src/storage.c:457-468 | the new table is there without rows, its record holds its name, the number of its columns, the size of its rows and the least extent size for them, and its schema is loaded; it loads as it was given if and only if the columns have the sizes of their types; it completes if there is room for its row and those of its columns |
| Schemas.CreateStorage | src/storage_intlzr.c:64-87 | a new file with the schema of `free_pages` written, all values fitting their columns, of at most 11 pages and with exactly 4 tables, the one heap table for rows of 54 bytes among them |
| Comparison.PredicatesMean | src/search_filters.c:99-164 | on integer types the six predicates are the six relations of the numbers read |
| Comparison.DecodesEncoded | src/search_filters.c:99-124 | a number in the range of its type, negative or not, is read back from its little-endian two's complement bytes |
| Comparison.EncodesDecoded | src/search_filters.c:99-124 | and the bytes are those of the number read |
| Comparison.IntegersCompare | src/search_filters.c:99-164 | on the bytes of any two numbers x and y of an integer type, signed or not, the six predicates are x = y, x ≠ y, x < y, x > y, x ≤ y and x ≥ y |
| Comparison.StringsCompare | src/search_filters.c:125-141 | on strings, equality and inequality of the characters |
| Comparison.FloatPredicatesMean | src/search_filters.c:99-164 | on floats they are the relations of the numbers that the patterns stand for, both zeros being equal; a pattern that is no number is equal to every number |
| Comparison.MagnitudeGrows | src/search_filters.c:105-108 | patterns without a sign are ordered like the numbers they stand for, infinity last |
| Comparison.FloatSigns | src/search_filters.c:105-108 | zero is 0, and the pattern with the sign set stands for the negative number |
| Comparison.FloatSteps | src/search_filters.c:105-108 | the next pattern without a sign stands for the number one unit up, and from the second exponent on the unit doubles with each |
| Comparison.NotNumbers | src/search_filters.c:105-108 | a pattern is no number if and only if its exponent has all bits set and its fraction is not 0 |
| Filters.Switched | src/rows_iterator.c:96-98 | switching the operands is the converse predicate, for every type |
| Filters.AddedNarrows | src/search_filters.c:9-20 | adding a filter narrows the condition by exactly that comparison |
| Filters.PartsMeet | src/rows_iterator.c:90-93 | the rows met by an or-node are those met by one of its parts, the rows met by an and-node those met by both |
| Filters.LiteralCompares | src/rows_iterator.c:94-99 | a filter of a cursor behind other columns compares the column of its own row with the number given, the other way round if its operands are switched |
| Filters.TextCompares | src/rows_iterator.c:94-99 | likewise for strings |
| Filters.PredefinedCompares | src/search_filters.c:41-50 | a comparison of two numbers lets all rows pass or none, as the numbers are related |
| Filters.MissingColumn | src/search_filters.c:23-31 | a filter on a missing column is no condition |
| Filters.VariableMeans | src/search_filters.c:53-78 | a column-column filter compares the two named columns when both exist and have one type, and is no condition otherwise |
| Filters.FindColumn | src/storage.c:255-263 | the first column of that name, or none if there is none |
| Filters.JoinFilterMeans | src/join.c:49-50 | the filter that a join builds is the equality of the two columns |
| Filters.SearchesMean | src/storage.c:117-123 | the filters built for searches of the table of tables are the conditions by name, size window and id |
| ChunkCache.ChunkFits | src/mem_mapping.c:108-112 | a chunk sized for a request covers it and ends exactly at the file size it asks for |
| ChunkCache.NewChunkStart | src/mem_mapping.c:108-118 | a new chunk is mapped where it says if and only if the page asked for is below 2^20; page 2^20 is sought at byte 0 of the file |
| ChunkCache.LstPush | src/linked_list.c:34-42 | the element comes right behind the sentinel of the ring |
| ChunkCache.LstRemove | src/linked_list.c:19-23 | the ring without that element |
| ChunkCache.MemoryManager.ReallocChunk | src/mem_mapping.c:108-134 | the chunk is mapped, in 32-bit byte offsets, covers the request, and ends at most 16 pages behind it; it lies inside the file, which only grows, as long as no page beyond 2^20 was asked for |
| ChunkCache.MemoryManager.AllocChunk | src/mem_mapping.c:136-145 | a new chunk with one holder at the front of the list |
| ChunkCache.MemoryManager.FindChunk | src/mem_mapping.c:147-157 | the first listed chunk that contains the request, or else the sentinel |
| ChunkCache.MemoryManager.GetChunkWith | src/mem_mapping.c:147-158 | the first listed chunk that contains the request, or a new one if there is none; never the sentinel; the holders are counted right if and only if the 16-bit counter does not wrap |
| ChunkCache.MemoryManager.LoadChunk | src/mem_mapping.c:160-167 | one more holder of the first listed chunk that contains the pages, or of a new one if and only if there is none, counted right if and only if there are fewer than 65536; other mappings stay |
| ChunkCache.MemoryManager.RemoveChunk | src/mem_mapping.c:169-171 | one holder less; the chunk is unmapped exactly when that was the last |
| ChunkCache.MemoryManager.FreeChunk | src/mem_mapping.c:173-183 | reference counts equal the numbers of holders, and the chunk stays listed exactly while it has one |
| ChunkCache.MemoryManager.GetPages | src/mem_mapping.c:185-191 | the pointer reaches over the whole request, in the first listed chunk that contains it and stays listed without the hold of the manager, or in a new one if and only if there is none; it denotes the first byte of the page in the file if and only if the chunk starts below page 2^20, which holds for every page below 2^20 and for no new chunk beyond; held chunks keep their mappings |
| ChunkCache.MemoryManager.ChunkGetPointer | src/mem_mapping.c:193-195 | an outstanding user chunk denotes its page if and only if its chunk starts below page 2^20 |
| ChunkCache.MemoryManager.Destroy | src/mem_mapping.c:92-99 | terminates with nothing mapped |
| Filters.NameClash | src/storage.c:117-123 | in a file in order with a table of that name, the search for a heap table meets its row for some string of at most 65500 bytes if and only if its row size is between 5 and 65553; it meets that row and no other if there is no other heap table in the window; and the layouts then differ if and only if the row size is not 4 modulo 50 |
| Filters.NameClashExample | src/storage.c:117-123 | with rows of 60 bytes the search for strings of 10 bytes meets it alone if no heap table fits, and the rows of those have 54 |
| Failures.IdsDiffer | src/storage.c:427-439 | the ids of the first n tables are different if and only if n is at most 65536; table 65536 gets the id of the table of tables |

## Left out

- Operating system calls (open, stat, mmap, munmap, fallocate), logging, printing, and the Windows branch with the 16-bit chunk ids that only it reads. A mapping is a copy of the extent that is written back after the operation.
- Files of 65536 pages and more: the model stops where a search of an empty free list strays; it does not follow the program further.
- The pages of class `Storage` are read from its page map, which the bytes stand for; only headers are read from the bytes there. It does not hold chunks: `GetPage` says what a pointer into one shows.
- Table ids: the model stops before the last of the 65536 ids is given out; what the wrapped counter then gives is `IdsDiffer`.
- The order of strings, `random_filter`, `substring_of` and `in_string`. The condition of a cursor is any function of the column values; `Filters` gives meaning to filter trees over numbers and string equality.
- Whether a table name is taken: the test in `create_table` does not compare names, so two tables may have one name.
- Opening an existing file: the searches by name that it makes. That there is nothing to recover beside the bytes is `FileDetermines`, and `LoadScheme` is what opening a table does after the search.
- Iterators nested more than one deep, and an outer iterator that is used on its own while an inner one exists.
- Inserting through the loop that deletes, and clients that change the system tables themselves.
- Nesting.JoinTables: not for columns whose values have not the bytes that the comparison reads (strings against numbers, numbers of two sizes), because there the source reads beyond a value; and only for columns that both tables have, because otherwise it returns no join.
- Schemas.CreateTable: not for the name of the heap tables, whose exact effect is `NameClash`, and not for string columns of another size than 8.
- Databases.Database.GetHeapTable: for string lengths of at most 65500, because a longer string is copied beyond its row (`CopyFits`).
- Databases.Database.InsertString: likewise.
- Databases.Database.PrepareRow: asks that the values fit their columns; the source copies a string up to its terminator and other values in the size of the column, whatever it is given.
- Databases.Database.Insert: likewise; and when it stops at a limit the contract says nothing of the rows, because the program panics or strays there.
- Runs.Execute: for tables whose schema loads as it was given, so not for CHARS columns (`ReloadedSame`), for values that fit, and for keys in pages of the table.
- Runs.Run: likewise for every command of the client.
- Databases.Database.Replace: likewise.
- ClientLoops.Update: likewise, for the new values.
- KeyedRows.RemoveAt: for places in pages of the table; elsewhere the source takes other memory for a page of the table.
- KeyedRows.ReplaceAt: likewise.
