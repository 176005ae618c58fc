# Barcode scanner inventory: a Dafny model

This project models the core of a barcode-scanning inventory application
written in Python. The scanner scripts take the readings of a barcode decoder
frame by frame. They drop repeated texts, and they hold back a text that was
already scanned less than five seconds earlier (the `recently_scanned` map).
Each remaining text is reconciled against an SQLite inventory table: a known
product gains one unit, and an unknown one is inserted with fields that a
resolver supplies. Over a whole video (or a camera stream), a run-wide seen
set decides which texts are new, which frame images are written, and what is
counted and returned.

The scripts are divergent copies, and each one is modelled as written:

- `integrated_code_scanner_app.py`: module `IntegratedApp`.
- `Barcode_Scanner_Video_Processing_database/barcode_scanner_Scientific_Computing_Concepts.py`: module `LiveScanner`. It adds the 'q' and 'r' keys and reuses the same `process_frame`.
- `website/barcode_scanner.py`: module `WebScanner`. It cleans texts, skips odd frames and checks the run set before the time window.
- `website/app_barcode_scanner_video_processing.py`: module `UploadScanner`. Its records are keyed by type and data, and its file names are sanitized.
- `Barcode_Scanner_Video_Processing_database/app_barcode_scanner_video_processing.py`: module `FrameSaver`. It writes every detecting frame.
- `Barcode_Scanner_Video_Processing/barcode_scanner_video_processing_merged.py`: module `MergedScanner`. It keeps only the last reading of a frame.

The rest of the core is modelled as follows:

- The inventory table of `database.py`, `database_website.py` and `database_scientific_computing_concepts.py` is module `Inventory`. It is a `Store` class that holds the table as a map from `productID` to its row.
- The in-memory product model of `InventoryManagementSystem` (`product.py`, `clothing.py`, `ims.py`) is modules `Products` and `InventorySystem`.

Shared modules:

- `Scan`: the reading, frame and key types, the time window, the reconciliation step and the `detected_NNNN.png` names.
- `Dedup`: first occurrence by key.
- `Decimal`: `str(int)` and `{:04d}`.
- `Text`: subsequences.
- `Wrappers`: `Option` and `Result`.

How the outside world enters the model:

- **Decoder output** is given as data: a frame is a sequence of `Detection(kind, text, polygonLen, at)`.
- **Time** is the integer clock reading `at` carried by each reading.
- **Opening a capture** is a boolean.
- **The camera keys** come with each frame as a `Tick`.
- **The interactive prompts for a new product** are a resolver function.
- **Written frame files** are returned as a sequence of names.
- **Write success** in the upload scanner is a function parameter (`written`).

## Model

| member | source | states |
|---|---|---|
| Decimal.Render | InventoryManagementSystem/product.py:15 | `str(i)` of an int is never empty: an optional minus sign, then the digits |
| Decimal.Pad4 | integrated_code_scanner_app.py:106 | `{:04d}` gives only digits, four of them or as many as the number needs |
| Decimal.RenderRoundTrip | integrated_code_scanner_app.py:106 | `str(n)` of any integer parses back to n |
| Decimal.Pad4RoundTrip | integrated_code_scanner_app.py:106 | the `{:04d}` rendering of a frame index reads back as the index |
| Decimal.Pad4Injective | integrated_code_scanner_app.py:106 | different frame indices give different padded renderings |
| Dedup.UniqueByFirstOccurrences | integrated_code_scanner_app.py:40-43 | keeping the first item per key yields pairwise different keys, exactly the keys of the input, each item being the first input item with its key, in first-occurrence order |
| Dedup.UniqueByKeys | integrated_code_scanner_app.py:40-43 | the first occurrences have pairwise different keys and exactly the keys of the input |
| Dedup.UniqueByFirst | integrated_code_scanner_app.py:40-43 | each item kept is the first input item with its key |
| Dedup.UniqueByOrder | integrated_code_scanner_app.py:40-43 | the items kept appear in the order their keys first occur in the input |
| Dedup.UniqueByCount | integrated_code_scanner_app.py:102-108 | the number of first occurrences equals the number of distinct keys |
| Dedup.KeysOfAppend | integrated_code_scanner_app.py:102-104 | the keys of a concatenation are the union of the keys of its parts |
| Scan.FrameFileNameFormat | integrated_code_scanner_app.py:106 | a frame's artifact name is "detected_", digits that read back as the frame index, then ".png" |
| Scan.FrameFileNameInjective | integrated_code_scanner_app.py:106 | `detected_<idx:04d>.png` names different frames differently |
| Scan.Reconcile | integrated_code_scanner_app.py:64-77 | a known text's row gains exactly 1 in quantity with its other columns and row id unchanged, an unknown text is inserted with the resolver's fields, no other row changes, and the table invariant is kept |
| Scan.ReconcileIn | integrated_code_scanner_app.py:64-77 | search_product, then update_quantity(text, 1) or add_product on the store, leave exactly the table Reconcile describes |
| Scan.GateStep | integrated_code_scanner_app.py:57-62 | a reading less than 5 seconds (strict) after the stored timestamp changes nothing; otherwise the timestamp becomes its clock and the text is reconciled; no other text's timestamp or row changes |
| Scan.GateAll | integrated_code_scanner_app.py:57-77 | the readings go through the gate one after another; the table keeps existing and stays well formed |
| Scan.GateAllElsewhere | integrated_code_scanner_app.py:40-77 | a text none of a frame's readings carry keeps its timestamp and row |
| Scan.GateAllAt | integrated_code_scanner_app.py:57-77 | for readings with distinct texts, each text is either suppressed (timestamp and row unchanged) or timestamped with its clock and reconciled exactly once |
| Scan.GateAllLast | integrated_code_scanner_app.py:57-77 | the last of readings with distinct texts is judged against its text's timestamp from before the frame: suppressed means untouched, otherwise timestamped and reconciled once |
| IntegratedApp.Scanner.Gate | integrated_code_scanner_app.py:56-77 | the window check, timestamp update and reconciliation of one new text change the state as GateStep says |
| IntegratedApp.Scanner.ProcessFrame | integrated_code_scanner_app.py:24-79 | detected iff the frame has a reading; the texts are the frame's first occurrences in decode order; a box is drawn iff the polygon has 4 points; the map and table end as the gate applied to each first occurrence |
| IntegratedApp.Scanner.Accept | integrated_code_scanner_app.py:40-77 | a text new to the frame is added to the processed set and the returned texts, its box flag recorded, and the state moves by one gate step |
| IntegratedApp.Scanner.ProcessVideo | integrated_code_scanner_app.py:82-114 | an unopened capture returns nothing and changes nothing; otherwise the returned set is every text read, the count is the number of distinct texts, one `detected_NNNN.png` is written per text at its first sighting, and the state is the frames' effect in order |
| IntegratedApp.Scanner.constructor | integrated_code_scanner_app.py:19-21 | importing the script initializes the table and starts with an empty timestamp map |
| IntegratedApp.NoteTexts | integrated_code_scanner_app.py:102-108 | the inner loop adds the frame's texts to the run set and counts and names a write for exactly the texts new to the run |
| IntegratedApp.NoteText | integrated_code_scanner_app.py:102-108 | one pass of that loop: the run set, the count and the written names follow the first occurrences of the sightings so far plus this one |
| IntegratedApp.RunBarcodesAreAllTexts | integrated_code_scanner_app.py:102-114 | the returned texts are exactly the texts read in the frames, suppressed ones included |
| IntegratedApp.RunCountsDistinctTexts | integrated_code_scanner_app.py:102-114 | each distinct text is counted once and triggers exactly one write, made at its first sighting; the count equals the number of texts returned |
| IntegratedApp.RunEffect | integrated_code_scanner_app.py:95-100 | process_frame runs on every frame in order; the table keeps existing and stays well formed |
| IntegratedApp.FrameEffectOnText | integrated_code_scanner_app.py:40-77 | one frame's effect on a text: unread texts are untouched; for a read text, judged by its first reading's clock, suppressed means untouched, otherwise timestamped and reconciled exactly once however often the frame reads it |
| IntegratedApp.ThreeFrameWrites | integrated_code_scanner_app.py:95-114 | frames reading "A", "A", "B" return {"A", "B"} and write the images of frames 0 and 2 only |
| IntegratedApp.ThreeFrameEffect | integrated_code_scanner_app.py:57-77 | with "A" at 0 s, "A" at 2 s and "B" at 4 s, the second "A" is suppressed; "A" and "B" are reconciled once each and no other row changes |
| LiveScanner.StopAt | Barcode_Scanner_Video_Processing_database/barcode_scanner_Scientific_Computing_Concepts.py:108-128 | the loop processes the ticks up to and including the first 'q', or all of them |
| LiveScanner.LiveEffect | Barcode_Scanner_Video_Processing_database/barcode_scanner_Scientific_Computing_Concepts.py:108-133 | the ticks take effect one after another; the table keeps existing and stays well formed |
| LiveScanner.TickEffect | Barcode_Scanner_Video_Processing_database/barcode_scanner_Scientific_Computing_Concepts.py:113-131 | one tick runs process_frame; the 'r' key then empties the timestamp map and leaves the table |
| LiveScanner.FramesIgnoreKeys | Barcode_Scanner_Video_Processing_database/barcode_scanner_Scientific_Computing_Concepts.py:109-113 | taking the frames out of the ticks ignores the keys: ticks with the same frames tick by tick give the same frame sequence (which ticks are processed does depend on the keys, through the first 'q'; see `StopAt`) |
| LiveScanner.StopAtFirstQuit | Barcode_Scanner_Video_Processing_database/barcode_scanner_Scientific_Computing_Concepts.py:126-128 | a 'q' on tick i with none before ends the loop after exactly i + 1 ticks |
| LiveScanner.ResetKeepsRunSet | Barcode_Scanner_Video_Processing_database/barcode_scanner_Scientific_Computing_Concepts.py:115-131 | changing keys other than 'q' changes neither where the loop stops nor which frames it reads, so 'r' never causes a second write |
| LiveScanner.ResetThenReconcile | Barcode_Scanner_Video_Processing_database/barcode_scanner_Scientific_Computing_Concepts.py:56-131 | after an 'r', any text the next frame reads is reconciled again, even if the run has already persisted it |
| LiveScanner.Run | Barcode_Scanner_Video_Processing_database/barcode_scanner_Scientific_Computing_Concepts.py:85-133 | a choice other than '0', or an unopened camera, processes nothing; otherwise the run set, the count and the written names follow the first sightings of the frames up to the first 'q', and the map and table are those frames' effect with 'r' resets |
| LiveScanner.Stream | Barcode_Scanner_Video_Processing_database/barcode_scanner_Scientific_Computing_Concepts.py:108-133 | the while loop's run set, count, names written and state, stated against the ticks up to the first 'q' |
| WebScanner.Strip | website/barcode_scanner.py:29 | strip() never lengthens the text, and a non-empty result neither starts nor ends with whitespace |
| WebScanner.StripSlice | website/barcode_scanner.py:29 | strip() yields a slice of the text with only whitespace outside it and none at its ends |
| WebScanner.StripIdempotent | website/barcode_scanner.py:29 | stripping twice is stripping once |
| WebScanner.RemoveAll | website/barcode_scanner.py:29 | replace(pat, '') never lengthens the text |
| WebScanner.RemoveAllSubseq | website/barcode_scanner.py:29 | replace(pat, '') only deletes characters |
| WebScanner.Clean | website/barcode_scanner.py:29 | the cleaned text is never longer than the decoded text |
| WebScanner.CleanSubseq | website/barcode_scanner.py:29 | the cleaned text is a subsequence of the decoded text |
| WebScanner.CleanFixed | website/barcode_scanner.py:29 | a text without end whitespace and without '/' is unchanged by cleaning |
| WebScanner.CleanNotIdempotent | website/barcode_scanner.py:29 | "//nn" cleans to "/n", which cleans to "": cleaning is not idempotent |
| WebScanner.CleanMayEndInSpace | website/barcode_scanner.py:29 | "a /n" cleans to "a ", which still ends in whitespace |
| WebScanner.CleanAllAt | website/barcode_scanner.py:28-29 | cleaning changes each reading's text and nothing else |
| WebScanner.ProcessFrame | website/barcode_scanner.py:15-46 | detected iff the frame has a reading; the kept readings are the first occurrences of the cleaned texts in order; a box is drawn iff the polygon has 4 points; no table or map is touched |
| WebScanner.WebFold | website/barcode_scanner.py:73-103 | the run over the readings keeps the table in existence and keeps it well formed |
| WebScanner.WebFoldSeen | website/barcode_scanner.py:73-75 | the run set is every text handled, whether suppressed or not |
| WebScanner.WebFoldUnseen | website/barcode_scanner.py:73-97 | a text the run never meets keeps its timestamp and its row |
| WebScanner.WebFoldAccepted | website/barcode_scanner.py:73-82 | the accepted readings are the run's first sightings whose clock is outside the window of the timestamps at the start of the run |
| WebScanner.WebFoldCounts | website/barcode_scanner.py:100-109 | the accepted texts are distinct and in the run set, so the count is at most the number of texts returned, and one name is written per accepted text |
| WebScanner.WebFoldOnText | website/barcode_scanner.py:73-103 | each text the run meets is reconciled at most once, at its first sighting and only when that sighting is outside the window; a suppressed first sighting means it is never reconciled in the run |
| WebScanner.WebFoldFirstSighting | website/barcode_scanner.py:73-97 | a text's first sighting in the run is either suppressed (not accepted, timestamp and row as before the run) or accepted (timestamped with its clock, row reconciled once against the table as it was before the run) |
| WebScanner.EvenFramesOnly | website/barcode_scanner.py:67-105 | every reading handled comes from an even-numbered frame |
| WebScanner.OddFramesIgnored | website/barcode_scanner.py:67-69 | what the odd-numbered frames hold never matters |
| WebScanner.WebScanner.constructor | website/barcode_scanner.py:8-12 | importing the script initializes the table and starts with an empty timestamp map |
| WebScanner.WebScanner.NoteReadings | website/barcode_scanner.py:73-103 | the inner loop over a frame's kept readings extends the run as the fold says |
| WebScanner.WebScanner.NoteReading | website/barcode_scanner.py:73-103 | one pass of that loop extends the run, the count, the written names and the state by one reading as the fold says |
| WebScanner.WebScanner.ProcessVideo | website/barcode_scanner.py:49-109 | an unopened capture returns nothing and changes nothing; otherwise the returned texts are the run set, and the count, the names and the state are those of the fold over the even frames' readings |
| UploadScanner.RecordsAt | website/app_barcode_scanner_video_processing.py:21-30 | every reading becomes a {data, type} record at its own position, duplicates included |
| UploadScanner.ProcessFrame | website/app_barcode_scanner_video_processing.py:11-36 | the records are all readings in decode order; a box is drawn iff the polygon has 4 points; the flag is true iff the list is non-empty |
| UploadScanner.Sanitize | website/app_barcode_scanner_video_processing.py:67 | the safe data is never longer than the data |
| UploadScanner.SanitizeAppend | website/app_barcode_scanner_video_processing.py:67 | sanitizing a concatenation is concatenating the sanitized parts |
| UploadScanner.SanitizeSafe | website/app_barcode_scanner_video_processing.py:67 | every kept character is alphanumeric, '-' or '_', and a text is unchanged iff all its characters are such |
| UploadScanner.SanitizeIdempotent | website/app_barcode_scanner_video_processing.py:67 | sanitizing twice is sanitizing once |
| UploadScanner.SanitizeSubseq | website/app_barcode_scanner_video_processing.py:67 | the safe data is a subsequence of the data |
| UploadScanner.RecordFileNameFormat | website/app_barcode_scanner_video_processing.py:67-68 | a record's file name is its type, "_", its sanitized data (safe characters only), then ".png" |
| UploadScanner.FileNameCollision | website/app_barcode_scanner_video_processing.py:60-68 | two different keys can map to the same file name ("a!" and "a?" both give QRCODE_a.png) |
| UploadScanner.ProcessVideo | website/app_barcode_scanner_video_processing.py:38-81 | a missing path gives FileNotFound and an unopened file gives CannotOpen, both before any frame is read; otherwise the results are the first record of each type_data key in order, and one write is attempted per result, failed writes included |
| UploadScanner.NoteRecords | website/app_barcode_scanner_video_processing.py:59-77 | the inner loop keeps and saves exactly the records whose key is new to the run |
| UploadScanner.UploadResults | website/app_barcode_scanner_video_processing.py:60-81 | the results have pairwise different keys, one per key seen, each the first record read with that key |
| UploadScanner.ReadKeyReturned | website/app_barcode_scanner_video_processing.py:58-64 | every record read has its key among the results' keys |
| UploadScanner.SavesMatchResults | website/app_barcode_scanner_video_processing.py:66-77 | write i is named `type_safe.png` after result i, holds the frame that record was first read in, and its success is what the writer reported |
| UploadScanner.SameDataTwoTypes | website/app_barcode_scanner_video_processing.py:60-64 | the same text under QRCODE and CODE128 is returned twice |
| FrameSaver.SavedNames | Barcode_Scanner_Video_Processing_database/app_barcode_scanner_video_processing.py:59-68 | at most one name is written per frame |
| FrameSaver.ProcessVideo | Barcode_Scanner_Video_Processing_database/app_barcode_scanner_video_processing.py:46-73 | an unopened capture runs no iteration and returns nothing; otherwise the results are the first record of each data text, and one name is written per detecting frame |
| FrameSaver.NoteData | Barcode_Scanner_Video_Processing_database/app_barcode_scanner_video_processing.py:60-64 | the inner loop appends exactly the records whose text is new |
| FrameSaver.SavedIff | Barcode_Scanner_Video_Processing_database/app_barcode_scanner_video_processing.py:59-70 | frame i's image is written iff frame i has a reading, whether or not its texts are new |
| FrameSaver.SavedNamesDistinct | Barcode_Scanner_Video_Processing_database/app_barcode_scanner_video_processing.py:66-70 | every name written belongs to a detecting frame and none is written twice |
| FrameSaver.FrameSaverResults | Barcode_Scanner_Video_Processing_database/app_barcode_scanner_video_processing.py:59-64 | the results have pairwise different texts, one per text read, each the first record read with that text |
| MergedScanner.MergedLogLength | Barcode_Scanner_Video_Processing/barcode_scanner_video_processing_merged.py:74-78 | one name is saved per listed text, and at most one per frame |
| MergedScanner.LogStep | Barcode_Scanner_Video_Processing/barcode_scanner_video_processing_merged.py:75-80 | a frame is saved and its text appended iff it detected something and its last text is not yet in the list |
| MergedScanner.Latest | Barcode_Scanner_Video_Processing/barcode_scanner_video_processing_merged.py:12-30 | `decoded_text` holds a value iff it held one before or some frame had a reading |
| MergedScanner.Merged.ProcessFrame | Barcode_Scanner_Video_Processing/barcode_scanner_video_processing_merged.py:8-37 | detected iff the frame has a reading; a box is drawn iff the polygon has 4 points; `decoded_text` becomes the last reading's text, and is unchanged without one |
| MergedScanner.Merged.Run | Barcode_Scanner_Video_Processing/barcode_scanner_video_processing_merged.py:40-88 | a choice other than '0', or an unopened camera, processes nothing; otherwise the list, the count and the names follow the save-if-new rule over the frames up to the first 'q', and `decoded_text` is the last reading seen |
| MergedScanner.MergedDistinct | Barcode_Scanner_Video_Processing/barcode_scanner_video_processing_merged.py:75-77 | the list never holds a text twice, and there is one saved frame per listed text |
| MergedScanner.MergedOnlyLast | Barcode_Scanner_Video_Processing/barcode_scanner_video_processing_merged.py:30-80 | each listed text is the last reading of a detecting frame, and the matching saved name is that frame's |
| MergedScanner.MergedCovers | Barcode_Scanner_Video_Processing/barcode_scanner_video_processing_merged.py:75-76 | every detecting frame's last text ends up in the list |
| MergedScanner.NonLastIgnored | Barcode_Scanner_Video_Processing/barcode_scanner_video_processing_merged.py:19-76 | with "A" then "B" in one frame, only "B" is listed and `decoded_text` is "B" |
| Inventory.Initialized | database.py:11-29 | CREATE TABLE IF NOT EXISTS makes the table exist and keeps its rows |
| Inventory.Inserted | database.py:32-44 | a new productID adds exactly that row; a duplicate leaves the table unchanged; other rows are kept |
| Inventory.QuantityChanged | database.py:47-66 | an existing row's quantity becomes old + change with no lower bound, nothing else changes; a missing productID changes nothing |
| Inventory.Deleted | database.py:69-81 | the row with that productID, if any, is removed and no other row changes |
| Inventory.Lookup | database.py:101-109 | the row with that productID, or none |
| Inventory.Emptied | Barcode_Scanner_Video_Processing_database/database_website.py:112-121 | reset_inventory leaves an existing, empty table |
| Inventory.InitializeIdempotent | database.py:15-25 | creating the schema twice is creating it once |
| Inventory.InsertThenDelete | database.py:32-81 | deleting a freshly inserted product restores the rows |
| Inventory.ChangeThenRevert | database.py:47-66 | a change followed by its opposite restores the table |
| Inventory.TestScriptTrace | database_test_functions.py:4-16 | add, search, update by +3 and remove: the search finds quantity 87, the update makes it 90, and the removal restores the rows |
| Inventory.Store.InitializeDatabase | database.py:11-29 | the table is as Initialized says |
| Inventory.Store.AddProduct | database.py:32-44 | reports whether the row was inserted, swallows a duplicate, and leaves the table as Inserted says; without a table it fails and changes nothing |
| Inventory.Store.UpdateQuantity | database.py:47-66 | returns the new quantity, or none for a missing productID, and leaves the table as QuantityChanged says |
| Inventory.Store.RemoveProduct | database.py:69-81 | the row count is 1 iff the product was there, and the table is as Deleted says |
| Inventory.Store.SearchProduct | database.py:101-109 | the row or none, changing nothing |
| Inventory.Store.GetAllProducts | database.py:84-98 | returns every row of the table in place of the printout (the print order is not modelled) and changes nothing |
| Inventory.Store.ResetInventory | InventoryManagementSystem/database_scientific_computing_concepts.py:110-119 | drop and re-create: an existing, empty table |
| Products.Validate | InventoryManagementSystem/product.py:5-38 | succeeds iff all six checks pass; the first failing check decides the error (category, then productID, then name, price, quantity, return period) |
| Products.FieldText | InventoryManagementSystem/product.py:80-85 | a quantity or return period prints as decimal text that reads back as the int, or as "True"/"False" for a bool |
| Products.BaseDetails | InventoryManagementSystem/product.py:78-80 | getProductDetails is the six fields joined by ", ": category, productID, name, price text, quantity, return period |
| Products.Details | InventoryManagementSystem/clothing.py:32-34 | a clothing item's getProductDetails joins size and colour after the six product fields, all separated by ", " |
| Products.BaseText | InventoryManagementSystem/product.py:83-85 | __str__ is the six labelled fields joined by ", " |
| Products.Text | InventoryManagementSystem/clothing.py:36-38 | a clothing item's __str__ joins "Size: .." and "Color: .." after the six labelled fields, all separated by ", " |
| Products.BoolQuantityDetails | InventoryManagementSystem/product.py:29-80 | a bool quantity passes the int check, is stored as the bool, and prints as "True": `Product("c", "1", "n", 1, True, 0)` has the details "c, 1, n, 1.00, True, 0" |
| Products.ValidateKeeps | InventoryManagementSystem/product.py:7-38 | the stored fields are the arguments (a bool quantity or return period stays a bool); an int productID is stored as its decimal string, which parses back |
| Products.ValidateClothing | InventoryManagementSystem/clothing.py:5-21 | the base checks come first, then size, then colour, each a non-empty string |
| Products.StockAfter | InventoryManagementSystem/product.py:64-76 | a negative result raises the stock error (checked first), amount 0 raises the amount error, otherwise the quantity grows by exactly the amount |
| Products.StockInvariant | InventoryManagementSystem/product.py:64-76 | over any series of updateStock calls the quantity stays at or above 0 and equals the start plus the accepted, non-zero amounts |
| Products.ClothingSuffix | InventoryManagementSystem/clothing.py:32-38 | a clothing item's details and string are the product's followed by `, size, color` and `, Size: .., Color: ..`; the product part ends with the return period's text |
| Products.Product.constructor | InventoryManagementSystem/product.py:5-38 | a product object holds validated fields |
| Products.Product.UpdateStock | InventoryManagementSystem/product.py:64-76 | a refused amount raises and leaves the quantity; an accepted one adds exactly the amount to its int value (a bool quantity becomes an int) |
| Products.NewProduct | InventoryManagementSystem/product.py:5-62 | construction fails with Validate's error, or yields a product whose getters return the validated values |
| Products.NewClothing | InventoryManagementSystem/clothing.py:5-30 | as NewProduct, and getSize and getColor return the given size and colour |
| InventorySystem.StrLtTransitive | InventoryManagementSystem/ims.py:58 | Python's string order is transitive |
| InventorySystem.StrLtTotal | InventoryManagementSystem/ims.py:58 | of two different strings, one is less than the other |
| InventorySystem.SortAscending | InventoryManagementSystem/ims.py:58 | the sorted keys are in ascending order and are a permutation of the input |
| InventorySystem.SortStrings | InventoryManagementSystem/ims.py:58 | sorting is a permutation of the keys |
| InventorySystem.NoDupMultiset | InventoryManagementSystem/ims.py:13-58 | a key list has no duplicates iff each key occurs at most once in its multiset |
| InventorySystem.Added | InventoryManagementSystem/ims.py:15-20 | the product is stored under its ID, replacing any entry, and the catalogue invariant is kept |
| InventorySystem.Without | InventoryManagementSystem/ims.py:22-25 | the keys other than the removed one remain, without duplicates |
| InventorySystem.Removed | InventoryManagementSystem/ims.py:22-27 | an absent ID raises ProductNotFound; otherwise exactly that key is deleted |
| InventorySystem.Search | InventoryManagementSystem/ims.py:45-51 | the product for the ID, or none |
| InventorySystem.AddThenSearch | InventoryManagementSystem/ims.py:15-51 | after addProduct(p) a search for p's ID finds p, other IDs find what they found before, and a new ID goes last in order |
| InventorySystem.AddThenRemove | InventoryManagementSystem/ims.py:15-27 | adding a new ID and then removing it gives back the catalogue |
| InventorySystem.RemoveOnlyKey | InventoryManagementSystem/ims.py:22-27 | removing deletes that key only and keeps the others in their order |
| InventorySystem.WithoutSubseq | InventoryManagementSystem/ims.py:25 | removal keeps the remaining keys in their order |
| InventorySystem.SortKeepsMapping | InventoryManagementSystem/ims.py:58 | sorting keeps the same keys and the same ID-to-product mapping, in strictly ascending ID order |
| InventorySystem.Ims.constructor | InventoryManagementSystem/ims.py:11-13 | a new IMS is empty |
| InventorySystem.Ims.AddProduct | InventoryManagementSystem/ims.py:15-20 | a product is stored under its ID, overwriting; a non-product raises NotAProduct and changes nothing |
| InventorySystem.Ims.RemoveProduct | InventoryManagementSystem/ims.py:22-27 | a present ID is deleted; an absent one raises and changes nothing |
| InventorySystem.Ims.IsEmpty | InventoryManagementSystem/ims.py:41-43 | true iff the catalogue has no entries |
| InventorySystem.Ims.SearchProductById | InventoryManagementSystem/ims.py:45-51 | the product for the ID, or none, changing nothing |
| InventorySystem.Ims.SortByProductId | InventoryManagementSystem/ims.py:53-60 | on an empty catalogue the error text and no change; otherwise the success text and the same mapping in ascending ID order |
| Text.SubseqTrans | website/app_barcode_scanner_video_processing.py:67 | a subsequence of a subsequence is a subsequence |
| Text.SubseqConcat | website/app_barcode_scanner_video_processing.py:67 | subsequences of two parts concatenate to a subsequence of the whole |

## Left out

- The barcode decoder (pyzbar) is an input: each frame is the sequence of readings it would return, with their symbol type, text and polygon length.
- Every scanner turns a reading's payload into text with `obj.data.decode('utf-8')`, which no `try` surrounds. A payload that is not valid UTF-8 raises UnicodeDecodeError and ends the run mid-video, keeping the table changes of the frames before it. A reading's text is already a string here, so that crash path is not modelled.
- Image work is not modelled: grayscale conversion, blur, the drawing calls, `imshow` and the window. What remains is the decision "the polygon has 4 points, so a box is drawn", as a boolean per reading.
- Capture and file I/O are not modelled. `VideoCapture`/`isOpened` is a boolean, `read()` failing is the end of the frame sequence, `os.path.exists` on the upload path is a boolean, and `imwrite` is a returned file name. In the upload scanner, write success is a function parameter.
- The output folders and `os.makedirs` are not modelled; only the base file names are.
- Wall-clock time (`time.time()`, a float) is an integer carried by each reading. The window comparison stays strict `<` against 5.
- The prompts for a new product's fields (`input()` and the `float()`/`int()` parsing) are a resolver function from text to fields. A `ValueError` from malformed input is not modelled.
- The keys read by `waitKey` come with each frame as a tick. A key press is seen only after the frame is processed, as in the scripts.
- SQLite itself is not modelled: connections, SQL text, commits, column types, and the non-atomic read-then-write of update_quantity under concurrency. The table is a map from productID to its row, with the AUTOINCREMENT id counter.
- A statement on a database with no table is the `NoSuchTable` error. The scanner scripts run initialize_database first, so they never meet it.
- The three database files have the same CRUD functions. `Inventory.Store` models them once, and reset_inventory (present in two of them) once.
- Flask routes, upload handling and the `app.py` files are web plumbing and are not modelled.
- Printed and logged output is not modelled, including the error texts printed before returning an empty list. The one exception is get_all_products: it prints the rows in SELECT order (or "No products found in inventory.") and returns None. `Inventory.Store.GetAllProducts` instead returns the rows as its result, as an unordered map, so the printout's order is not modelled.
- The merged script's final print of `decoded_text` raises NameError when nothing was ever read. It is output only, and is not modelled.
- integrated_code_scanner_app.py and website/barcode_scanner.py return `list(set)`, whose order Python does not specify. Their `ProcessVideo` returns the set.
- Products.Text, Products.Details: the `price:.2f` rendering is a parameter (`priceText`), because floating-point formatting is not modelled.
- Products.Validate: a price is an integer, a boolean or a real. NaN and infinities are not modelled.
- Products.UpdateStock: the amount is an integer. Python would also accept a float or a bool there.
- UploadScanner.Sanitize: `isalnum` is ASCII letters and digits. Python's Unicode alphanumerics beyond ASCII are not modelled.
- IMS.displayAllProducts only prints and is not modelled.
- IMS.loadDataFromFile and IMS.saveDataToFile have empty bodies and are not modelled.
- ims.py imports `electronics`, which is not part of this model. The product model covers plain products and clothing.
- InventoryManagementSystem/main.py (an interactive menu), the root barcode_scanner.py (a webcam viewer) and Barcode_Scanner_Video_Processing_database/video_processing.py (a frame dump) are not modelled.
- An IMS entry's "is a Product" test is modelled as `Option<Product>`: `None` stands for any other value.
- The catalogue's dict order is kept as a key sequence next to the map, so that add, remove and sort can state what they do to the order.
