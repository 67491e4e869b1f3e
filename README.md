# research-reader back end, modelled in Dafny

research-reader is a desktop PDF reader. It keeps a document and its
annotations together in one `.rr` file: a ZIP archive that holds
`manifest.json`, `document.pdf` and an SQLite database, `data.sqlite`.
The Rust back end (`src-tauri/src`) does the following:

- It unpacks an `.rr` archive into a private working directory, or imports a bare PDF into a new archive.
- It serves annotation CRUD and document metadata from the database.
- It packs the working directory back into the archive on save and close.
- It holds at most one open document at a time.

This project models that back end and proves properties of the model. There is one Dafny module per source file:

| file | module | models |
|---|---|---|
| `wrappers.dfy` | `Wrappers` | `Option`, `Result`, `Outcome` |
| `models.dfy` | `Models` | `models.rs`: annotation kinds, records, inputs, the manifest |
| `numbers.dfy` | `Numbers` | `str::parse::<u32>` and decimal text |
| `paths.dfy` | `Paths` | the part of `std::path` the back end uses: `join`, `file_name`, `file_stem`, `extension`, `with_extension` |
| `database.dfy` | `Database` | `database.rs`: class `AnnotationStore` holds the two tables as maps, with one method per query |
| `rr_file.dfy` | `RrFile` | `rr_file.rs`: class `FileSystem` (a map from path to content); unpacking, packing, import, cleanup |
| `commands.dfy` | `Commands` | `commands.rs`: class `App` with the session slot and one method per command |

How the model represents the things the code cannot show or computes outside itself:

- **File contents.** File contents are modelled by what they decode to:
  - raw bytes;
  - text;
  - a ZIP archive as its sequence of entries (name, compression method, content);
  - an SQLite file as the tables it holds.
- **Failing writes.** The file system has a fixed set `denied` of paths where creating a file fails with `Permission denied (os error 13)`.
- **Row order.** The order in which SQLite returns rows is a parameter `scan` to the listing.
  - `IsOrderedScan` constrains it: every matching row exactly once, sorted by the `ORDER BY` key, with ties in any order.
  - `Database.OrderedScanExists` proves that such a scan always exists.
- **Inputs from outside the code.** These are parameters:
  - the uuid of a new annotation;
  - the clock reading `now`;
  - the temporary working directory;
  - `serde_json`'s encoding and decoding of `PositionData`.

## Model

| member | source | states |
|---|---|---|
| Models.AsStr | src-tauri/src/models.rs:26-32 | every kind is stored as one of the three names the column's CHECK constraint allows |
| Models.FromStr | src-tauri/src/models.rs:34-41 | decoding succeeds exactly for "highlight", "note" and "bookmark"; any other text fails with "Unknown annotation type: " and the text |
| Models.FromStrAsStr | src-tauri/src/models.rs:26-41 | decoding the stored text of a kind gives that kind back |
| Models.AsStrFromStr | src-tauri/src/models.rs:28-38 | any text that decodes is exactly the stored text of the kind it decodes to |
| Models.AsStrInjective | src-tauri/src/models.rs:26-32 | two kinds have the same stored text only if they are the same kind |
| Models.DefaultManifest | src-tauri/src/models.rs:100-107 | a new manifest has version "1.0.0", format "research-reader" and the current time as creation time |
| Models.ManifestJson | src-tauri/src/rr_file.rs:89-93 | the manifest is written as one JSON object |
| Models.ManifestJsonInjective | src-tauri/src/rr_file.rs:89-93 | two manifests whose fields need no escaping are written as the same text only if they are equal, so the text determines version, format and creation time |
| Numbers.ParseU32 | src-tauri/src/commands.rs:43-44 | a parsed page number comes from text that is an optional '+' followed by decimal digits only, and is the value of those digits |
| Numbers.ParseDecimal | src-tauri/src/commands.rs:43-44 | the decimal text of every u32, with or without a leading '+', parses back to that number |
| Numbers.ParseOverflow | src-tauri/src/commands.rs:43-44 | the decimal text of a number above u32::MAX, with or without '+', does not parse: it fails rather than wrapping |
| Numbers.ParsePadded | src-tauri/src/commands.rs:43-44 | a u32 written with leading zeros parses to the same number |
| Numbers.ParseRejects | src-tauri/src/commands.rs:43-44 | the empty text, a lone '+', negative numbers and text with a leading space do not parse |
| Paths.JoinRelativeUnder | src-tauri/src/rr_file.rs:43 | a relative name with no `..` segment, joined to the working directory, lies inside it |
| Paths.Join | src-tauri/src/rr_file.rs:43 | joining an absolute name gives that name, replacing the base; a relative name is put after the base and one separator |
| Paths.FileStem | src-tauri/src/rr_file.rs:102 | a path has a stem exactly when it has a file name; the stem is a non-empty prefix of the file name without separators |
| Paths.ExtensionShape | src-tauri/src/commands.rs:19-22 | an extension is dot-free, and the file name is the stem, a dot and the extension |
| Paths.WithExtension | src-tauri/src/rr_file.rs:77 | a path without a file name is returned unchanged; otherwise the directory part is kept |
| Paths.JoinInjective | src-tauri/src/rr_file.rs:126-156 | different relative member names joined to one directory give different paths |
| Paths.WithExtensionKeepsStem | src-tauri/src/rr_file.rs:77 | replacing the extension keeps the file stem and yields exactly the new extension |
| Paths.ToLower | src-tauri/src/commands.rs:23 | lower-casing keeps the length, maps 'A'-'Z' to 'a'-'z' and keeps every other character |
| Paths.PlainNameEnclosed | src-tauri/src/rr_file.rs:43 | a single plain name, such as each archive member name, is enclosed |
| Paths.ParentNotEnclosed | src-tauri/src/rr_file.rs:43 | a name that starts with a `..` segment is not enclosed |
| Database.ToAnnotation | src-tauri/src/database.rs:82-96 | a row reads as a record exactly when its type decodes and its page fits a u32; an unknown type fails with rusqlite's message and an out-of-range page with its range error; id, kind, page, color, content and timestamps are carried over, and position data is the parse of the stored text, or None |
| Database.ListingPointwise | src-tauri/src/database.rs:82-100 | a listing succeeds exactly when every scanned row reads, and then holds each row's record in scan order |
| Database.ListingOfScan | src-tauri/src/database.rs:60-70 | a successful listing holds exactly the annotations on the requested page (all annotations without a filter), each once, sorted by created_at within a page and by page first across pages |
| Database.ConstrainedListingSucceeds | src-tauri/src/database.rs:13-22 | when every row satisfies the schema's type constraint and has a page within u32, listing never fails |
| Database.EmptyPage | src-tauri/src/database.rs:60-64 | a page that holds no annotation lists as the empty sequence |
| Database.OrderedScanExists | src-tauri/src/database.rs:60-70 | for every table and filter there is a scan in the query's order |
| Database.Patched | src-tauri/src/database.rs:153-159 | an update never changes a row's type, page or creation time, and stamps updated_at with the current time |
| Database.PatchedIdempotent | src-tauri/src/database.rs:153-159 | applying the same update twice gives the same row as applying it once |
| Database.NewRowReadsBack | src-tauri/src/database.rs:115-139 | the row create inserts reads back as exactly the record create returns |
| Database.PatchedReadsBack | src-tauri/src/database.rs:153-169 | read back, an updated row has each supplied field replaced, each omitted field kept and updated_at set to now |
| Database.AnnotationStore.constructor | src-tauri/src/database.rs:5-31 | a connection opened on a database file holds that file's tables |
| Database.AnnotationStore.GetMetadata | src-tauri/src/database.rs:34-42 | a key never set gives None rather than an error; a set key gives its stored value |
| Database.AnnotationStore.SetMetadata | src-tauri/src/database.rs:45-51 | after setting k to v, k reads v, any earlier value is replaced and no other key or annotation changes |
| Database.AnnotationStore.GetAnnotations | src-tauri/src/database.rs:54-101 | the row loop returns the listing of the ordered scan: the decoded rows in order, or the first row's error |
| Database.AnnotationStore.CreateAnnotation | src-tauri/src/database.rs:104-140 | with an unused id, exactly one row is added, built from the input with both timestamps now, and the returned record holds the same fields; a used id fails with the UNIQUE violation and changes nothing; metadata and the schema constraints are kept |
| Database.AnnotationStore.UpdateAnnotation | src-tauri/src/database.rs:143-170 | returns true exactly when the id existed; that row is patched, and every other row and all metadata are unchanged |
| Database.AnnotationStore.DeleteAnnotation | src-tauri/src/database.rs:173-176 | returns true exactly when the id existed; afterwards no row has that id, and every other row and all metadata are unchanged |
| RrFile.PdfPath | src-tauri/src/rr_file.rs:23-25 | the document path lies inside the working directory and is named document.pdf |
| RrFile.UnpackAsWritten | src-tauri/src/rr_file.rs:39-57 | the extraction loop as written: any error it returns is File::create's; it never removes a file; on success every file entry's path, the working directory joined with its name, is present |
| RrFile.AbsoluteEntryEscapes | src-tauri/src/rr_file.rs:43 | as written, a file entry with an absolute name such as /home/user/.bashrc overwrites that existing file outside the fresh working directory, and nothing else changes |
| RrFile.UnpackFailsIffDenied | src-tauri/src/rr_file.rs:39-57 | the loop as written fails exactly when some file entry's joined path cannot be created |
| RrFile.UnpackOnlyEntries | src-tauri/src/rr_file.rs:39-57 | every path after the loop either keeps its old content or is the joined path of some file entry |
| RrFile.UnpackLastWriteWins | src-tauri/src/rr_file.rs:43-55 | after a successful loop, a file entry's joined path holds that entry's data unless a later file entry goes to the same path |
| RrFile.UnpackStaysInside | src-tauri/src/rr_file.rs:39-57 | the corrected extraction, which skips names that are not enclosed, creates or changes no file outside the working directory |
| RrFile.OpenRrConfined | src-tauri/src/rr_file.rs:29-70 | open with the corrected extraction leaves every file outside the working directory as it was, whatever its entry names |
| RrFile.UnpackAgrees | src-tauri/src/rr_file.rs:39-57 | on an archive whose entry names are all enclosed, the corrected extraction does exactly what the loop as written does |
| RrFile.CorrectionKeepsSavedArchives | src-tauri/src/rr_file.rs:126-171 | the archives save writes are extracted the same way by the corrected loop and the loop as written |
| RrFile.OpenDatabase | src-tauri/src/rr_file.rs:59-63 | a database file is opened as its tables, and an empty file as an empty database; a missing file becomes a new empty database unless it cannot be created; anything else fails |
| RrFile.OpenRr | src-tauri/src/rr_file.rs:29-70 | open as written: errors for a missing or non-ZIP archive; every file entry extracted in order to the working directory joined with its name, absolute names included; then the database opened from the extracted file |
| RrFile.SaveRr | src-tauri/src/rr_file.rs:120-177 | save fails only when the archive cannot be created, leaving files unchanged; otherwise it writes the manifest, document and database entries, each only if present, in that order; the document is stored and the database is checkpointed first |
| RrFile.ArchivePathNextToPdf | src-tauri/src/rr_file.rs:75-78 | without an output path, the archive keeps the PDF's stem and has extension rr |
| RrFile.ImportedImage | src-tauri/src/rr_file.rs:101-105 | an imported document has no annotations, and its only metadata is the title, equal to the PDF's file stem when it has one |
| RrFile.PackStaged | src-tauri/src/rr_file.rs:84-99 | packing a freshly imported working directory gives the default manifest, the PDF unchanged and the database, in that order |
| RrFile.Stage | src-tauri/src/rr_file.rs:84-99 | import fails at the first step that fails: a missing PDF, the copy, the manifest write, the database creation; otherwise the working directory holds the three files |
| RrFile.ImportPdf | src-tauri/src/rr_file.rs:74-117 | import succeeds exactly when no step fails; the session's database holds only the title; the archive already exists at the derived path and holds the PDF content verbatim |
| RrFile.UnpackPacked | src-tauri/src/rr_file.rs:126-171 | extracting what save packed puts each present member of the old working directory at the same name in the new one, and nothing else |
| RrFile.ReopenRestores | src-tauri/src/rr_file.rs:29-63 | opening a saved archive into a fresh directory gives back the saved tables, and the document and manifest contents unchanged |
| RrFile.SaveThenReopen | src-tauri/src/rr_file.rs:120-177 | opening right after a save gives back the tables the session held |
| RrFile.ImportThenReopen | src-tauri/src/rr_file.rs:74-117 | opening an imported archive gives no annotations, the title, and the original PDF content as the document |
| RrFile.RemoveDir | src-tauri/src/rr_file.rs:181 | removal deletes the directory and everything under it, and keeps every other file unchanged |
| RrFile.RemoveDirIdempotent | src-tauri/src/rr_file.rs:180-182 | cleaning up twice is the same as cleaning up once |
| RrFile.CleanupSession | src-tauri/src/rr_file.rs:180-182 | cleanup removes the working directory and never fails |
| Commands.MetadataNumber | src-tauri/src/commands.rs:43-44 | a missing key gives None; a number is reported only when the stored text parses to it |
| Commands.DescribeNumbers | src-tauri/src/commands.rs:32-45 | page_count and last_page stored as decimal text are reported as those numbers; a missing key or a negative value is reported as None, not an error |
| Commands.Describe | src-tauri/src/commands.rs:31-45 | the report carries both paths unchanged, the title exactly when it is set, and page_count and last_page as parsed u32 values |
| Commands.DispatchExtension | src-tauri/src/commands.rs:19-23 | a path without an extension dispatches on the empty text |
| Commands.DispatchOfName | src-tauri/src/commands.rs:19-23 | any path, in any directory and with any number of dots in its stem, dispatches on the lower-cased text after the last dot of its file name |
| Commands.DispatchIgnoresCase | src-tauri/src/commands.rs:19-29 | paths whose extensions differ only in letter case are dispatched the same way |
| Commands.NoExtensionRefused | src-tauri/src/commands.rs:19-28 | a file name with no dot after its first character (README, .bashrc) dispatches on the empty text and is refused, whatever dots the directory holds |
| Commands.Load | src-tauri/src/commands.rs:19-29 | rr opens the archive as written, pdf imports it next to the PDF, and any other extension fails with "Unsupported file type: ." and the extension, changing nothing |
| Commands.App.constructor | src-tauri/src/commands.rs:11-13 | the application starts with no open document |
| Commands.App.OpenFile | src-tauri/src/commands.rs:17-55 | dispatches on the lower-cased extension: rr opens, pdf imports, and anything else fails with "Unsupported file type: ." and the extension, changing nothing; a failure leaves the slot as it was; a success cleans up the previous session and holds exactly the new one, described by its paths and metadata |
| Commands.App.Install | src-tauri/src/commands.rs:31-52 | the slot then holds the new session and the previous session's working directory is gone |
| Commands.App.SaveFile | src-tauri/src/commands.rs:59-63 | never changes the slot; with no open document it fails with "No file is open" and writes nothing; otherwise it saves as save does |
| Commands.App.CloseFile | src-tauri/src/commands.rs:67-75 | the slot is empty afterwards in every case; with no open document it succeeds and changes nothing; the working directory is removed only after a successful save |
| Commands.App.GetAnnotations | src-tauri/src/commands.rs:79-87 | with no open document it fails with "No file is open"; otherwise it returns the listing or the listing's error with its prefix |
| Commands.App.CreateAnnotation | src-tauri/src/commands.rs:91-99 | with no open document it fails with "No file is open"; otherwise it creates as the database does, with errors prefixed |
| Commands.App.UpdateAnnotation | src-tauri/src/commands.rs:103-111 | with no open document it fails with "No file is open"; otherwise it returns whether the row existed and patches it |
| Commands.App.DeleteAnnotation | src-tauri/src/commands.rs:115-120 | with no open document it fails with "No file is open"; otherwise it returns whether the row existed and removes it |
| Commands.App.SetDocumentMetadata | src-tauri/src/commands.rs:124-133 | with no open document it fails with "No file is open"; otherwise it sets the key and changes nothing else |
| Commands.App.ReadPdfBytes | src-tauri/src/commands.rs:138-145 | with no open document it fails with "No file is open"; otherwise it returns the working copy of the document, or a read error naming its path |
| Commands.CloseThenReopen | src-tauri/src/commands.rs:67-75 | after a successful close, opening the archive again gives back the annotations and metadata the document held |

## Findings

| source | as written | input that shows it | evidently intended | confidence | as-written member | corrected member |
|---|---|---|---|---|---|---|
| src-tauri/src/rr_file.rs:43 | each entry is written to `work_dir.join(entry.name())`, and joining an absolute name replaces the working directory | an archive with a file entry named `/home/user/.bashrc` is written over that file on open | extract only into the private working directory, and skip entries whose name is absolute or climbs out with `..`, as the zip crate's `enclosed_name` does; the corrected model is stricter and skips every name with a `..` segment | medium, not executed | RrFile.AbsoluteEntryEscapes | RrFile.OpenRrConfined |

`RrFile.UnpackAsWritten`, `RrFile.OpenRrSpec` and `RrFile.OpenRr` model the extraction as written, and `Commands.App.OpenFile` uses them. `RrFile.Unpack` and `RrFile.OpenRrCorrected` are the corrected extraction. `RrFile.UnpackAgrees` shows that the two agree on every archive whose names are all enclosed, and so on every archive `save_rr` writes.

## Left out

- The `Mutex` around the session slot and lock poisoning are not modelled: calls are sequential.
- ZIP encoding, Deflate compression and the SQLite file format are not modelled.
  - Content is modelled by what it decodes to.
  - The compression method is only a tag on each entry.
- The reads and writes in `save_rr` and `import_pdf` can fail in ways other than creating a file at a denied path. These failures are not modelled:
  - start_file, write_all, read, finish;
  - the WAL checkpoint;
  - `init_db` on a fresh file;
  - `set_metadata` of the title.
- Failures of `tempfile::tempdir()` are not modelled. Failures of `create_dir_all` are not modelled either, because directories are implicit in paths.
- Archives that do not decode are all reported with one message: `zip::ZipArchive::new` on non-ZIP content fails with "Failed to read .rr archive: invalid Zip archive". Read errors of single entries (line 42) are not modelled.
- `serde_json` encoding and decoding of `PositionData` are function parameters.
  - The lossy `.ok()` at src-tauri/src/database.rs:93 is the parser returning `None`.
  - `unwrap_or_default()` on encoding cannot fail in the model.
- The `f64` fields of `Rect` and `PositionData` are `real`. Nothing computes on them.
- uuid generation, the chrono clock and the working directory's name are parameters.
- RrFile.SaveRr: reads the members as they were before `File::create` truncates the archive. The two views differ only if the archive path is itself one of the three member files inside the working directory.
- Paths.ToLower: lower-cases ASCII only, where Rust's `to_lowercase` is Unicode-wide. Only the results "rr" and "pdf" matter for dispatch.
- Paths are compared as text: `.` and `..` segments are never resolved. An entry named `../etc/passwd` is stored at the key `<work_dir>/../etc/passwd`, which counts as inside the working directory. So the as-written model shows only the escape through an absolute name, not the one through `..`. An entry named `./document.pdf` also lands at a different key from `document.pdf`, where the real file system would see one file.
- Error texts from libraries are approximations. rusqlite's error for a database file it cannot open may also name the path. The zip crate's error for a non-ZIP file carries a detail after "invalid Zip archive".
- Models.ManifestJson: field values are not escaped. The values written are two constants and an RFC 3339 timestamp, which contain no quote or backslash.
- `to_string_lossy` and `to_str` conversions are the identity: paths are strings.
- The IPC `Response` wrapper in `read_pdf_bytes` is not modelled: it returns the content itself.
- `DocumentMetadata` (src-tauri/src/models.rs:85-90) is declared but never used by the back end. `src-tauri/src/lib.rs` only registers commands and plugins.
- Behaviours of the code that the model keeps as they are:
  - `save_rr` truncates the archive in place; it does not write a temporary file and rename it.
  - `import_pdf` overwrites an existing archive at the derived path.
  - `create_annotation` accepts page 0.
  - `open_rr` never reads or checks the manifest's version.
  - A failed open leaves the partly filled working directory behind. For a `.rr` file and for an unsupported extension, `OpenFile`'s error case states the files as the failed step leaves them.
  - A failed close keeps the session's working directory on disk but empties the slot.
- Commands.App.OpenFile: after a failed `.pdf` open, its contract states only the error, not which partial files remain in the working directory (the same gap as RrFile.ImportPdf below).
- Database.AnnotationStore.GetMetadata: every stored value is text, so the column-type error that `row.get(0)?` can raise (src-tauri/src/database.rs:38) is not modelled and the read never fails.
- Database.ToAnnotation: every column is stored in its declared type, so only the type decode and the u32 range check can fail. The column-type errors of the other `row.get(n)?` reads (src-tauri/src/database.rs:83-95), such as a TEXT `page_number` or a BLOB `color`, are not modelled.
- Commands.App.OpenFile: because metadata reads never fail, the three "Failed to read title/page_count/last_page" errors (src-tauri/src/commands.rs:32-37) are not modelled. A hand-made archive whose `title` is a BLOB opens in the model, where the code fails and leaves the slot as it was.
- RrFile.CleanupSession: `remove_dir_all` can stop partway at an entry it cannot remove, and `let _ =` hides that (src-tauri/src/rr_file.rs:180-182). The model always removes the whole directory.
- RrFile.Checkpointed: the model's `data.sqlite` keeps the tables from open time until a save writes them. SQLite in its default rollback-journal mode writes each committed change to the file at once, and `init_db` enables no WAL. The two differ only after a failed close, where the working directory left on disk holds the current data.
- RrFile.ImportPdf: on failure, its contract states only the error, not which partial files remain in the working directory.
