/** The `.rr` container: a ZIP archive holding `manifest.json`,
    `document.pdf` and `data.sqlite`, unpacked into a private working
    directory while a document is open (src-tauri/src/rr_file.rs).

    The file system is a map from path to content. Content is modelled by
    what it decodes to: raw bytes, text, a ZIP archive as its list of
    entries (compression is only a tag), or a SQLite database as its tables.
    The byte-level ZIP and SQLite formats are not modelled. */
module RrFile {
  import opened Wrappers
  import opened Models
  import opened Paths
  import opened Database

  newtype byte = x: int | 0 <= x < 256

  /** ZIP compression methods the back end uses. */
  datatype Method = Stored | Deflated

  datatype Content =
    | Bytes(data: seq<byte>)
    | Text(text: string)
    | Zip(entries: seq<Entry>)
    | Sqlite(image: Image)

  /** One member of a ZIP archive. */
  datatype Entry = Entry(name: string, compression: Method, data: Content)

  const ManifestName: string := "manifest.json"
  const PdfName: string := "document.pdf"
  const DbName: string := "data.sqlite"

  /** OS error texts as `std::io::Error` prints them. */
  const NotFound: string := "No such file or directory (os error 2)"
  const PermissionDenied: string := "Permission denied (os error 13)"

  /** A zero-length file, which SQLite accepts as an empty database. */
  predicate IsEmptyFile(c: Content) {
    c == Bytes([]) || c == Text("")
  }

  /** The file system the back end works on. `denied` holds the paths at
      which creating or truncating a file fails (no permission, missing
      parent); every other write succeeds. */
  class FileSystem {
    var files: map<string, Content>
    const denied: set<string>

    constructor (files: map<string, Content>, denied: set<string>)
      ensures this.files == files && this.denied == denied
    {
      this.files := files;
      this.denied := denied;
    }
  }

  /** A directory as `tempfile::tempdir()` creates it: a path nothing in the
      file system lies under yet. */
  ghost predicate FreshDir(files: map<string, Content>, dir: string) {
    IsDirPath(dir) && forall p :: p in files ==> p != dir && !Under(p, dir)
  }

  /** `RrSession`: the archive path, the working directory and the open
      database connection. */
  datatype Session = Session(rrPath: string, workDir: string, db: AnnotationStore)

  /** `RrSession::pdf_path`: the extracted document inside the working directory. */
  function PdfPath(workDir: string): (p: string)
    requires IsDirPath(workDir)
    ensures Under(p, workDir) && p[|workDir| + 1..] == PdfName
  {
    MemberUnder(workDir, PdfName);
    Join(workDir, PdfName)
  }

  // ---------------------------------------------------------------------
  // Unpacking

  /** `entry.is_dir()`: a ZIP entry whose name ends with `/` or `\`. */
  predicate IsDirEntry(name: string) {
    |name| > 0 && (name[|name| - 1] == '/' || name[|name| - 1] == '\\')
  }

  /** The file system after extracting some entries, and the error that
      stopped the extraction, if one did. */
  datatype Extraction = Extraction(files: map<string, Content>, error: Option<string>)

  /** The extraction loop of `open_rr` as written (lines 39-57): every file
      entry is written to `work_dir.join(name)`; directory entries create no
      file. An absolute entry name replaces the working directory. Only
      creating a file can fail; no file is ever removed, and when the loop
      finishes every file entry has been written. */
  function UnpackAsWritten(files: map<string, Content>, denied: set<string>, workDir: string, entries: seq<Entry>): (x: Extraction)
    ensures x.error.Some? ==> x.error.value == "Failed to create file: " + PermissionDenied
    ensures forall p :: p in files ==> p in x.files
    ensures x.error.None? ==>
      forall i :: 0 <= i < |entries| && !IsDirEntry(entries[i].name) ==> Join(workDir, entries[i].name) in x.files
    decreases |entries|
  {
    if entries == [] then Extraction(files, None)
    else
      assert forall i :: 1 <= i < |entries| ==> entries[1..][i - 1] == entries[i];
      if IsDirEntry(entries[0].name) then UnpackAsWritten(files, denied, workDir, entries[1..])
      else
        var out := Join(workDir, entries[0].name);
        if out in denied then Extraction(files, Some("Failed to create file: " + PermissionDenied))
        else UnpackAsWritten(files[out := entries[0].data], denied, workDir, entries[1..])
  }

  /** An archive entry with an absolute name makes the loop as written
      overwrite that file, wherever the fresh working directory is: for an
      entry named `/home/user/.bashrc`, the user's own `.bashrc`. */
  lemma AbsoluteEntryEscapes(files: map<string, Content>, denied: set<string>, workDir: string, name: string, m: Method, c: Content)
    requires FreshDir(files, workDir) && IsAbsolute(name) && !IsDirEntry(name)
    requires name in files && name !in denied
    ensures var x := UnpackAsWritten(files, denied, workDir, [Entry(name, m, c)]);
      && x == Extraction(files[name := c], None)
      && !Under(name, workDir)
  {
    assert [Entry(name, m, c)][1..] == [];
  }

  /** The loop as written fails exactly when some file entry's joined path
      cannot be created. */
  lemma {:induction false} UnpackFailsIffDenied(files: map<string, Content>, denied: set<string>, workDir: string, entries: seq<Entry>)
    ensures UnpackAsWritten(files, denied, workDir, entries).error.Some? <==>
      exists i :: 0 <= i < |entries| && !IsDirEntry(entries[i].name) && Join(workDir, entries[i].name) in denied
    decreases |entries|
  {
    if entries != [] {
      var rest := entries[1..];
      assert forall k :: 0 <= k < |rest| ==> rest[k] == entries[k + 1];
      var out := Join(workDir, entries[0].name);
      if IsDirEntry(entries[0].name) {
        UnpackFailsIffDenied(files, denied, workDir, rest);
      } else if out !in denied {
        UnpackFailsIffDenied(files[out := entries[0].data], denied, workDir, rest);
      }
    }
  }

  /** The loop as written changes a path only by writing a file entry to it:
      every path it leaves either keeps its old content or is the joined path
      of some file entry. */
  lemma {:induction false} UnpackOnlyEntries(files: map<string, Content>, denied: set<string>, workDir: string, entries: seq<Entry>, p: string)
    requires p in UnpackAsWritten(files, denied, workDir, entries).files
    ensures var x := UnpackAsWritten(files, denied, workDir, entries);
      || (p in files && x.files[p] == files[p])
      || exists i :: 0 <= i < |entries| && !IsDirEntry(entries[i].name) && Join(workDir, entries[i].name) == p
    decreases |entries|
  {
    if entries != [] {
      var rest := entries[1..];
      assert forall k :: 0 <= k < |rest| ==> rest[k] == entries[k + 1];
      var out := Join(workDir, entries[0].name);
      if IsDirEntry(entries[0].name) {
        UnpackOnlyEntries(files, denied, workDir, rest, p);
      } else if out !in denied && p != out {
        UnpackOnlyEntries(files[out := entries[0].data], denied, workDir, rest, p);
      }
    }
  }

  /** When the loop as written finishes, a file entry's joined path holds
      that entry's data, unless a later file entry is written to the same
      path. */
  lemma {:induction false} UnpackLastWriteWins(files: map<string, Content>, denied: set<string>, workDir: string, entries: seq<Entry>, i: nat)
    requires i < |entries| && !IsDirEntry(entries[i].name)
    requires forall j :: i < j < |entries| && !IsDirEntry(entries[j].name) ==> Join(workDir, entries[j].name) != Join(workDir, entries[i].name)
    ensures var x := UnpackAsWritten(files, denied, workDir, entries);
      x.error.None? ==> x.files[Join(workDir, entries[i].name)] == entries[i].data
    decreases |entries|
  {
    var rest := entries[1..];
    assert forall k :: 0 <= k < |rest| ==> rest[k] == entries[k + 1];
    var out := Join(workDir, entries[0].name);
    if IsDirEntry(entries[0].name) {
      UnpackLastWriteWins(files, denied, workDir, rest, i - 1);
    } else if out !in denied {
      var next := files[out := entries[0].data];
      if i == 0 {
        UnpackOnlyEntries(next, denied, workDir, rest, out);
      } else {
        UnpackLastWriteWins(next, denied, workDir, rest, i - 1);
      }
    }
  }

  /** The corrected extraction loop, with the evident intent of extracting
      into the working directory: entries whose name is not enclosed
      (absolute, or with a `..` segment) are skipped, as `enclosed_name` is
      meant to be used. `open_rr` as written does not do this. */
  function Unpack(files: map<string, Content>, denied: set<string>, workDir: string, entries: seq<Entry>): Extraction
    decreases |entries|
  {
    if entries == [] then Extraction(files, None)
    else if IsDirEntry(entries[0].name) || !Enclosed(entries[0].name) then Unpack(files, denied, workDir, entries[1..])
    else
      var out := Join(workDir, entries[0].name);
      if out in denied then Extraction(files, Some("Failed to create file: " + PermissionDenied))
      else Unpack(files[out := entries[0].data], denied, workDir, entries[1..])
  }

  /** On archives whose entry names are all enclosed, the corrected loop does
      exactly what the loop as written does. */
  lemma {:induction false} UnpackAgrees(files: map<string, Content>, denied: set<string>, workDir: string, entries: seq<Entry>)
    requires forall i :: 0 <= i < |entries| ==> Enclosed(entries[i].name)
    ensures Unpack(files, denied, workDir, entries) == UnpackAsWritten(files, denied, workDir, entries)
    decreases |entries|
  {
    if entries != [] {
      assert forall i :: 0 <= i < |entries[1..]| ==> entries[1..][i] == entries[i + 1];
      var out := Join(workDir, entries[0].name);
      if IsDirEntry(entries[0].name) {
        UnpackAgrees(files, denied, workDir, entries[1..]);
      } else if out !in denied {
        UnpackAgrees(files[out := entries[0].data], denied, workDir, entries[1..]);
      }
    }
  }

  /** The corrected extraction creates or replaces files inside the working
      directory only. */
  lemma {:induction false} UnpackStaysInside(files: map<string, Content>, denied: set<string>, workDir: string, entries: seq<Entry>)
    requires IsDirPath(workDir)
    ensures var x := Unpack(files, denied, workDir, entries);
      forall p :: !Under(p, workDir) ==> (p in x.files <==> p in files) && (p in files ==> x.files[p] == files[p])
    decreases |entries|
  {
    if entries != [] {
      var name := entries[0].name;
      if IsDirEntry(name) || !Enclosed(name) {
        UnpackStaysInside(files, denied, workDir, entries[1..]);
      } else {
        var out := Join(workDir, name);
        JoinRelativeUnder(workDir, name);
        if out !in denied {
          UnpackStaysInside(files[out := entries[0].data], denied, workDir, entries[1..]);
        }
      }
    }
  }

  /** SQLite's message for a database file it cannot create, after the
      caller's context. */
  function CannotOpen(context: string): string {
    context + ": unable to open database file"
  }

  /** Opening a connection on `dbPath` and running `init_db`: a missing file
      becomes a new empty database (unless it cannot be created), an empty
      file is an empty database, anything else that is not a database fails. */
  function OpenDatabase(files: map<string, Content>, denied: set<string>, dbPath: string, openFailure: string): Result<Image> {
    if dbPath !in files then
      if dbPath in denied then Err(CannotOpen(openFailure)) else Ok(EmptyImage)
    else match files[dbPath]
      case Sqlite(img) => Ok(img)
      case c => if IsEmptyFile(c) then Ok(EmptyImage) else Err("Failed to init database: file is not a database")
  }

  /** The file system after `open_rr`, and the database it opened or its error. */
  datatype Opened = Opened(files: map<string, Content>, image: Result<Image>)

  /** The end of `open_rr` once extraction has finished: stop at its error,
      or open the database found in the working directory. */
  function OpenExtracted(x: Extraction, denied: set<string>, workDir: string): Opened {
    if x.error.Some? then Opened(x.files, Err(x.error.value))
    else
      var dbPath := Join(workDir, DbName);
      match OpenDatabase(x.files, denied, dbPath, "Failed to open database")
      case Err(e) => Opened(x.files, Err(e))
      case Ok(img) => Opened(x.files[dbPath := Sqlite(img)], Ok(img))
  }

  /** What `open_rr` as written does to the file system and what it yields. */
  function OpenRrSpec(files: map<string, Content>, denied: set<string>, rrPath: string, workDir: string): Opened {
    if rrPath !in files then Opened(files, Err("Failed to open .rr file: " + NotFound))
    else if !files[rrPath].Zip? then Opened(files, Err("Failed to read .rr archive: invalid Zip archive"))
    else OpenExtracted(UnpackAsWritten(files, denied, workDir, files[rrPath].entries), denied, workDir)
  }

  /** `open_rr` with the corrected extraction loop. */
  function OpenRrCorrected(files: map<string, Content>, denied: set<string>, rrPath: string, workDir: string): Opened {
    if rrPath !in files then Opened(files, Err("Failed to open .rr file: " + NotFound))
    else if !files[rrPath].Zip? then Opened(files, Err("Failed to read .rr archive: invalid Zip archive"))
    else OpenExtracted(Unpack(files, denied, workDir, files[rrPath].entries), denied, workDir)
  }

  /** With the corrected loop, opening an archive touches nothing outside its
      working directory, whatever names the archive's entries carry. */
  lemma OpenRrConfined(files: map<string, Content>, denied: set<string>, rrPath: string, workDir: string)
    requires IsDirPath(workDir)
    ensures var o := OpenRrCorrected(files, denied, rrPath, workDir);
      forall p :: !Under(p, workDir) ==> (p in o.files <==> p in files) && (p in files ==> o.files[p] == files[p])
  {
    if rrPath in files && files[rrPath].Zip? {
      UnpackStaysInside(files, denied, workDir, files[rrPath].entries);
      MemberUnder(workDir, DbName);
    }
  }

  /** `open_rr`: extract every file entry of the archive to the working
      directory joined with its name, then open the database found there. */
  method OpenRr(fs: FileSystem, rrPath: string, workDir: string) returns (r: Result<Session>)
    modifies fs
    ensures var spec := OpenRrSpec(old(fs.files), fs.denied, rrPath, workDir);
      && fs.files == spec.files
      && (r.Ok? <==> spec.image.Ok?)
      && (r.Err? ==> r.error == spec.image.error)
      && (r.Ok? ==> && r.value.rrPath == rrPath && r.value.workDir == workDir
                    && fresh(r.value.db) && r.value.db.Snapshot() == spec.image.value)
  {
    if rrPath !in fs.files {
      return Err("Failed to open .rr file: " + NotFound);
    }
    if !fs.files[rrPath].Zip? {
      return Err("Failed to read .rr archive: invalid Zip archive");
    }
    var entries := fs.files[rrPath].entries;
    var i := 0;
    while i < |entries|
      invariant 0 <= i <= |entries|
      invariant UnpackAsWritten(fs.files, fs.denied, workDir, entries[i..]) == UnpackAsWritten(old(fs.files), fs.denied, workDir, entries)
    {
      var e := entries[i];
      assert entries[i..][0] == e && entries[i..][1..] == entries[i + 1..];
      if !IsDirEntry(e.name) {
        var out := Join(workDir, e.name);
        if out in fs.denied {
          return Err("Failed to create file: " + PermissionDenied);
        }
        fs.files := fs.files[out := e.data];
      }
      i := i + 1;
    }
    var dbPath := Join(workDir, DbName);
    var db0 := OpenDatabase(fs.files, fs.denied, dbPath, "Failed to open database");
    if db0.Err? {
      return Err(db0.error);
    }
    fs.files := fs.files[dbPath := Sqlite(db0.value)];
    var db := new AnnotationStore(db0.value);
    return Ok(Session(rrPath, workDir, db));
  }

  // ---------------------------------------------------------------------
  // Packing

  /** One member of the archive, present when its file exists. */
  function Member(files: map<string, Content>, workDir: string, name: string, m: Method): seq<Entry> {
    var p := Join(workDir, name);
    if p in files then [Entry(name, m, files[p])] else []
  }

  /** The entries `save_rr` writes, in order: the manifest (deflated), the
      document (stored) and the database (deflated), each only if its file
      exists in the working directory. */
  function PackEntries(files: map<string, Content>, workDir: string): seq<Entry> {
    Member(files, workDir, ManifestName, Deflated)
      + Member(files, workDir, PdfName, Stored)
      + Member(files, workDir, DbName, Deflated)
  }

  /** The database file as `save_rr` packs it, after its `wal_checkpoint`
      pragma: the file holds the connection's tables. Between saves the
      model keeps the file's contents from open time. */
  function Checkpointed(files: map<string, Content>, workDir: string, img: Image): map<string, Content> {
    var dbPath := Join(workDir, DbName);
    if dbPath in files then files[dbPath := Sqlite(img)] else files
  }

  /** What `save_rr` leaves in the file system when it succeeds: the
      database file checkpointed and the archive replaced by a new one. */
  function Saved(files: map<string, Content>, rrPath: string, workDir: string, img: Image): map<string, Content> {
    var synced := Checkpointed(files, workDir, img);
    synced[rrPath := Zip(PackEntries(synced, workDir))]
  }

  /** `save_rr`: truncate the archive, then append the members one after the
      other and finish it. Only creating the archive can fail. */
  method SaveRr(fs: FileSystem, s: Session) returns (o: Outcome)
    modifies fs
    ensures o.Pass? <==> s.rrPath !in fs.denied
    ensures o.Fail? ==> o.error == "Failed to create .rr file: " + PermissionDenied && fs.files == old(fs.files)
    ensures o.Pass? ==> fs.files == Saved(old(fs.files), s.rrPath, s.workDir, s.db.Snapshot())
  {
    if s.rrPath in fs.denied {
      return Fail("Failed to create .rr file: " + PermissionDenied);
    }
    JoinInjective(s.workDir, ManifestName, DbName);
    JoinInjective(s.workDir, PdfName, DbName);
    ghost var synced := Checkpointed(fs.files, s.workDir, s.db.Snapshot());
    var entries: seq<Entry> := [];
    var manifestPath := Join(s.workDir, ManifestName);
    if manifestPath in fs.files {
      entries := entries + [Entry(ManifestName, Deflated, fs.files[manifestPath])];
    }
    assert entries == Member(synced, s.workDir, ManifestName, Deflated);
    var pdfPath := Join(s.workDir, PdfName);
    if pdfPath in fs.files {
      entries := entries + [Entry(PdfName, Stored, fs.files[pdfPath])];
    }
    assert entries == Member(synced, s.workDir, ManifestName, Deflated) + Member(synced, s.workDir, PdfName, Stored);
    var dbPath := Join(s.workDir, DbName);
    if dbPath in fs.files {
      fs.files := fs.files[dbPath := Sqlite(s.db.Snapshot())];
      entries := entries + [Entry(DbName, Deflated, fs.files[dbPath])];
    }
    assert fs.files == synced;
    assert entries == PackEntries(synced, s.workDir);
    fs.files := fs.files[s.rrPath := Zip(entries)];
    return Pass;
  }

  // ---------------------------------------------------------------------
  // Importing a PDF

  /** The archive path of `import_pdf`: `output_path` when one is given,
      otherwise the PDF's own path with its extension replaced by `rr`. */
  function ArchivePath(pdfPath: string, outputPath: Option<string>): string {
    match outputPath
    case Some(p) => p
    case None => WithExtension(pdfPath, "rr")
  }

  /** Without an output path the archive sits next to the PDF, under the
      same stem, with extension `rr`. */
  lemma ArchivePathNextToPdf(pdfPath: string)
    requires FileName(pdfPath).Some?
    ensures FileStem(ArchivePath(pdfPath, None)) == FileStem(pdfPath)
    ensures Extension(ArchivePath(pdfPath, None)) == Some("rr")
  {
    WithExtensionKeepsStem(pdfPath, "rr");
  }

  /** The database of a newly imported document: no annotations, and the
      PDF's file stem as its title when the path has one. */
  function ImportedImage(pdfPath: string): (img: Image)
    ensures img.annotations == map[]
    ensures "title" in img.metadata <==> FileStem(pdfPath).Some?
    ensures forall k :: k in img.metadata ==> k == "title" && img.metadata[k] == FileStem(pdfPath).value
  {
    match FileStem(pdfPath)
    case Some(stem) => Image(map[], map["title" := stem])
    case None => EmptyImage
  }

  /** The working directory `import_pdf` fills before packing: the copied
      document, the manifest and a new database file. */
  function Staged(files: map<string, Content>, pdfPath: string, workDir: string, now: string): map<string, Content>
    requires pdfPath in files && IsDirPath(workDir)
  {
    files[PdfPath(workDir) := files[pdfPath]]
         [Join(workDir, ManifestName) := Text(ManifestJson(DefaultManifest(now)))]
         [Join(workDir, DbName) := Sqlite(EmptyImage)]
  }

  /** The first step of filling the working directory that fails, if any:
      copying the PDF, writing the manifest, creating the database. */
  function StageFailure(files: map<string, Content>, denied: set<string>, pdfPath: string, workDir: string): Option<string>
    requires IsDirPath(workDir)
  {
    if pdfPath !in files then Some("Failed to copy PDF: " + NotFound)
    else if PdfPath(workDir) in denied then Some("Failed to copy PDF: " + PermissionDenied)
    else if Join(workDir, ManifestName) in denied then Some("Failed to write manifest: " + PermissionDenied)
    else if Join(workDir, DbName) in denied then Some(CannotOpen("Failed to create database"))
    else None
  }

  /** The first step of `import_pdf` that fails, if any: filling the working
      directory, then creating the archive. */
  function ImportFailure(files: map<string, Content>, denied: set<string>, pdfPath: string, workDir: string, rrPath: string): Option<string>
    requires IsDirPath(workDir)
  {
    var staged := StageFailure(files, denied, pdfPath, workDir);
    if staged.Some? then staged
    else if rrPath in denied then Some("Failed to create .rr file: " + PermissionDenied)
    else None
  }

  /** The archive a newly imported document is packed into. */
  function ImportedEntries(pdf: Content, now: string, img: Image): seq<Entry> {
    [Entry(ManifestName, Deflated, Text(ManifestJson(DefaultManifest(now)))),
     Entry(PdfName, Stored, pdf),
     Entry(DbName, Deflated, Sqlite(img))]
  }

  /** Packing the staged working directory gives the three members in
      order: the default manifest, the PDF as it was, and the database. */
  lemma PackStaged(files: map<string, Content>, pdfPath: string, workDir: string, now: string, img: Image)
    requires pdfPath in files && IsDirPath(workDir)
    ensures var synced := Checkpointed(Staged(files, pdfPath, workDir, now), workDir, img);
      PackEntries(synced, workDir) == ImportedEntries(files[pdfPath], now, img)
  {
    JoinInjective(workDir, ManifestName, DbName);
    JoinInjective(workDir, PdfName, DbName);
    JoinInjective(workDir, ManifestName, PdfName);
  }

  /** The first half of `import_pdf` (lines 84-99): copy the PDF into the
      working directory, write the default manifest and create the
      database file, returning the new database's tables. */
  method Stage(fs: FileSystem, pdfPath: string, workDir: string, now: string) returns (r: Result<Image>)
    requires IsDirPath(workDir) && Join(workDir, DbName) !in fs.files
    modifies fs
    ensures var failure := StageFailure(old(fs.files), fs.denied, pdfPath, workDir);
      && (r.Err? <==> failure.Some?)
      && (r.Err? ==> r.error == failure.value)
    ensures r.Ok? ==>
      && r.value == EmptyImage && pdfPath in old(fs.files)
      && fs.files == Staged(old(fs.files), pdfPath, workDir, now)
  {
    if pdfPath !in fs.files {
      return Err("Failed to copy PDF: " + NotFound);
    }
    var pdfDest := PdfPath(workDir);
    if pdfDest in fs.denied {
      return Err("Failed to copy PDF: " + PermissionDenied);
    }
    ghost var original := fs.files;
    fs.files := fs.files[pdfDest := fs.files[pdfPath]];
    var manifestPath := Join(workDir, ManifestName);
    if manifestPath in fs.denied {
      return Err("Failed to write manifest: " + PermissionDenied);
    }
    fs.files := fs.files[manifestPath := Text(ManifestJson(DefaultManifest(now)))];
    var dbPath := Join(workDir, DbName);
    JoinInjective(workDir, ManifestName, DbName);
    JoinInjective(workDir, PdfName, DbName);
    var db0 := OpenDatabase(fs.files, fs.denied, dbPath, "Failed to create database");
    if db0.Err? {
      return Err(db0.error);
    }
    fs.files := fs.files[dbPath := Sqlite(db0.value)];
    assert fs.files == Staged(original, pdfPath, workDir, now);
    return db0;
  }

  /** `import_pdf`: fill the fresh working directory, record the PDF's stem
      as the title and pack everything into the archive at once. */
  method ImportPdf(fs: FileSystem, pdfPath: string, outputPath: Option<string>, workDir: string, now: string)
    returns (r: Result<Session>)
    requires IsDirPath(workDir) && Join(workDir, DbName) !in fs.files
    modifies fs
    ensures var failure := ImportFailure(old(fs.files), fs.denied, pdfPath, workDir, ArchivePath(pdfPath, outputPath));
      && (r.Err? <==> failure.Some?)
      && (r.Err? ==> r.error == failure.value)
    ensures r.Ok? ==>
      && pdfPath in old(fs.files)
      && r.value.rrPath == ArchivePath(pdfPath, outputPath) && r.value.workDir == workDir
      && fresh(r.value.db) && r.value.db.Snapshot() == ImportedImage(pdfPath)
      && fs.files == Saved(Staged(old(fs.files), pdfPath, workDir, now), r.value.rrPath, workDir, ImportedImage(pdfPath))
      && fs.files[r.value.rrPath] == Zip(ImportedEntries(old(fs.files)[pdfPath], now, ImportedImage(pdfPath)))
  {
    var rrPath := ArchivePath(pdfPath, outputPath);
    ghost var original := fs.files;
    var img := Stage(fs, pdfPath, workDir, now);
    if img.Err? {
      return Err(img.error);
    }
    var db := new AnnotationStore(img.value);
    match FileStem(pdfPath) {
      case Some(stem) => db.SetMetadata("title", stem);
      case None =>
    }
    assert db.Snapshot() == ImportedImage(pdfPath);
    var session := Session(rrPath, workDir, db);
    var saved := SaveRr(fs, session);
    if saved.Fail? {
      return Err(saved.error);
    }
    PackStaged(original, pdfPath, workDir, now, db.Snapshot());
    return Ok(session);
  }

  // ---------------------------------------------------------------------
  // Round trip

  /** Extracting a sequence of entries is extracting its parts in turn. */
  lemma {:induction false} UnpackAppend(files: map<string, Content>, denied: set<string>, workDir: string, a: seq<Entry>, b: seq<Entry>)
    ensures UnpackAsWritten(files, denied, workDir, a + b) ==
      var x := UnpackAsWritten(files, denied, workDir, a);
      if x.error.Some? then x else UnpackAsWritten(x.files, denied, workDir, b)
    decreases |a|
  {
    if a == [] {
      assert a + b == b;
    } else {
      assert (a + b)[0] == a[0] && (a + b)[1..] == a[1..] + b;
      var out := Join(workDir, a[0].name);
      if IsDirEntry(a[0].name) {
        UnpackAppend(files, denied, workDir, a[1..], b);
      } else if out !in denied {
        UnpackAppend(files[out := a[0].data], denied, workDir, a[1..], b);
      }
    }
  }

  /** The target file system with member `name` of the working directory
      `from` copied into directory `to`, if that member exists. */
  function Place(target: map<string, Content>, files: map<string, Content>, from: string, to: string, name: string): map<string, Content> {
    var p := Join(from, name);
    if p in files then target[Join(to, name) := files[p]] else target
  }

  lemma UnpackMember(target: map<string, Content>, denied: set<string>, to: string,
                     files: map<string, Content>, from: string, name: string, m: Method)
    requires !IsDirEntry(name) && Join(to, name) !in denied
    ensures UnpackAsWritten(target, denied, to, Member(files, from, name, m)) == Extraction(Place(target, files, from, to, name), None)
  {
  }

  /** Each member of the container lies inside the directory it is joined to. */
  lemma MemberUnder(workDir: string, name: string)
    requires IsDirPath(workDir) && name in {ManifestName, PdfName, DbName}
    ensures Under(Join(workDir, name), workDir)
  {
    MemberNamesEnclosed();
    JoinRelativeUnder(workDir, name);
  }

  lemma MemberNamesEnclosed()
    ensures Enclosed(ManifestName) && Enclosed(PdfName) && Enclosed(DbName)
  {
    PlainNameEnclosed(ManifestName);
    PlainNameEnclosed(PdfName);
    PlainNameEnclosed(DbName);
  }

  /** Unpacking what `save_rr` packed writes each member of the old working
      directory to the same name in the new one, and nothing else. */
  lemma UnpackPacked(target: map<string, Content>, denied: set<string>, to: string, files: map<string, Content>, from: string)
    requires Join(to, ManifestName) !in denied && Join(to, PdfName) !in denied && Join(to, DbName) !in denied
    ensures UnpackAsWritten(target, denied, to, PackEntries(files, from)) ==
      Extraction(Place(Place(Place(target, files, from, to, ManifestName), files, from, to, PdfName), files, from, to, DbName), None)
  {
    var m1 := Member(files, from, ManifestName, Deflated);
    var m2 := Member(files, from, PdfName, Stored);
    var m3 := Member(files, from, DbName, Deflated);
    UnpackAppend(target, denied, to, m1 + m2, m3);
    UnpackAppend(target, denied, to, m1, m2);
    UnpackMember(target, denied, to, files, from, ManifestName, Deflated);
    var t1 := Place(target, files, from, to, ManifestName);
    UnpackMember(t1, denied, to, files, from, PdfName, Stored);
    var t2 := Place(t1, files, from, to, PdfName);
    UnpackMember(t2, denied, to, files, from, DbName, Deflated);
  }

  /** Opening an archive that `save_rr` wrote, into a fresh working
      directory, gives back the tables the session held, and each of the
      manifest and the document byte for byte. `target` is the file system
      at the time of opening, which may have changed elsewhere since. */
  lemma ReopenRestores(target: map<string, Content>, denied: set<string>, rrPath: string,
                       files: map<string, Content>, from: string, img: Image, to: string)
    requires rrPath in target && target[rrPath] == Zip(PackEntries(Checkpointed(files, from, img), from))
    requires Join(from, DbName) in files
    requires IsDirPath(to) && FreshDir(target, to)
    requires Join(to, ManifestName) !in denied && Join(to, PdfName) !in denied && Join(to, DbName) !in denied
    ensures var o := OpenRrSpec(target, denied, rrPath, to);
      && o.image == Ok(img)
      && (Join(from, PdfName) in files <==> PdfPath(to) in o.files)
      && (Join(from, PdfName) in files ==> o.files[PdfPath(to)] == files[Join(from, PdfName)])
      && (Join(from, ManifestName) in files <==> Join(to, ManifestName) in o.files)
      && (Join(from, ManifestName) in files ==> o.files[Join(to, ManifestName)] == files[Join(from, ManifestName)])
  {
    var synced := Checkpointed(files, from, img);
    JoinInjective(from, ManifestName, DbName);
    JoinInjective(from, PdfName, DbName);
    JoinInjective(to, ManifestName, DbName);
    JoinInjective(to, PdfName, DbName);
    JoinInjective(to, ManifestName, PdfName);
    MemberUnder(to, ManifestName);
    MemberUnder(to, PdfName);
    MemberUnder(to, DbName);
    UnpackPacked(target, denied, to, synced, from);
    assert synced[Join(from, DbName)] == Sqlite(img);
  }

  /** The archives `save_rr` writes carry only the three member names, so the
      corrected extraction opens them exactly as the loop as written does. */
  lemma CorrectionKeepsSavedArchives(target: map<string, Content>, denied: set<string>, to: string, files: map<string, Content>, from: string)
    ensures Unpack(target, denied, to, PackEntries(files, from)) == UnpackAsWritten(target, denied, to, PackEntries(files, from))
  {
    var es := PackEntries(files, from);
    PackedNames(files, from);
    MemberNamesEnclosed();
    UnpackAgrees(target, denied, to, es);
  }

  lemma PackedNames(files: map<string, Content>, from: string)
    ensures forall i :: 0 <= i < |PackEntries(files, from)| ==>
      PackEntries(files, from)[i].name in {ManifestName, PdfName, DbName}
  {
    var m1 := Member(files, from, ManifestName, Deflated);
    var m2 := Member(files, from, PdfName, Stored);
    var m3 := Member(files, from, DbName, Deflated);
    assert forall e :: e in m1 ==> e.name == ManifestName;
    assert forall e :: e in m2 ==> e.name == PdfName;
    assert forall e :: e in m3 ==> e.name == DbName;
    assert forall i :: 0 <= i < |m1 + m2 + m3| ==> (m1 + m2 + m3)[i] in m1 || (m1 + m2 + m3)[i] in m2 || (m1 + m2 + m3)[i] in m3;
  }

  /** In particular, right after a successful save. */
  lemma SaveThenReopen(files: map<string, Content>, denied: set<string>, rrPath: string, from: string, img: Image, to: string)
    requires Join(from, DbName) in files
    requires IsDirPath(to) && FreshDir(Saved(files, rrPath, from, img), to)
    requires Join(to, ManifestName) !in denied && Join(to, PdfName) !in denied && Join(to, DbName) !in denied
    ensures OpenRrSpec(Saved(files, rrPath, from, img), denied, rrPath, to).image == Ok(img)
  {
    ReopenRestores(Saved(files, rrPath, from, img), denied, rrPath, files, from, img, to);
  }

  /** A document imported from a PDF opens again with no annotations, its
      title, and the PDF's content as the document. */
  lemma ImportThenReopen(files: map<string, Content>, denied: set<string>, pdfPath: string, rrPath: string,
                         from: string, now: string, to: string)
    requires pdfPath in files && IsDirPath(from)
    requires IsDirPath(to) && FreshDir(Saved(Staged(files, pdfPath, from, now), rrPath, from, ImportedImage(pdfPath)), to)
    requires Join(to, ManifestName) !in denied && Join(to, PdfName) !in denied && Join(to, DbName) !in denied
    ensures var o := OpenRrSpec(Saved(Staged(files, pdfPath, from, now), rrPath, from, ImportedImage(pdfPath)), denied, rrPath, to);
      && o.image == Ok(ImportedImage(pdfPath))
      && PdfPath(to) in o.files && o.files[PdfPath(to)] == files[pdfPath]
  {
    var staged := Staged(files, pdfPath, from, now);
    JoinInjective(from, PdfName, DbName);
    JoinInjective(from, ManifestName, PdfName);
    assert staged[Join(from, PdfName)] == files[pdfPath];
    ReopenRestores(Saved(staged, rrPath, from, ImportedImage(pdfPath)), denied, rrPath, staged, from, ImportedImage(pdfPath), to);
  }

  // ---------------------------------------------------------------------
  // Cleanup

  /** `fs::remove_dir_all(dir)`: the directory and everything under it go. */
  function RemoveDir(files: map<string, Content>, dir: string): (r: map<string, Content>)
    ensures forall p :: p in r ==> p != dir && !Under(p, dir)
    ensures forall p :: p in files && p != dir && !Under(p, dir) ==> p in r && r[p] == files[p]
  {
    map p | p in files && p != dir && !Under(p, dir) :: files[p]
  }

  /** Removing a directory twice is the same as removing it once. */
  lemma RemoveDirIdempotent(files: map<string, Content>, dir: string)
    ensures RemoveDir(RemoveDir(files, dir), dir) == RemoveDir(files, dir)
  {
  }

  /** `cleanup_session`: remove the working directory, ignoring any error. */
  method CleanupSession(fs: FileSystem, s: Session)
    modifies fs
    ensures fs.files == RemoveDir(old(fs.files), s.workDir)
  {
    fs.files := RemoveDir(fs.files, s.workDir);
  }
}
