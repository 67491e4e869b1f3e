/** The commands the front end invokes (src-tauri/src/commands.rs). The
    application holds at most one open document: a slot that is empty or
    holds the session of the open `.rr` archive. Calls are sequential, so
    the mutex around the slot is not modelled. */
module Commands {
  import opened Wrappers
  import opened Models
  import opened Numbers
  import opened Paths
  import opened Database
  import opened RrFile

  const NoFileOpen: string := "No file is open"

  /** `DocumentInfo`: what `open_file` reports about the opened document. */
  datatype DocumentInfo = DocumentInfo(
    pdfPath: string,
    rrPath: string,
    title: Option<string>,
    pageCount: Option<U32>,
    lastPage: Option<U32>)

  /** A metadata value read as a `u32`: absent or unparsable values are `None`. */
  function MetadataNumber(metadata: map<string, string>, key: string): (r: Option<U32>)
    ensures key !in metadata ==> r.None?
    ensures r.Some? ==> key in metadata && ParseU32(metadata[key]) == r
  {
    if key in metadata then ParseU32(metadata[key]) else None
  }

  /** The report `open_file` builds from a session's paths and metadata. */
  function Describe(pdfPath: string, rrPath: string, metadata: map<string, string>): (info: DocumentInfo)
    ensures info.pdfPath == pdfPath && info.rrPath == rrPath
    ensures info.title.Some? <==> "title" in metadata
    ensures info.title.Some? ==> info.title.value == metadata["title"]
    ensures info.pageCount == MetadataNumber(metadata, "page_count")
    ensures info.lastPage == MetadataNumber(metadata, "last_page")
  {
    DocumentInfo(
      pdfPath,
      rrPath,
      if "title" in metadata then Some(metadata["title"]) else None,
      MetadataNumber(metadata, "page_count"),
      MetadataNumber(metadata, "last_page"))
  }

  /** Page numbers stored in decimal are reported back as the same numbers;
      keys never set and values such as negative numbers are reported as
      absent rather than as an error. */
  lemma DescribeNumbers(pdfPath: string, rrPath: string, metadata: map<string, string>, n: U32, rest: string)
    ensures var info := Describe(pdfPath, rrPath, metadata["page_count" := Decimal(n)]);
      info.pageCount == Some(n)
    ensures var info := Describe(pdfPath, rrPath, metadata["last_page" := Decimal(n)]);
      info.lastPage == Some(n)
    ensures "page_count" !in metadata ==> Describe(pdfPath, rrPath, metadata).pageCount == None
    ensures Describe(pdfPath, rrPath, metadata["last_page" := "-" + rest]).lastPage == None
  {
    ParseDecimal(n);
    ParseRejects(rest);
  }

  /** The extension `open_file` dispatches on: the path's extension,
      lower-cased, or empty when the path has none. */
  function DispatchExtension(path: string): (ext: string)
    ensures Extension(path).None? ==> ext == ""
    ensures Extension(path).Some? ==> |ext| == |Extension(path).value|
  {
    ToLower(Extension(path).GetOr(""))
  }

  /** A non-empty name with neither separator nor dot. */
  predicate PlainName(s: string) {
    s != "" && forall j :: 0 <= j < |s| ==> s[j] != '/' && s[j] != '.'
  }

  /** `open_file` dispatches on the lower-cased text after the last dot of
      the file name, whatever directory the file is in and however many dots
      its stem holds (`/home/u/paper.v2.PDF` dispatches on `pdf`). */
  lemma DispatchOfName(dir: string, stem: string, ext: string)
    requires dir == "" || dir[|dir| - 1] == '/'
    requires stem != "" && forall j :: 0 <= j < |stem| ==> stem[j] != '/'
    requires PlainName(ext)
    ensures DispatchExtension(dir + stem + "." + ext) == ToLower(ext)
  {
    DottedPathExtension(dir, stem, ext);
  }

  /** The dispatch ignores the case of the extension: paths whose extensions
      differ only in case (`a.PDF`, `a.pdf`) go the same way. */
  lemma DispatchIgnoresCase(dir: string, stem: string, a: string, b: string)
    requires dir == "" || dir[|dir| - 1] == '/'
    requires stem != "" && forall j :: 0 <= j < |stem| ==> stem[j] != '/'
    requires PlainName(a) && PlainName(b) && ToLower(a) == ToLower(b)
    ensures DispatchExtension(dir + stem + "." + a) == DispatchExtension(dir + stem + "." + b)
  {
    DispatchOfName(dir, stem, a);
    DispatchOfName(dir, stem, b);
  }

  /** A file name with no dot after its first character (`README`,
      `.bashrc`) has no extension, so it is refused, wherever it lies; dots in
      the directory part (`/home/u.d/README`) do not count. */
  lemma NoExtensionRefused(dir: string, name: string)
    requires dir == "" || dir[|dir| - 1] == '/'
    requires name != "" && name != "." && forall j :: 0 <= j < |name| ==> name[j] != '/'
    requires forall j :: 0 < j < |name| ==> name[j] != '.'
    ensures DispatchExtension(dir + name) == ""
  {
    assert name != ".." by {
      if |name| == 2 { assert name[1] != '.'; }
    }
    SplitAfterDir(dir, name);
  }

  /** The file system after the previous session, if any, is cleaned up. */
  function CleanedUp(files: map<string, Content>, previous: Option<Session>): map<string, Content> {
    match previous
    case Some(s) => RemoveDir(files, s.workDir)
    case None => files
  }

  /** The dispatch of `open_file` (lines 19-29): open an archive or import a
      PDF into the fresh working directory, by the lower-cased extension. */
  method Load(fs: FileSystem, path: string, workDir: string, now: string) returns (attempt: Result<Session>)
    requires FreshDir(fs.files, workDir)
    modifies fs
    ensures var ext := DispatchExtension(path);
      ext != "rr" && ext != "pdf" ==> attempt == Err("Unsupported file type: ." + ext) && fs.files == old(fs.files)
    ensures DispatchExtension(path) == "rr" ==>
      var spec := OpenRrSpec(old(fs.files), fs.denied, path, workDir);
      && fs.files == spec.files
      && (attempt.Ok? <==> spec.image.Ok?)
      && (attempt.Err? ==> attempt.error == spec.image.error)
      && (attempt.Ok? ==> attempt.value.rrPath == path && attempt.value.db.Snapshot() == spec.image.value)
    ensures DispatchExtension(path) == "pdf" ==>
      var rrPath := ArchivePath(path, None);
      var failure := ImportFailure(old(fs.files), fs.denied, path, workDir, rrPath);
      && (attempt.Ok? <==> failure.None?)
      && (attempt.Err? ==> attempt.error == failure.value)
      && (attempt.Ok? ==> && path in old(fs.files) && attempt.value.rrPath == rrPath
                          && attempt.value.db.Snapshot() == ImportedImage(path)
                          && fs.files == Saved(Staged(old(fs.files), path, workDir, now), rrPath, workDir, ImportedImage(path)))
    ensures attempt.Ok? ==> attempt.value.workDir == workDir && fresh(attempt.value.db)
  {
    var ext := DispatchExtension(path);
    if ext == "rr" {
      attempt := OpenRr(fs, path, workDir);
    } else if ext == "pdf" {
      MemberUnder(workDir, DbName);
      attempt := ImportPdf(fs, path, None, workDir, now);
    } else {
      attempt := Err("Unsupported file type: ." + ext);
    }
  }

  /** `AppState`: the session slot, over the file system the back end uses. */
  class App {
    var session: Option<Session>
    const fs: FileSystem

    /** A session's working directory is a directory path, as `tempdir` makes it. */
    ghost predicate Valid()
      reads this
    {
      session.Some? ==> IsDirPath(session.value.workDir)
    }

    constructor (fs: FileSystem)
      ensures Valid() && session.None? && this.fs == fs
    {
      session := None;
      this.fs := fs;
    }

    /** `open_file`: open an archive or import a PDF into the fresh working
        directory `workDir`, and only once that has succeeded clean up the
        previous session and put the new one in the slot. */
    method OpenFile(path: string, workDir: string, now: string) returns (r: Result<DocumentInfo>)
      requires Valid() && FreshDir(fs.files, workDir)
      modifies this, fs
      ensures Valid()
      ensures var ext := DispatchExtension(path);
        ext != "rr" && ext != "pdf" ==> r == Err("Unsupported file type: ." + ext) && fs.files == old(fs.files)
      ensures DispatchExtension(path) == "rr" ==>
        var spec := OpenRrSpec(old(fs.files), fs.denied, path, workDir);
        && (r.Ok? <==> spec.image.Ok?)
        && (r.Err? ==> r.error == spec.image.error && fs.files == spec.files)
        && (r.Ok? ==> && session.Some? && session.value.rrPath == path
                      && session.value.db.Snapshot() == spec.image.value
                      && fs.files == CleanedUp(spec.files, old(session)))
      ensures DispatchExtension(path) == "pdf" ==>
        var rrPath := ArchivePath(path, None);
        var failure := ImportFailure(old(fs.files), fs.denied, path, workDir, rrPath);
        && (r.Ok? <==> failure.None?)
        && (r.Err? ==> r.error == failure.value)
        && (r.Ok? ==> && path in old(fs.files) && session.Some?
                      && session.value.rrPath == rrPath
                      && session.value.db.Snapshot() == ImportedImage(path)
                      && fs.files == CleanedUp(Saved(Staged(old(fs.files), path, workDir, now), rrPath, workDir, ImportedImage(path)), old(session)))
      ensures r.Err? ==> session == old(session)
      ensures r.Ok? ==> && session.Some? && session.value.workDir == workDir && fresh(session.value.db)
                        && r.value == Describe(PdfPath(workDir), session.value.rrPath, session.value.db.metadata)
    {
      var attempt := Load(fs, path, workDir, now);
      if attempt.Err? {
        return Err(attempt.error);
      }
      var info := Install(attempt.value);
      return Ok(info);
    }

    /** The end of `open_file` (lines 31-52): describe the new session, clean
        up the previous one, if any, and put the new one in the slot. */
    method Install(s: Session) returns (info: DocumentInfo)
      requires IsDirPath(s.workDir)
      modifies this, fs
      ensures Valid() && session == Some(s)
      ensures fs.files == CleanedUp(old(fs.files), old(session))
      ensures info == Describe(PdfPath(s.workDir), s.rrPath, s.db.metadata)
    {
      info := Describe(PdfPath(s.workDir), s.rrPath, s.db.metadata);
      if session.Some? {
        CleanupSession(fs, session.value);
      }
      session := Some(s);
    }

    /** `save_file`: pack the open session into its archive. */
    method SaveFile() returns (o: Outcome)
      requires Valid()
      modifies fs
      ensures session == old(session)
      ensures session.None? ==> o == Fail(NoFileOpen) && fs.files == old(fs.files)
      ensures session.Some? ==> var s := session.value;
        && (o.Pass? <==> s.rrPath !in fs.denied)
        && (o.Pass? ==> fs.files == Saved(old(fs.files), s.rrPath, s.workDir, s.db.Snapshot()))
        && (o.Fail? ==> o.error == "Failed to create .rr file: " + PermissionDenied && fs.files == old(fs.files))
    {
      if session.None? {
        return Fail(NoFileOpen);
      }
      o := SaveRr(fs, session.value);
    }

    /** `close_file`: take the session out of the slot, save it, and clean
        up its working directory only when the save succeeded. */
    method CloseFile() returns (o: Outcome)
      requires Valid()
      modifies this, fs
      ensures Valid() && session.None?
      ensures old(session).None? ==> o == Pass && fs.files == old(fs.files)
      ensures old(session).Some? ==> var s := old(session).value;
        && (o.Pass? <==> s.rrPath !in fs.denied)
        && (o.Pass? ==> fs.files == RemoveDir(Saved(old(fs.files), s.rrPath, s.workDir, s.db.Snapshot()), s.workDir))
        && (o.Fail? ==> o.error == "Failed to create .rr file: " + PermissionDenied && fs.files == old(fs.files))
    {
      if session.None? {
        return Pass;
      }
      var prev := session.value;
      session := None;
      o := SaveRr(fs, prev);
      if o.Fail? {
        return o;
      }
      CleanupSession(fs, prev);
    }

    /** `get_annotations`, over the ordered scan the database would run. */
    method GetAnnotations(page: Option<U32>, scan: seq<string>, parse: string -> Option<PositionData>)
      returns (r: Result<seq<Annotation>>)
      requires session.Some? ==> IsOrderedScan(session.value.db.annotations, page, scan)
      ensures session.None? ==> r == Err(NoFileOpen)
      ensures session.Some? ==>
        var listed := Listing(session.value.db.annotations, scan, parse);
        && (r.Ok? <==> listed.Ok?)
        && (r.Ok? ==> r.value == listed.value)
        && (r.Err? ==> r.error == "Failed to get annotations: " + listed.error)
    {
      if session.None? {
        return Err(NoFileOpen);
      }
      var listed := session.value.db.GetAnnotations(page, scan, parse);
      if listed.Err? {
        return Err("Failed to get annotations: " + listed.error);
      }
      return listed;
    }

    /** `create_annotation` on the open document. */
    method CreateAnnotation(input: CreateAnnotationInput, id: string, now: string, serialize: PositionData -> string)
      returns (r: Result<Annotation>)
      modifies if session.Some? then {session.value.db} else {}
      ensures session.None? ==> r == Err(NoFileOpen)
      ensures session.Some? ==> var db := session.value.db;
        && (r.Ok? <==> id !in old(db.annotations))
        && (r.Ok? ==> r.value == Created(id, input, now)
                      && db.annotations == old(db.annotations)[id := NewRow(input, now, serialize)])
        && (r.Err? ==> r.error == "Failed to create annotation: " + DuplicateId && db.annotations == old(db.annotations))
        && db.metadata == old(db.metadata)
    {
      if session.None? {
        return Err(NoFileOpen);
      }
      r := session.value.db.CreateAnnotation(input, id, now, serialize);
      if r.Err? {
        return Err("Failed to create annotation: " + r.error);
      }
    }

    /** `update_annotation` on the open document. */
    method UpdateAnnotation(u: UpdateAnnotationInput, now: string, serialize: PositionData -> string)
      returns (r: Result<bool>)
      modifies if session.Some? then {session.value.db} else {}
      ensures session.None? ==> r == Err(NoFileOpen)
      ensures session.Some? ==> var db := session.value.db;
        && r == Ok(u.id in old(db.annotations))
        && (u.id in old(db.annotations) ==>
              db.annotations == old(db.annotations)[u.id := Patched(old(db.annotations)[u.id], u, now, serialize)])
        && (u.id !in old(db.annotations) ==> db.annotations == old(db.annotations))
        && db.metadata == old(db.metadata)
    {
      if session.None? {
        return Err(NoFileOpen);
      }
      var existed := session.value.db.UpdateAnnotation(u, now, serialize);
      return Ok(existed);
    }

    /** `delete_annotation` on the open document. */
    method DeleteAnnotation(id: string) returns (r: Result<bool>)
      modifies if session.Some? then {session.value.db} else {}
      ensures session.None? ==> r == Err(NoFileOpen)
      ensures session.Some? ==> var db := session.value.db;
        && r == Ok(id in old(db.annotations))
        && db.annotations == old(db.annotations) - {id}
        && db.metadata == old(db.metadata)
    {
      if session.None? {
        return Err(NoFileOpen);
      }
      var existed := session.value.db.DeleteAnnotation(id);
      return Ok(existed);
    }

    /** `set_document_metadata` on the open document. */
    method SetDocumentMetadata(key: string, value: string) returns (o: Outcome)
      modifies if session.Some? then {session.value.db} else {}
      ensures session.None? ==> o == Fail(NoFileOpen)
      ensures session.Some? ==> var db := session.value.db;
        && o == Pass
        && db.metadata == old(db.metadata)[key := value]
        && db.annotations == old(db.annotations)
    {
      if session.None? {
        return Fail(NoFileOpen);
      }
      session.value.db.SetMetadata(key, value);
      return Pass;
    }

    /** `read_pdf_bytes`: the content of the working copy of the document. */
    method ReadPdfBytes() returns (r: Result<Content>)
      requires Valid()
      ensures session.None? ==> r == Err(NoFileOpen)
      ensures session.Some? ==> var p := PdfPath(session.value.workDir);
        && (r.Ok? <==> p in fs.files)
        && (r.Ok? ==> r.value == fs.files[p])
        && (r.Err? ==> r.error == "Failed to read PDF at " + p + ": " + NotFound)
    {
      if session.None? {
        return Err(NoFileOpen);
      }
      var p := PdfPath(session.value.workDir);
      if p !in fs.files {
        return Err("Failed to read PDF at " + p + ": " + NotFound);
      }
      return Ok(fs.files[p]);
    }
  }

  /** Closing a document and opening its archive again gives back the
      annotations and metadata it held: the archive lies outside the working
      directory that closing removes. */
  lemma CloseThenReopen(files: map<string, Content>, denied: set<string>, rrPath: string, workDir: string, img: Image, to: string)
    requires Join(workDir, DbName) in files
    requires rrPath != workDir && !Under(rrPath, workDir)
    requires IsDirPath(to) && FreshDir(RemoveDir(Saved(files, rrPath, workDir, img), workDir), to)
    requires Join(to, ManifestName) !in denied && Join(to, PdfName) !in denied && Join(to, DbName) !in denied
    ensures OpenRrSpec(RemoveDir(Saved(files, rrPath, workDir, img), workDir), denied, rrPath, to).image == Ok(img)
  {
    var closed := RemoveDir(Saved(files, rrPath, workDir, img), workDir);
    assert closed[rrPath] == Zip(PackEntries(Checkpointed(files, workDir, img), workDir));
    ReopenRestores(closed, denied, rrPath, files, workDir, img, to);
  }
}
