/**
 * ServerApi/Controllers/FileController.cs: the multipart helpers that vet an upload request, and
 * the parts of FileController.Upload that decide what the database is told: the form values
 * collected from the request's sections, the parent directory resolved from the "path" value,
 * and the choice between UpdateFile and AddFile.
 *
 * The request arrives already split into sections; the JSON of the "backedUpFile" value is
 * decoded by a function the caller supplies, and the outcome of model binding and of the
 * storage checks are inputs.
 */
module Files {
  import opened Wrappers
  import opened Text
  import opened Entities
  import opened Database

  // -----------------------------------------------------------------------------------------
  // MultipartRequestHelper

  /** A Content-Disposition header as ContentDispositionHeaderValue parses it. */
  datatype ContentDisposition = ContentDisposition(
    dispositionType: string,
    name: Option<string>,
    fileName: Option<string>,
    fileNameStar: Option<string>)

  /** HeaderUtilities.IsQuoted: at least two characters, a '"' at each end. */
  predicate IsQuoted(s: string) {
    |s| >= 2 && s[0] == '"' && s[|s| - 1] == '"'
  }

  /** HeaderUtilities.RemoveQuotes: one pair of surrounding quotes removed; null stays null. */
  function RemoveQuotes(s: Option<string>): (r: Option<string>)
    ensures r.None? <==> s.None?
    ensures s.Some? && IsQuoted(s.value) ==> "\"" + r.value + "\"" == s.value
    ensures s.Some? && !IsQuoted(s.value) ==> r == s
  {
    match s
    case None => None
    case Some(v) => if IsQuoted(v) then Some(v[1..|v| - 1]) else s
  }

  /** Why a request was refused, or what was thrown. */
  datatype Failure =
    | NotMultipart          // the content type does not announce a multipart body
    | MissingBoundary       // the boundary parameter is null or white space
    | BoundaryTooLong       // the boundary is longer than MultipartBoundaryLengthLimit
    | NullFormKey           // a form-data section without a name
    | TooManyValues         // more form values than ValueCountLimit
    | NullRecord            // no "backedUpFile" value, or one that decodes to null
    | NullDirectory         // the "path" value has no directory part
    | NoParent              // the file record still has ParentId 0
    | InvalidModel          // model binding failed with an invalid model state
    | Store(error: DbError) // the database refused the record
    | NoUploadedFile        // no file section: there is no temporary file to move
    | DestinationExists     // the backed-up copy's destination is already taken

  /** GetBoundary: the unquoted boundary parameter of the content type, refused when it is null,
      white space or longer than `lengthLimit`. */
  function GetBoundary(boundary: Option<string>, lengthLimit: int): (r: Result<string, Failure>)
    ensures r.Ok? <==> !IsNullOrWhiteSpace(RemoveQuotes(boundary)) && |RemoveQuotes(boundary).value| <= lengthLimit
    ensures r.Ok? ==> Some(r.value) == RemoveQuotes(boundary) && |r.value| <= lengthLimit
    ensures IsNullOrWhiteSpace(RemoveQuotes(boundary)) ==> r == Err(MissingBoundary)
    ensures !IsNullOrWhiteSpace(RemoveQuotes(boundary)) && |RemoveQuotes(boundary).value| > lengthLimit ==> r == Err(BoundaryTooLong)
  {
    var b := RemoveQuotes(boundary);
    if IsNullOrWhiteSpace(b) then Err(MissingBoundary)
    else if |b.value| > lengthLimit then Err(BoundaryTooLong)
    else Ok(b.value)
  }

  /** A boundary sent in quotes is the same boundary as sent bare. */
  lemma QuotedBoundary(b: string, lengthLimit: int)
    requires !IsQuoted(b)
    ensures GetBoundary(Some("\"" + b + "\""), lengthLimit) == GetBoundary(Some(b), lengthLimit)
  {
    var q := "\"" + b + "\"";
    assert IsQuoted(q);
    assert q[1..|q| - 1] == b;
  }

  /** IsMultipartContentType: a non-empty content type containing "multipart/", in any case. */
  predicate IsMultipartContentType(contentType: Option<string>) {
    !IsNullOrEmpty(contentType) && IndexOfIgnoreCase(contentType.value, "multipart/") >= 0
  }

  /** The content type is multipart exactly when "multipart/" occurs in it, ignoring case. */
  lemma MultipartExactly(contentType: Option<string>)
    ensures IsMultipartContentType(contentType) <==>
            contentType.Some? && exists k :: MatchesAt(contentType.value, "multipart/", k)
  {
    if contentType.Some? && exists k :: MatchesAt(contentType.value, "multipart/", k) {
      var k :| MatchesAt(contentType.value, "multipart/", k);
      assert contentType.value != "";
    }
  }

  /** HasFormDataContentDisposition: a form-data section that names no file. */
  predicate HasFormDataContentDisposition(cd: Option<ContentDisposition>) {
    cd.Some? && cd.value.dispositionType == "form-data"
    && IsNullOrEmpty(cd.value.fileName) && IsNullOrEmpty(cd.value.fileNameStar)
  }

  /** HasFileContentDisposition: a form-data section that names a file. */
  predicate HasFileContentDisposition(cd: Option<ContentDisposition>) {
    cd.Some? && cd.value.dispositionType == "form-data"
    && (!IsNullOrEmpty(cd.value.fileName) || !IsNullOrEmpty(cd.value.fileNameStar))
  }

  /** A section is never both a form value and a file, and every form-data section is one of them. */
  lemma DispositionsPartition(cd: Option<ContentDisposition>)
    ensures !(HasFormDataContentDisposition(cd) && HasFileContentDisposition(cd))
    ensures cd.Some? && cd.value.dispositionType == "form-data" ==>
            HasFormDataContentDisposition(cd) || HasFileContentDisposition(cd)
    ensures cd.None? || cd.value.dispositionType != "form-data" ==>
            !HasFormDataContentDisposition(cd) && !HasFileContentDisposition(cd)
  {
  }

  // -----------------------------------------------------------------------------------------
  // Reading the form

  /** A section of the multipart body: its Content-Disposition, if one parses, and its body. */
  datatype Section = Section(disposition: Option<ContentDisposition>, body: string)

  /** One KeyValueAccumulator.Append. */
  datatype FormEntry = FormEntry(key: string, value: string)

  /** What the section loop leaves: the accumulated values and whether a file was received. */
  datatype Form = Form(entries: seq<FormEntry>, hasFile: bool)

  /** A form value as stored: "undefined", in any case, becomes the empty string. */
  function FormValue(body: string): (v: string)
    ensures EqualsIgnoreCase(body, "undefined") ==> v == ""
    ensures !EqualsIgnoreCase(body, "undefined") ==> v == body
    ensures !EqualsIgnoreCase(v, "undefined")
  {
    if EqualsIgnoreCase(body, "undefined") then "" else body
  }

  /** One iteration of the section loop, given what the earlier ones accumulated. */
  function ReadSection(form: Form, s: Section, valueCountLimit: int): Result<Form, Failure> {
    if HasFileContentDisposition(s.disposition) then Ok(form.(hasFile := true))
    else if HasFormDataContentDisposition(s.disposition) then
      match RemoveQuotes(s.disposition.value.name)
      case None => Err(NullFormKey)
      case Some(key) =>
        var entries := form.entries + [FormEntry(key, FormValue(s.body))];
        if |entries| > valueCountLimit then Err(TooManyValues) else Ok(form.(entries := entries))
    else Ok(form)
  }

  /** The section loop over `sections`: the first failure, or the accumulated form. */
  function ReadForm(sections: seq<Section>, valueCountLimit: int): Result<Form, Failure> {
    if sections == [] then Ok(Form([], false))
    else
      match ReadForm(sections[..|sections| - 1], valueCountLimit)
      case Err(e) => Err(e)
      case Ok(form) => ReadSection(form, sections[|sections| - 1], valueCountLimit)
  }

  /** The number of sections carrying a form value. */
  function FormDataCount(sections: seq<Section>): nat {
    if sections == [] then 0
    else FormDataCount(sections[..|sections| - 1]) + (if HasFormDataContentDisposition(sections[|sections| - 1].disposition) then 1 else 0)
  }

  /**
   * A form that was read holds one value per form-data section, in order, and no more than the
   * limit; no value is "undefined"; and it records a file exactly when a section carried one.
   */
  lemma {:induction false} ReadFormFacts(sections: seq<Section>, valueCountLimit: int)
    requires ReadForm(sections, valueCountLimit).Ok?
    ensures var form := ReadForm(sections, valueCountLimit).value;
      && |form.entries| == FormDataCount(sections) && (form.entries == [] || |form.entries| <= valueCountLimit)
      && (forall k :: 0 <= k < |form.entries| ==> !EqualsIgnoreCase(form.entries[k].value, "undefined"))
      && (form.hasFile <==> exists i :: 0 <= i < |sections| && HasFileContentDisposition(sections[i].disposition))
    decreases |sections|
  {
    if sections != [] {
      var init := sections[..|sections| - 1];
      var last := sections[|sections| - 1];
      ReadFormFacts(init, valueCountLimit);
      DispositionsPartition(last.disposition);
      if exists i :: 0 <= i < |init| && HasFileContentDisposition(init[i].disposition) {
        var i :| 0 <= i < |init| && HasFileContentDisposition(init[i].disposition);
        assert sections[i] == init[i];
      }
      if exists i :: 0 <= i < |sections| && HasFileContentDisposition(sections[i].disposition) {
        var i :| 0 <= i < |sections| && HasFileContentDisposition(sections[i].disposition);
        if i < |init| {
          assert init[i] == sections[i];
        }
      }
    }
  }

  /** When every form-data section has a name, the limit is exceeded exactly when there are more
      form-data sections than it allows. */
  lemma {:induction false} TooManyExactly(sections: seq<Section>, valueCountLimit: int)
    requires valueCountLimit >= 0
    requires forall i :: 0 <= i < |sections| && HasFormDataContentDisposition(sections[i].disposition) ==>
               sections[i].disposition.value.name.Some?
    ensures ReadForm(sections, valueCountLimit).Err? <==> FormDataCount(sections) > valueCountLimit
    ensures ReadForm(sections, valueCountLimit).Err? ==> ReadForm(sections, valueCountLimit).error == TooManyValues
    decreases |sections|
  {
    if sections != [] {
      var init := sections[..|sections| - 1];
      assert forall i :: 0 <= i < |init| ==> init[i] == sections[i];
      TooManyExactly(init, valueCountLimit);
      if ReadForm(init, valueCountLimit).Ok? {
        ReadFormFacts(init, valueCountLimit);
      }
    }
  }

  /** The section loop of Upload, appending to the accumulator and stopping at the first throw. */
  method ReadSections(sections: seq<Section>, valueCountLimit: int) returns (r: Result<Form, Failure>)
    ensures r == ReadForm(sections, valueCountLimit)
  {
    var entries: seq<FormEntry> := [];
    var hasFile := false;
    var i := 0;
    while i < |sections|
      invariant 0 <= i <= |sections|
      invariant ReadForm(sections[..i], valueCountLimit) == Ok(Form(entries, hasFile))
    {
      var s := sections[i];
      assert sections[..i + 1][..i] == sections[..i];
      if HasFileContentDisposition(s.disposition) {
        hasFile := true;
      } else if HasFormDataContentDisposition(s.disposition) {
        var key := RemoveQuotes(s.disposition.value.name);
        if key.None? {
          StopsThere(sections, i, valueCountLimit);
          return Err(NullFormKey);
        }
        entries := entries + [FormEntry(key.value, FormValue(s.body))];
        if |entries| > valueCountLimit {
          StopsThere(sections, i, valueCountLimit);
          return Err(TooManyValues);
        }
      }
      i := i + 1;
    }
    assert sections[..i] == sections;
    r := Ok(Form(entries, hasFile));
  }

  /** A failure in section `i` is the loop's outcome. */
  lemma StopsThere(sections: seq<Section>, i: int, valueCountLimit: int)
    requires 0 <= i < |sections| && ReadForm(sections[..i + 1], valueCountLimit).Err?
    ensures ReadForm(sections, valueCountLimit) == ReadForm(sections[..i + 1], valueCountLimit)
  {
    FailureIsFinal(sections[..i + 1], sections[i + 1..], valueCountLimit);
    assert sections[..i + 1] + sections[i + 1..] == sections;
  }

  /** Each failure stops the loop for good: a form that failed fails the same way whatever follows. */
  lemma {:induction false} FailureIsFinal(sections: seq<Section>, more: seq<Section>, valueCountLimit: int)
    requires ReadForm(sections, valueCountLimit).Err?
    ensures ReadForm(sections + more, valueCountLimit) == ReadForm(sections, valueCountLimit)
    decreases |more|
  {
    if more == [] {
      assert sections + more == sections;
    } else {
      var init := more[..|more| - 1];
      assert (sections + more)[..|sections + more| - 1] == sections + init;
      FailureIsFinal(sections, init, valueCountLimit);
    }
  }

  // -----------------------------------------------------------------------------------------
  // The form's values

  /** formData.TryGetValue(key): the values appended under `key`, compared ignoring case as the
      accumulator's dictionary does, in order. */
  function Values(entries: seq<FormEntry>, key: string): (vs: seq<string>)
    ensures |vs| <= |entries|
    ensures vs == [] <==> forall k :: 0 <= k < |entries| ==> !EqualsIgnoreCase(entries[k].key, key)
  {
    if entries == [] then []
    else
      var init := entries[..|entries| - 1];
      var e := entries[|entries| - 1];
      var prev := Values(init, key);
      assert prev == [] <==> forall k :: 0 <= k < |init| ==> !EqualsIgnoreCase(entries[k].key, key);
      if EqualsIgnoreCase(e.key, key) then prev + [e.value] else prev
  }

  /** A StringValues converted to string: the values joined by ','. */
  function AsString(vs: seq<string>): string
    requires vs != []
  {
    Join(vs, ',')
  }

  // -----------------------------------------------------------------------------------------
  // Resolving the parent and storing the record

  /** The directory Upload asks the database for: the directory part of the "path" value, with
      '\' turned into '/'; None when that part is null. Doubled separators are gone, so splitting
      it at '/' yields no empty component except one for a leading separator pair. */
  function ParentPath(path: string): (p: Option<string>)
    ensures p.None? <==> forall k :: 0 <= k < |path| ==> path[k] == ' '
    ensures p.Some? ==> '\\' !in p.value
    ensures p.Some? ==> forall k :: 1 <= k < |p.value| - 1 ==> !(p.value[k] == '/' && p.value[k + 1] == '/')
    ensures p.Some? && DirectoryEnd(path) < 0 ==> p.value == ""
    ensures p.Some? && DirectoryEnd(path) >= 0 ==>
      Names(p.value) == Names(path[..DirectoryEnd(path)]) && (|p.value| > 0 ==> p.value[|p.value| - 1] != '/')
  {
    match DirectoryPart(path)
    case None => None
    case Some(dir) =>
      var p := ReplaceChar(dir, '\\', '/');
      assert forall k :: 0 <= k < |p| ==> p[k] != '\\';
      NamesKeepSeparatorKind(dir, p);
      Some(p)
  }

  /**
   * The parent resolution of Upload: a record with ParentId 0 gets the id of the directory the
   * "path" value names, created along the way if needed; a record with a parent, or without a
   * "path" value, is left as it is.
   */
  method ResolveParent(db: DatabaseService, file: BackedUpFile, entries: seq<FormEntry>, clock: Clock)
    returns (r: Result<BackedUpFile, Failure>)
    requires db.Valid()
    modifies db`directories, db`directoryHistory
    ensures db.Valid()
    ensures file.parentId != 0 || Values(entries, "path") == [] ==>
      r == Ok(file) && db.directories == old(db.directories) && db.directoryHistory == old(db.directoryHistory)
    ensures file.parentId == 0 && Values(entries, "path") != [] && ParentPath(AsString(Values(entries, "path"))).None? ==>
      r == Err(NullDirectory) && db.directories == old(db.directories) && db.directoryHistory == old(db.directoryHistory)
    ensures file.parentId == 0 && Values(entries, "path") != [] && ParentPath(AsString(Values(entries, "path"))).Some? ==>
      var walk := Walk(DirTables(old(db.directories), old(db.directoryHistory)),
                       Split(ParentPath(AsString(Values(entries, "path"))).value, '/'), 0, None, clock.Now());
      && r.Ok? && r.value == file.(parentId := r.value.parentId)
      && DirTables(db.directories, db.directoryHistory) == walk.0 && walk.1 == Some(r.value.parentId)
      && 1 <= r.value.parentId <= |db.directories|
  {
    if file.parentId != 0 {
      return Ok(file);
    }
    var values := Values(entries, "path");
    if values == [] {
      return Ok(file);
    }
    var p := ParentPath(AsString(values));
    if p.None? {
      return Err(NullDirectory);
    }
    var dir := db.GetDirectory(p.value, false, clock);
    r := Ok(file.(parentId := dir.dir.id));
  }

  /** The add-or-update branch: a record with an Id is an update, one without is added. */
  method StoreRecord(db: DatabaseService, file: BackedUpFile, clock: Clock) returns (r: Result<History, DbError>)
    requires db.Valid()
    modifies db`files, db`fileHistory
    ensures db.Valid()
    ensures file.id > 0 ==> db.files == old(db.files)
    ensures file.id > 0 && 1 <= file.id <= |db.files| ==>
      r == Ok(History(file.id, file.modified, clock.Now(), false)) && db.fileHistory == old(db.fileHistory) + [r.value]
    ensures file.id <= 0 && 1 <= file.parentId <= |db.directories| ==>
      && r == Ok(History(|old(db.files)| + 1, file.modified, clock.Now(), false))
      && db.files == old(db.files) + [FileRow(file.name, file.parentId)] && db.fileHistory == old(db.fileHistory) + [r.value]
    ensures r.Err? ==> db.files == old(db.files) && db.fileHistory == old(db.fileHistory)
    ensures file.id > 0 && !(1 <= file.id <= |db.files|) ==> r == Err(ForeignKeyViolation)
    ensures file.id <= 0 && file.parentId <= 0 ==> r == Err(InvalidData)
    ensures file.id <= 0 && file.parentId > |db.directories| ==> r == Err(ForeignKeyViolation)
    ensures r.Ok? ==> r.value.entityId == if file.id > 0 then file.id else |old(db.files)| + 1
  {
    if file.id > 0 {
      r := db.UpdateFile(file, clock);
    } else {
      r := db.AddFile(file, clock);
    }
  }

  /** The outcome of model binding the form onto the record. */
  datatype Binding = Bound | Unbound(modelStateValid: bool)

  /** What Upload answers: the record as JSON, a 400 with the reason, or an exception (a 500). */
  datatype Response = Json(file: BackedUpFile) | BadRequest(reason: Failure) | Thrown(reason: Failure)

  /** The form Upload goes on with once the request is vetted: multipart, with a usable boundary,
      and every section read. None when Upload has answered before that. */
  function VettedForm(contentType: Option<string>, boundary: Option<string>, sections: seq<Section>,
                      boundaryLengthLimit: int, valueCountLimit: int): Option<Form>
  {
    if IsMultipartContentType(contentType) && GetBoundary(boundary, boundaryLengthLimit).Ok? && ReadForm(sections, valueCountLimit).Ok?
    then Some(ReadForm(sections, valueCountLimit).value)
    else None
  }

  /** The record the first "backedUpFile" value decodes to; None when there is no such value or
      it decodes to null. */
  function RecordOf(entries: seq<FormEntry>, decode: string -> Option<BackedUpFile>): Option<BackedUpFile> {
    var records := Values(entries, "backedUpFile");
    if records == [] then None else decode(records[0])
  }

  /** The parent resolution leaves the record a parent: it has a ParentId already, or a "path"
      value whose directory part is not null. */
  predicate ParentKnown(rec: BackedUpFile, entries: seq<FormEntry>) {
    rec.parentId != 0 || (Values(entries, "path") != [] && ParentPath(AsString(Values(entries, "path"))).Some?)
  }

  /** StoreRecord takes the record (its ParentId 0 already resolved to a directory): an update
      names a stored file, an add names an existing parent. */
  predicate StoreAccepts(rec: BackedUpFile, fileCount: int, directoryCount: int) {
    if rec.id > 0 then rec.id <= fileCount else rec.parentId == 0 || 1 <= rec.parentId <= directoryCount
  }

  /** The key the stored record has: its own for an update, the next one for an add. */
  function StoredId(rec: BackedUpFile, fileCount: int): int {
    if rec.id > 0 then rec.id else fileCount + 1
  }

  /**
   * FileController.Upload. `boundary` is the content type's boundary parameter, `decode` the JSON
   * deserialiser, `binding` what TryUpdateModelAsync reports, and `destinationExists` whether the
   * backed-up copy's destination path is already taken.
   */
  method Upload(db: DatabaseService, contentType: Option<string>, boundary: Option<string>, sections: seq<Section>,
                boundaryLengthLimit: int, valueCountLimit: int, decode: string -> Option<BackedUpFile>,
                binding: Binding, destinationExists: bool, clock: Clock) returns (resp: Response)
    requires db.Valid()
    modifies db`directories, db`directoryHistory, db`files, db`fileHistory
    ensures db.Valid()
    // refusals before the form is read
    ensures !IsMultipartContentType(contentType) ==> resp == BadRequest(NotMultipart) && unchanged(db)
    ensures IsMultipartContentType(contentType) && GetBoundary(boundary, boundaryLengthLimit).Err? ==>
      resp == Thrown(GetBoundary(boundary, boundaryLengthLimit).error) && unchanged(db)
    ensures IsMultipartContentType(contentType) && GetBoundary(boundary, boundaryLengthLimit).Ok?
            && ReadForm(sections, valueCountLimit).Err? ==>
      resp == Thrown(ReadForm(sections, valueCountLimit).error) && unchanged(db)
    // the record and its parent
    ensures VettedForm(contentType, boundary, sections, boundaryLengthLimit, valueCountLimit).Some? ==>
      var form := VettedForm(contentType, boundary, sections, boundaryLengthLimit, valueCountLimit).value;
      RecordOf(form.entries, decode).None? ==> resp == Thrown(NullRecord) && unchanged(db)
    ensures VettedForm(contentType, boundary, sections, boundaryLengthLimit, valueCountLimit).Some? ==>
      var form := VettedForm(contentType, boundary, sections, boundaryLengthLimit, valueCountLimit).value;
      RecordOf(form.entries, decode).Some? && !ParentKnown(RecordOf(form.entries, decode).value, form.entries) ==>
        && resp == Thrown(if Values(form.entries, "path") == [] then NoParent else NullDirectory)
        && unchanged(db)
    ensures VettedForm(contentType, boundary, sections, boundaryLengthLimit, valueCountLimit).Some? ==>
      var form := VettedForm(contentType, boundary, sections, boundaryLengthLimit, valueCountLimit).value;
      RecordOf(form.entries, decode).Some? && RecordOf(form.entries, decode).value.parentId == 0
      && ParentKnown(RecordOf(form.entries, decode).value, form.entries) ==>
        var walk := Walk(DirTables(old(db.directories), old(db.directoryHistory)),
                         Split(ParentPath(AsString(Values(form.entries, "path"))).value, '/'), 0, None, clock.Now());
        && DirTables(db.directories, db.directoryHistory) == walk.0
        && (resp.Json? ==> walk.1 == Some(resp.file.parentId))
    ensures VettedForm(contentType, boundary, sections, boundaryLengthLimit, valueCountLimit).Some? ==>
      var form := VettedForm(contentType, boundary, sections, boundaryLengthLimit, valueCountLimit).value;
      RecordOf(form.entries, decode).Some? && RecordOf(form.entries, decode).value.parentId != 0 ==>
        db.directories == old(db.directories) && db.directoryHistory == old(db.directoryHistory)
    // binding, storing and the file copy
    ensures VettedForm(contentType, boundary, sections, boundaryLengthLimit, valueCountLimit).Some? ==>
      var form := VettedForm(contentType, boundary, sections, boundaryLengthLimit, valueCountLimit).value;
      RecordOf(form.entries, decode).Some? && ParentKnown(RecordOf(form.entries, decode).value, form.entries) ==>
        var rec := RecordOf(form.entries, decode).value;
        && (binding.Unbound? ==> db.files == old(db.files) && db.fileHistory == old(db.fileHistory))
        && (binding == Unbound(false) ==> resp == BadRequest(InvalidModel))
        && (binding == Unbound(true) ==> resp.Json? && resp.file == rec.(parentId := resp.file.parentId))
        && (binding == Bound && !StoreAccepts(rec, |old(db.files)|, |old(db.directories)|) ==>
              && resp == BadRequest(Store(if rec.id <= 0 && rec.parentId < 0 then InvalidData else ForeignKeyViolation))
              && db.files == old(db.files) && db.fileHistory == old(db.fileHistory))
        && (binding == Bound && StoreAccepts(rec, |old(db.files)|, |old(db.directories)|) ==>
              && db.fileHistory == old(db.fileHistory) + [History(StoredId(rec, |old(db.files)|), rec.modified, clock.Now(), false)]
              && (rec.id > 0 ==> db.files == old(db.files))
              && (destinationExists ==> resp == BadRequest(DestinationExists))
              && (!destinationExists && !form.hasFile ==> resp == BadRequest(NoUploadedFile))
              && (!destinationExists && form.hasFile ==>
                    resp.Json? && resp.file == rec.(id := StoredId(rec, |old(db.files)|), parentId := resp.file.parentId)))
    // what every answered record satisfies
    ensures resp.Json? ==> resp.file.parentId != 0
    ensures resp.Json? ==>
      var form := VettedForm(contentType, boundary, sections, boundaryLengthLimit, valueCountLimit);
      && form.Some? && RecordOf(form.value.entries, decode).Some?
      && (RecordOf(form.value.entries, decode).value.parentId != 0 ==>
            resp.file.parentId == RecordOf(form.value.entries, decode).value.parentId)
    ensures db.files != old(db.files) || db.fileHistory != old(db.fileHistory) ==> binding == Bound
  {
    if !IsMultipartContentType(contentType) {
      return BadRequest(NotMultipart);
    }
    var b := GetBoundary(boundary, boundaryLengthLimit);
    if b.Err? {
      return Thrown(b.error);
    }
    var form := ReadSections(sections, valueCountLimit);
    if form.Err? {
      return Thrown(form.error);
    }
    var records := Values(form.value.entries, "backedUpFile");
    if records == [] {
      return Thrown(NullRecord);
    }
    var decoded := decode(records[0]);
    if decoded.None? {
      return Thrown(NullRecord);
    }
    var resolved := ResolveParent(db, decoded.value, form.value.entries, clock);
    if resolved.Err? {
      return Thrown(resolved.error);
    }
    var file := resolved.value;
    if file.parentId == 0 {
      return Thrown(NoParent);
    }
    if binding.Unbound? {
      if !binding.modelStateValid {
        return BadRequest(InvalidModel);
      }
      return Json(file);
    }
    var stored := StoreRecord(db, file, clock);
    if stored.Err? {
      return BadRequest(Store(stored.error));
    }
    if file.id <= 0 {
      file := file.(id := stored.value.entityId);
    }
    if destinationExists {
      return BadRequest(DestinationExists);
    }
    if !form.value.hasFile {
      return BadRequest(NoUploadedFile);
    }
    resp := Json(file);
  }
}
