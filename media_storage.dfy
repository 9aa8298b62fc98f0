/**
 * The stored media of the service and the two operations that change it:
 * a batch upload, which names every part after one shared identifier, and a
 * deletion of up to one file per directory. The three directories are one
 * map from (directory, file name) to the file's bytes.
 */
module MediaStorage {
  import opened MediaNaming

  newtype byte = b: int | 0 <= b < 0x100

  /** One part of a multipart upload: its field name, declared content type and bytes. */
  datatype Part = Part(name: string, contentType: string, content: seq<byte>)

  /** The files under the three directories. */
  type Store = map<StoragePath, seq<byte>>

  /** The answer of an upload (field name to stored name, or the failure) and the files afterwards. */
  datatype UploadOutcome = UploadOutcome(result: Result<map<string, string>>, files: Store)

  /** Where a part goes, as decided by the naming rules. */
  function Placement(customName: string, p: Part): Result<StoredFile> {
    CreateNewFile(customName, p.name, p.contentType)
  }

  /** The index of the first part the naming rules refuse, or the number of parts if none is refused. */
  function FirstRejected(customName: string, parts: seq<Part>): (k: nat)
    ensures k <= |parts|
    ensures forall i :: 0 <= i < k ==> Placement(customName, parts[i]).Ok?
    ensures k < |parts| ==> Placement(customName, parts[k]).Err?
  {
    if parts == [] || Placement(customName, parts[0]).Err? then 0
    else 1 + FirstRejected(customName, parts[1..])
  }

  /** The field names of a sequence of parts. */
  function PartNames(parts: seq<Part>): set<string> {
    set i | 0 <= i < |parts| :: parts[i].name
  }

  /** `n` is `{customName}.{ext}` with `ext` from the table of the category of field `tag`. */
  predicate IsBatchName(customName: string, tag: string, n: string) {
    && TagCategory(tag).Some?
    && |n| > |customName| + 1
    && n[..|customName|] == customName
    && n[|customName|] == '.'
    && n[|customName| + 1..] in TableFor(TagCategory(tag).value).Values
  }

  /**
   * Upload of the remaining `parts`, one at a time, into `files`, with the
   * names reported so far in `names`: a refused part ends the upload with its
   * error and leaves the files written before it in place; an accepted one
   * replaces any file at its path and its field's entry in the names.
   */
  function Upload(customName: string, parts: seq<Part>, files: Store, names: map<string, string>): (o: UploadOutcome)
    decreases |parts|
    ensures files.Keys <= o.files.Keys
  {
    if parts == [] then UploadOutcome(Ok(names), files)
    else
      var stored := Placement(customName, parts[0]);
      if stored.Err? then UploadOutcome(Err(stored.error), files)
      else
        Upload(customName, parts[1..],
               files[stored.value.storagePath := parts[0].content],
               names[parts[0].name := stored.value.fileName])
  }

  /**
   * A name that resolves to its directory itself rather than to a file in it:
   * resolving the empty name, or `.`, against a directory yields that directory.
   */
  predicate NamesDirectory(name: string) {
    name == "" || name == "."
  }

  /** No stored file has a name that would stand for its directory itself. */
  predicate WellFormed(files: Store) {
    forall p :: p in files ==> !NamesDirectory(p.fileName)
  }

  /** Whether a directory holds at least one file. */
  predicate HoldsFiles(files: Store, dir: Category) {
    exists p :: p in files && p.dir == dir
  }

  /**
   * Deleting `name` from `dir` fails. A name holding the NUL character is no
   * path, and resolving it fails. The file system never removes a directory
   * through a path ending in `.`. The empty name stands for the directory
   * itself, removed only when empty, and `..` for the parent of the three
   * directories, which always holds them.
   */
  predicate Refused(files: Store, dir: Category, name: string) {
    '\0' in name || name == "." || name == ".." || (name == "" && HoldsFiles(files, dir))
  }

  predicate Blocked(files: Store, dir: Category, name: Option<string>) {
    name.Some? && Refused(files, dir, name.value)
  }

  /** The error a refused deletion of `name` from `dir` reports. */
  function Refusal(dir: Category, name: string): MediaError {
    if '\0' in name then InvalidPath(name)
    else if name == "." then DirectoryNotDeletable(dir)
    else DirectoryNotEmpty(dir)
  }

  /**
   * One deletion of the file `name` in `dir`, if a name is given: a missing
   * file is no error, and a name the file system refuses to delete fails
   * with that refusal.
   */
  function DeleteEntry(files: Store, dir: Category, name: Option<string>): Result<Store> {
    if name.None? then Ok(files)
    else if Blocked(files, dir, name) then Err(Refusal(dir, name.value))
    else Ok(files - {StoragePath(dir, name.value)})
  }

  /** The answer of a deletion and the files afterwards. */
  datatype DeleteOutcome = DeleteOutcome(result: Result<()>, files: Store)

  /**
   * The three deletions in order (thumbnail, video, trailer); the first one
   * that fails ends the call, and the deletions before it stay done.
   */
  function Deletion(files: Store, thumbnailFile: Option<string>, videoFile: Option<string>,
                    trailerFile: Option<string>): (o: DeleteOutcome)
    ensures o.files.Keys <= files.Keys
    ensures forall p :: p in o.files ==> o.files[p] == files[p]
  {
    var afterThumbnail := DeleteEntry(files, Thumbnails, thumbnailFile);
    if afterThumbnail.Err? then DeleteOutcome(Err(afterThumbnail.error), files)
    else
      var afterVideo := DeleteEntry(afterThumbnail.value, Videos, videoFile);
      if afterVideo.Err? then DeleteOutcome(Err(afterVideo.error), afterThumbnail.value)
      else
        var afterTrailer := DeleteEntry(afterVideo.value, Trailers, trailerFile);
        if afterTrailer.Err? then DeleteOutcome(Err(afterTrailer.error), afterVideo.value)
        else DeleteOutcome(Ok(()), afterTrailer.value)
  }

  /** The files left after deleting the named files, each from its own directory only. */
  function AfterDeletion(files: Store, thumbnailFile: Option<string>, videoFile: Option<string>,
                         trailerFile: Option<string>): (r: Store)
    ensures r.Keys <= files.Keys
    ensures forall p :: p in r ==> r[p] == files[p]
    ensures forall p :: p in files ==>
      (p !in r <==>
         || (p.dir == Thumbnails && thumbnailFile == Some(p.fileName))
         || (p.dir == Videos && videoFile == Some(p.fileName))
         || (p.dir == Trailers && trailerFile == Some(p.fileName)))
  {
    var thumbnails := if thumbnailFile.Some? then {StoragePath(Thumbnails, thumbnailFile.value)} else {};
    var videos := if videoFile.Some? then {StoragePath(Videos, videoFile.value)} else {};
    var trailers := if trailerFile.Some? then {StoragePath(Trailers, trailerFile.value)} else {};
    files - thumbnails - videos - trailers
  }

  class MediaService {
    /** The contents of the thumbnails, videos and trailers directories. */
    var files: Store

    ghost predicate Valid()
      reads this
    {
      WellFormed(files)
    }

    constructor (existing: Store)
      requires WellFormed(existing)
      ensures Valid() && files == existing
    {
      files := existing;
    }

    /**
     * Stores every part of one upload under the one identifier `customName`,
     * in order, and answers the field name to stored name map; the first part
     * the naming rules refuse ends the call with that error.
     */
    method WriteMedia(customName: string, parts: seq<Part>) returns (r: Result<map<string, string>>)
      requires Valid()
      modifies this
      ensures Valid()
      ensures UploadOutcome(r, files) == Upload(customName, parts, old(files), map[])
    {
      UploadKeepsWellFormed(customName, parts, files, map[]);
      var names: map<string, string> := map[];
      var i := 0;
      while i < |parts|
        invariant 0 <= i <= |parts|
        invariant Upload(customName, parts[i..], files, names) == Upload(customName, parts, old(files), map[])
      {
        var part := parts[i];
        assert parts[i..][0] == part && parts[i..][1..] == parts[i + 1..];
        var storedFile := CreateNewFile(customName, part.name, part.contentType);
        if storedFile.Err? {
          return Err(storedFile.error);
        }
        // the copy replaces an existing file at the same path
        files := files[storedFile.value.storagePath := part.content];
        names := names[part.name := storedFile.value.fileName];
        i := i + 1;
      }
      assert parts[i..] == [];
      return Ok(names);
    }

    /**
     * Removes a file if it is there, and reports whether it was; a missing
     * file is not an error. A name with NUL, `.` and `..` are always
     * refused, and the empty name while its directory holds files; a refusal
     * changes nothing.
     */
    method DeleteIfExists(dir: Category, name: string) returns (r: Result<bool>)
      modifies this
      ensures r.Err? <==> Blocked(old(files), dir, Some(name))
      ensures r.Err? ==> r.error == Refusal(dir, name) && files == old(files)
      ensures r.Ok? ==> r.value == (StoragePath(dir, name) in old(files))
      ensures r.Ok? ==> files == old(files) - {StoragePath(dir, name)}
      ensures r.Ok? && NamesDirectory(name) ==> !r.value
    {
      if '\0' in name {
        return Err(InvalidPath(name));
      }
      if name == "." {
        return Err(DirectoryNotDeletable(dir));
      }
      if name == ".." || (name == "" && HoldsFiles(files, dir)) {
        return Err(DirectoryNotEmpty(dir));
      }
      r := Ok(StoragePath(dir, name) in files);
      files := files - {StoragePath(dir, name)};
    }

    /**
     * Deletes the thumbnail, the video and the trailer named, in that order,
     * each from its own directory; an absent name leaves its directory alone,
     * and the first refused deletion ends the call with its error.
     */
    method DeleteMedia(thumbnailFile: Option<string>, videoFile: Option<string>, trailerFile: Option<string>)
      returns (r: Result<()>)
      requires Valid()
      modifies this
      ensures Valid()
      ensures DeleteOutcome(r, files) == Deletion(old(files), thumbnailFile, videoFile, trailerFile)
    {
      if thumbnailFile.Some? {
        var deleted := DeleteIfExists(Thumbnails, thumbnailFile.value);
        if deleted.Err? {
          return Err(deleted.error);
        }
      }
      if videoFile.Some? {
        var deleted := DeleteIfExists(Videos, videoFile.value);
        if deleted.Err? {
          return Err(deleted.error);
        }
      }
      if trailerFile.Some? {
        var deleted := DeleteIfExists(Trailers, trailerFile.value);
        if deleted.Err? {
          return Err(deleted.error);
        }
      }
      return Ok(());
    }
  }

  /** An upload keeps the store well formed: every name it writes is `{id}.{ext}`, at least two characters. */
  lemma {:induction false} UploadKeepsWellFormed(customName: string, parts: seq<Part>, files: Store,
                                                 names: map<string, string>)
    requires WellFormed(files)
    ensures WellFormed(Upload(customName, parts, files, names).files)
  {
    if parts != [] && Placement(customName, parts[0]).Ok? {
      var p := parts[0];
      var stored := Placement(customName, p).value;
      CreateNewFileName(customName, p.name, p.contentType);
      assert !NamesDirectory(stored.storagePath.fileName);
      UploadKeepsWellFormed(customName, parts[1..], files[stored.storagePath := p.content],
                            names[p.name := stored.fileName]);
    }
  }

  // ---------------------------------------------------------------------
  // Properties of an upload.

  /**
   * An upload fails exactly when some part is refused; the error is that of
   * the first refused part, and the files written for the parts before it
   * stay (there is no rollback).
   */
  lemma {:induction false} UploadStopsAtFirstRejected(customName: string, parts: seq<Part>, files: Store,
                                                      names: map<string, string>)
    ensures var o := Upload(customName, parts, files, names);
      var k := FirstRejected(customName, parts);
      && (o.result.Err? <==> k < |parts|)
      && (k < |parts| ==>
            && o.result.error == Placement(customName, parts[k]).error
            && Upload(customName, parts[..k], files, names).result.Ok?
            && o.files == Upload(customName, parts[..k], files, names).files)
  {
    if parts != [] && Placement(customName, parts[0]).Ok? {
      var stored := Placement(customName, parts[0]).value;
      var files' := files[stored.storagePath := parts[0].content];
      var names' := names[parts[0].name := stored.fileName];
      UploadStopsAtFirstRejected(customName, parts[1..], files', names');
      var k := FirstRejected(customName, parts);
      if k < |parts| {
        assert parts[..k][0] == parts[0];
        assert parts[..k][1..] == parts[1..][..k - 1];
      }
    } else if parts != [] {
      assert parts[..0] == [];
    }
  }

  /** Every stored name an upload reports is the batch identifier with an extension from its tag's table. */
  lemma {:induction false} UploadNamesShareIdentifier(customName: string, parts: seq<Part>, files: Store,
                                                      names: map<string, string>)
    requires forall t :: t in names ==> IsBatchName(customName, t, names[t])
    ensures var o := Upload(customName, parts, files, names);
      o.result.Ok? ==> forall t :: t in o.result.value ==> IsBatchName(customName, t, o.result.value[t])
  {
    if parts != [] && Placement(customName, parts[0]).Ok? {
      var p := parts[0];
      var stored := Placement(customName, p).value;
      CreateNewFileName(customName, p.name, p.contentType);
      var names' := names[p.name := stored.fileName];
      assert IsBatchName(customName, p.name, stored.fileName);
      UploadNamesShareIdentifier(customName, parts[1..], files[stored.storagePath := p.content], names');
    }
  }

  /** A successful upload reports one entry per field name among the parts, besides those it started with. */
  lemma {:induction false} UploadReportsEveryPart(customName: string, parts: seq<Part>, files: Store,
                                                  names: map<string, string>)
    ensures var o := Upload(customName, parts, files, names);
      o.result.Ok? ==> o.result.value.Keys == names.Keys + PartNames(parts)
  {
    if parts != [] && Placement(customName, parts[0]).Ok? {
      var p := parts[0];
      var stored := Placement(customName, p).value;
      UploadReportsEveryPart(customName, parts[1..], files[stored.storagePath := p.content],
                             names[p.name := stored.fileName]);
      assert PartNames(parts) == {p.name} + PartNames(parts[1..]) by {
        forall n | n in PartNames(parts) ensures n in {p.name} + PartNames(parts[1..]) {
          var i :| 0 <= i < |parts| && parts[i].name == n;
          if i > 0 { assert parts[1..][i - 1] == parts[i]; }
        }
        forall n | n in PartNames(parts[1..]) ensures n in PartNames(parts) {
          var i :| 0 <= i < |parts[1..]| && parts[1..][i].name == n;
          assert parts[i + 1] == parts[1..][i];
        }
      }
    }
  }

  /** An entry for a field no remaining part carries is reported unchanged. */
  lemma {:induction false} UploadKeepsOtherNames(customName: string, parts: seq<Part>, files: Store,
                                                 names: map<string, string>, tag: string)
    requires tag in names
    requires forall j :: 0 <= j < |parts| ==> parts[j].name != tag
    ensures var o := Upload(customName, parts, files, names);
      o.result.Ok? ==> tag in o.result.value && o.result.value[tag] == names[tag]
  {
    if parts != [] && Placement(customName, parts[0]).Ok? {
      var p := parts[0];
      var stored := Placement(customName, p).value;
      assert p.name != tag;
      assert forall j :: 0 <= j < |parts[1..]| ==> parts[1..][j] == parts[j + 1];
      UploadKeepsOtherNames(customName, parts[1..], files[stored.storagePath := p.content],
                            names[p.name := stored.fileName], tag);
    }
  }

  /**
   * When an upload succeeds, the entry of a field is the stored name of the
   * last part with that field name: a later part of the same name overwrites
   * the entry of an earlier one.
   */
  lemma {:induction false} UploadReportsLastPartOfName(customName: string, parts: seq<Part>, files: Store,
                                                       names: map<string, string>, i: nat)
    requires i < |parts|
    requires forall j :: i < j < |parts| ==> parts[j].name != parts[i].name
    ensures var o := Upload(customName, parts, files, names);
      o.result.Ok? ==>
        && Placement(customName, parts[i]).Ok?
        && parts[i].name in o.result.value
        && o.result.value[parts[i].name] == Placement(customName, parts[i]).value.fileName
  {
    if Placement(customName, parts[0]).Ok? {
      var p := parts[0];
      var stored := Placement(customName, p).value;
      var files' := files[stored.storagePath := p.content];
      var names' := names[p.name := stored.fileName];
      if i == 0 {
        assert forall j :: 0 <= j < |parts[1..]| ==> parts[1..][j] == parts[j + 1];
        UploadKeepsOtherNames(customName, parts[1..], files', names', p.name);
      } else {
        assert forall j :: i - 1 < j < |parts[1..]| ==> parts[1..][j] == parts[j + 1];
        UploadReportsLastPartOfName(customName, parts[1..], files', names', i - 1);
        assert parts[1..][i - 1] == parts[i];
      }
    }
  }

  /** A path no accepted part is written to keeps its file (or its absence). */
  lemma {:induction false} UploadKeepsOtherFiles(customName: string, parts: seq<Part>, files: Store,
                                                 names: map<string, string>, path: StoragePath)
    requires forall j :: 0 <= j < FirstRejected(customName, parts) ==>
      Placement(customName, parts[j]).value.storagePath != path
    ensures var o := Upload(customName, parts, files, names);
      && (path in o.files <==> path in files)
      && (path in files ==> o.files[path] == files[path])
  {
    if parts != [] && Placement(customName, parts[0]).Ok? {
      var p := parts[0];
      var stored := Placement(customName, p).value;
      assert stored.storagePath != path;
      assert forall j :: 0 <= j < FirstRejected(customName, parts[1..]) ==> parts[1..][j] == parts[j + 1];
      UploadKeepsOtherFiles(customName, parts[1..], files[stored.storagePath := p.content],
                            names[p.name := stored.fileName], path);
    }
  }

  /**
   * Among the accepted parts, the last one written to a path decides that
   * file's content: the copy replaces any file already there.
   */
  lemma {:induction false} UploadLastWriterWins(customName: string, parts: seq<Part>, files: Store,
                                                names: map<string, string>, i: nat)
    requires i < FirstRejected(customName, parts)
    requires forall j :: i < j < FirstRejected(customName, parts) ==>
      Placement(customName, parts[j]).value.storagePath != Placement(customName, parts[i]).value.storagePath
    ensures var o := Upload(customName, parts, files, names);
      var path := Placement(customName, parts[i]).value.storagePath;
      path in o.files && o.files[path] == parts[i].content
  {
    var p := parts[0];
    var stored := Placement(customName, p).value;
    var files' := files[stored.storagePath := p.content];
    var names' := names[p.name := stored.fileName];
    var k := FirstRejected(customName, parts);
    assert forall j :: 0 <= j < k - 1 ==> parts[1..][j] == parts[j + 1];
    if i == 0 {
      UploadKeepsOtherFiles(customName, parts[1..], files', names', stored.storagePath);
    } else {
      assert parts[1..][i - 1] == parts[i];
      UploadLastWriterWins(customName, parts[1..], files', names', i - 1);
    }
  }

  /** A single `video/mp4` video part is reported as `{id}.mp4` and its bytes are stored there. */
  lemma SingleVideoUpload(customName: string, content: seq<byte>, files: Store)
    ensures Upload(customName, [Part("videoFile", "video/mp4", content)], files, map[]) ==
      UploadOutcome(Ok(map["videoFile" := customName + ".mp4"]),
                    files[StoragePath(Videos, customName + ".mp4") := content])
  {
    var part := Part("videoFile", "video/mp4", content);
    var name := customName + ".mp4";
    assert customName + "." + VideoContentTypes["video/mp4"] == name;
    assert Placement(customName, part) == Ok(StoredFile(name, StoragePath(Videos, name)));
    assert [part][1..] == [];
  }

  // ---------------------------------------------------------------------
  // Properties of a deletion.

  /** Deleting from one directory never changes whether another directory holds files. */
  lemma {:induction false} DeletionKeepsOtherDirectories(files: Store, dir: Category, name: string, other: Category)
    requires dir != other
    ensures HoldsFiles(files - {StoragePath(dir, name)}, other) == HoldsFiles(files, other)
  {
    if HoldsFiles(files, other) {
      var p :| p in files && p.dir == other;
      assert p in files - {StoragePath(dir, name)};
    }
  }

  /**
   * A deletion fails exactly when the file system refuses one of the names,
   * with the error of the first refused name in the order
   * thumbnails, videos, trailers; the deletions before it stay done, and those
   * after it are not made. Otherwise it removes exactly the named files.
   */
  lemma {:induction false} DeletionOutcomes(files: Store, thumbnailFile: Option<string>, videoFile: Option<string>,
                                            trailerFile: Option<string>)
    ensures var o := Deletion(files, thumbnailFile, videoFile, trailerFile);
      && (Blocked(files, Thumbnails, thumbnailFile) ==>
            o == DeleteOutcome(Err(Refusal(Thumbnails, thumbnailFile.value)), files))
      && (!Blocked(files, Thumbnails, thumbnailFile) && Blocked(files, Videos, videoFile) ==>
            o == DeleteOutcome(Err(Refusal(Videos, videoFile.value)), AfterDeletion(files, thumbnailFile, None, None)))
      && (!Blocked(files, Thumbnails, thumbnailFile) && !Blocked(files, Videos, videoFile)
          && Blocked(files, Trailers, trailerFile) ==>
            o == DeleteOutcome(Err(Refusal(Trailers, trailerFile.value)), AfterDeletion(files, thumbnailFile, videoFile, None)))
      && (!Blocked(files, Thumbnails, thumbnailFile) && !Blocked(files, Videos, videoFile)
          && !Blocked(files, Trailers, trailerFile) ==>
            o == DeleteOutcome(Ok(()), AfterDeletion(files, thumbnailFile, videoFile, trailerFile)))
  {
    var f1 := AfterDeletion(files, thumbnailFile, None, None);
    var f2 := AfterDeletion(files, thumbnailFile, videoFile, None);
    if thumbnailFile.Some? {
      DeletionKeepsOtherDirectories(files, Thumbnails, thumbnailFile.value, Videos);
      DeletionKeepsOtherDirectories(files, Thumbnails, thumbnailFile.value, Trailers);
      assert f1 == files - {StoragePath(Thumbnails, thumbnailFile.value)};
    } else {
      assert f1 == files;
    }
    if videoFile.Some? {
      DeletionKeepsOtherDirectories(f1, Videos, videoFile.value, Trailers);
      assert f2 == f1 - {StoragePath(Videos, videoFile.value)};
    } else {
      assert f2 == f1;
    }
    if trailerFile.Some? {
      assert AfterDeletion(files, thumbnailFile, videoFile, trailerFile) == f2 - {StoragePath(Trailers, trailerFile.value)};
    } else {
      assert AfterDeletion(files, thumbnailFile, videoFile, trailerFile) == f2;
    }
  }

  /** A deletion only empties directories: one that holds files afterwards held them before. */
  lemma {:induction false} HoldsFilesAfterDeletion(files: Store, thumbnailFile: Option<string>,
                                                   videoFile: Option<string>, trailerFile: Option<string>,
                                                   dir: Category)
    ensures HoldsFiles(AfterDeletion(files, thumbnailFile, videoFile, trailerFile), dir) ==> HoldsFiles(files, dir)
    ensures (dir == Thumbnails ==> thumbnailFile.None?) && (dir == Videos ==> videoFile.None?)
            && (dir == Trailers ==> trailerFile.None?) ==>
              HoldsFiles(AfterDeletion(files, thumbnailFile, videoFile, trailerFile), dir) == HoldsFiles(files, dir)
  {
    var after := AfterDeletion(files, thumbnailFile, videoFile, trailerFile);
    if HoldsFiles(after, dir) {
      var p :| p in after && p.dir == dir;
      assert p in files;
    }
    if (dir == Thumbnails ==> thumbnailFile.None?) && (dir == Videos ==> videoFile.None?)
       && (dir == Trailers ==> trailerFile.None?) && HoldsFiles(files, dir) {
      var p :| p in files && p.dir == dir;
      assert p in after;
    }
  }

  /**
   * Deleting the same names a second time gives the same answer and the same
   * files as the first time: a missing file is no error, and a refused
   * deletion is refused again.
   */
  lemma {:induction false} DeletionIsIdempotent(files: Store, thumbnailFile: Option<string>, videoFile: Option<string>,
                                                trailerFile: Option<string>)
    ensures var once := Deletion(files, thumbnailFile, videoFile, trailerFile);
      Deletion(once.files, thumbnailFile, videoFile, trailerFile) == once
  {
    DeletionOutcomes(files, thumbnailFile, videoFile, trailerFile);
    if Blocked(files, Thumbnails, thumbnailFile) {
    } else if Blocked(files, Videos, videoFile) {
      RepeatedDeletionRefusedAtVideos(files, thumbnailFile, videoFile, trailerFile);
    } else if Blocked(files, Trailers, trailerFile) {
      RepeatedDeletionRefusedAtTrailers(files, thumbnailFile, videoFile, trailerFile);
    } else {
      RepeatedDeletionDone(files, thumbnailFile, videoFile, trailerFile);
    }
  }

  /** After a first call refused at the videos, a second one is refused there too and removes nothing more. */
  lemma {:induction false} RepeatedDeletionRefusedAtVideos(files: Store, thumbnailFile: Option<string>,
                                                           videoFile: Option<string>, trailerFile: Option<string>)
    requires !Blocked(files, Thumbnails, thumbnailFile) && Blocked(files, Videos, videoFile)
    ensures var after := AfterDeletion(files, thumbnailFile, None, None);
      Deletion(after, thumbnailFile, videoFile, trailerFile) == DeleteOutcome(Err(Refusal(Videos, videoFile.value)), after)
  {
    var after := AfterDeletion(files, thumbnailFile, None, None);
    HoldsFilesAfterDeletion(files, thumbnailFile, None, None, Thumbnails);
    HoldsFilesAfterDeletion(files, thumbnailFile, None, None, Videos);
    NothingLeftToDelete(files, thumbnailFile, None, None, after, Thumbnails, thumbnailFile);
    assert Blocked(after, Videos, videoFile);
  }

  /** After a first call refused at the trailers, a second one is refused there too and removes nothing more. */
  lemma {:induction false} RepeatedDeletionRefusedAtTrailers(files: Store, thumbnailFile: Option<string>,
                                                             videoFile: Option<string>, trailerFile: Option<string>)
    requires !Blocked(files, Thumbnails, thumbnailFile) && !Blocked(files, Videos, videoFile)
    requires Blocked(files, Trailers, trailerFile)
    ensures var after := AfterDeletion(files, thumbnailFile, videoFile, None);
      Deletion(after, thumbnailFile, videoFile, trailerFile) == DeleteOutcome(Err(Refusal(Trailers, trailerFile.value)), after)
  {
    var after := AfterDeletion(files, thumbnailFile, videoFile, None);
    HoldsFilesAfterDeletion(files, thumbnailFile, videoFile, None, Thumbnails);
    HoldsFilesAfterDeletion(files, thumbnailFile, videoFile, None, Videos);
    HoldsFilesAfterDeletion(files, thumbnailFile, videoFile, None, Trailers);
    NothingLeftToDelete(files, thumbnailFile, videoFile, None, after, Thumbnails, thumbnailFile);
    NothingLeftToDelete(files, thumbnailFile, videoFile, None, after, Videos, videoFile);
    assert Blocked(after, Trailers, trailerFile);
  }

  /** After a first call that succeeded, a second one succeeds and removes nothing more. */
  lemma {:induction false} RepeatedDeletionDone(files: Store, thumbnailFile: Option<string>,
                                                videoFile: Option<string>, trailerFile: Option<string>)
    requires !Blocked(files, Thumbnails, thumbnailFile) && !Blocked(files, Videos, videoFile)
    requires !Blocked(files, Trailers, trailerFile)
    ensures var after := AfterDeletion(files, thumbnailFile, videoFile, trailerFile);
      Deletion(after, thumbnailFile, videoFile, trailerFile) == DeleteOutcome(Ok(()), after)
  {
    var after := AfterDeletion(files, thumbnailFile, videoFile, trailerFile);
    HoldsFilesAfterDeletion(files, thumbnailFile, videoFile, trailerFile, Thumbnails);
    HoldsFilesAfterDeletion(files, thumbnailFile, videoFile, trailerFile, Videos);
    HoldsFilesAfterDeletion(files, thumbnailFile, videoFile, trailerFile, Trailers);
    NothingLeftToDelete(files, thumbnailFile, videoFile, trailerFile, after, Thumbnails, thumbnailFile);
    NothingLeftToDelete(files, thumbnailFile, videoFile, trailerFile, after, Videos, videoFile);
    NothingLeftToDelete(files, thumbnailFile, videoFile, trailerFile, after, Trailers, trailerFile);
  }

  /** Deleting a name a second time from the files left by the first deletion finds nothing to remove. */
  lemma NothingLeftToDelete(files: Store, thumbnailFile: Option<string>, videoFile: Option<string>,
                            trailerFile: Option<string>, after: Store, dir: Category, name: Option<string>)
    requires after == AfterDeletion(files, thumbnailFile, videoFile, trailerFile)
    requires name.Some? ==> name == (match dir case Thumbnails => thumbnailFile
                                               case Videos => videoFile
                                               case Trailers => trailerFile)
    requires !Blocked(after, dir, name)
    ensures DeleteEntry(after, dir, name) == Ok(after)
  {
    if name.Some? {
      var p := StoragePath(dir, name.value);
      assert p !in after;
      assert after - {p} == after;
    }
  }

  /**
   * The name `.` is refused even where nothing else would stop the call: with
   * an empty thumbnails directory, `.` as the thumbnail fails the call before
   * the video is deleted.
   */
  lemma DotNameStopsDeletion()
    ensures var files := map[StoragePath(Videos, "v.mp4") := []];
      Deletion(files, Some("."), Some("v.mp4"), None) == DeleteOutcome(Err(DirectoryNotDeletable(Thumbnails)), files)
  {
  }

  /** A thumbnail name holding NUL fails the call before the video is deleted. */
  lemma NulNameStopsDeletion()
    ensures var files := map[StoragePath(Videos, "v.mp4") := []];
      Deletion(files, Some("a\0b"), Some("v.mp4"), None) == DeleteOutcome(Err(InvalidPath("a\0b")), files)
  {
  }

  /** With no names given nothing is deleted and the deletion succeeds. */
  lemma DeletionOfNothing(files: Store)
    ensures Deletion(files, None, None, None) == DeleteOutcome(Ok(()), files)
  {
  }
}
