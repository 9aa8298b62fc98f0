/**
 * Upload naming rules of the media service: the two MIME-type tables, the
 * field-tag to storage-directory dispatch and the derivation of a stored
 * file's name and path from a batch identifier, a tag and a declared format.
 */
module MediaNaming {

  datatype Option<T> = None | Some(value: T)

  /** The three storage directories of the service. */
  datatype Category = Thumbnails | Videos | Trailers

  /** A file inside one of the three directories: the directory resolved with a name. */
  datatype StoragePath = StoragePath(dir: Category, fileName: string)

  /** What the service decides for one uploaded part. */
  datatype StoredFile = StoredFile(fileName: string, storagePath: StoragePath)

  /**
   * The failures the service raises, each with the value it reports: the
   * naming rules' four, a name that is no path at all, and the two refusals
   * of the file system to delete a directory: one that still holds files,
   * and one reached through a path whose last part is `.`.
   */
  datatype MediaError =
    | UnsupportedVideoFormat(format: string)
    | UnsupportedImageFormat(format: string)
    | UnsupportedTag(tag: string)
    | DirectoryNotFound
    | InvalidPath(name: string)
    | DirectoryNotEmpty(dir: Category)
    | DirectoryNotDeletable(dir: Category)

  datatype Result<T> = Ok(value: T) | Err(error: MediaError)

  /** MIME type to extension, for thumbnails. */
  const ImageContentTypes: map<string, string> := map[
    "image/jpeg" := "jpg",
    "image/png" := "png",
    "image/gif" := "gif",
    "image/bmp" := "bmp",
    "image/webp" := "webp",
    "image/svg+xml" := "svg"
  ]

  /** MIME type to extension, for videos and trailers. */
  const VideoContentTypes: map<string, string> := map[
    "video/mp4" := "mp4",
    "video/x-msvideo" := "avi",
    "video/quicktime" := "mov",
    "video/x-ms-wmv" := "wmv",
    "video/x-matroska" := "mkv",
    "video/webm" := "webm",
    "video/x-flv" := "flv"
  ]

  // ---------------------------------------------------------------------
  // Reference definitions: which directory and which table belong to a tag.

  /** The directory name of a category on disk. */
  function DirName(c: Category): string {
    match c
    case Thumbnails => "thumbnails"
    case Videos => "videos"
    case Trailers => "trailers"
  }

  /** The category an upload field tag stands for, if it is one of the three known tags. */
  function TagCategory(tag: string): Option<Category> {
    if tag == "videoFile" then Some(Videos)
    else if tag == "trailerFile" then Some(Trailers)
    else if tag == "thumbnailFile" then Some(Thumbnails)
    else None
  }

  /** Thumbnails take image types; videos and trailers take video types. */
  function TableFor(c: Category): map<string, string> {
    if c == Thumbnails then ImageContentTypes else VideoContentTypes
  }

  /** The error reported when a format is missing from the table of a category. */
  function FormatError(c: Category, format: string): MediaError {
    if c == Thumbnails then UnsupportedImageFormat(format) else UnsupportedVideoFormat(format)
  }

  predicate IsExtensionChar(ch: char) {
    'a' <= ch <= 'z' || '0' <= ch <= '9'
  }

  /** A short lower-case alphanumeric token. */
  predicate IsExtension(s: string) {
    0 < |s| <= 4 && forall i :: 0 <= i < |s| ==> IsExtensionChar(s[i])
  }

  predicate IsIdChar(ch: char) {
    'a' <= ch <= 'z' || 'A' <= ch <= 'Z' || '0' <= ch <= '9' || ch == '-'
  }

  /** The shape `^[A-Za-z0-9-]+\.[a-z0-9]+$` of a stored file name. */
  predicate HasStoredNameShape(s: string) {
    exists k :: 0 < k < |s| - 1 && s[k] == '.'
      && (forall i :: 0 <= i < k ==> IsIdChar(s[i]))
      && (forall i :: k < i < |s| ==> IsExtensionChar(s[i]))
  }

  // ---------------------------------------------------------------------
  // The operations of the service.

  /** Whether a format is a supported video type; a supported one never is an image type. */
  function InContentTypesVideos(format: string): (r: bool)
    ensures r <==> format in VideoContentTypes
    ensures r ==> format !in ImageContentTypes && IsExtension(VideoContentTypes[format])
  {
    TablesDisjoint();
    TableExtensionsAreTokens();
    format in VideoContentTypes
  }

  /** Whether a format is a supported image type; a supported one never is a video type. */
  function InContentTypesImages(format: string): (r: bool)
    ensures r <==> format in ImageContentTypes
    ensures r ==> format !in VideoContentTypes && IsExtension(ImageContentTypes[format])
  {
    TablesDisjoint();
    TableExtensionsAreTokens();
    format in ImageContentTypes
  }

  /** Resolves a file name inside a directory given by its name; other names are refused. */
  function GetFilePath(file: string, dir: string): (r: Result<StoragePath>)
    ensures r.Ok? ==> DirName(r.value.dir) == dir && r.value.fileName == file
    ensures r.Err? ==> r.error == DirectoryNotFound && forall c: Category :: DirName(c) != dir
  {
    if dir == "thumbnails" then Ok(StoragePath(Thumbnails, file))
    else if dir == "videos" then Ok(StoragePath(Videos, file))
    else if dir == "trailers" then Ok(StoragePath(Trailers, file))
    else Err(DirectoryNotFound)
  }

  /** The common tail of CreateNewFile: `{customName}.{extension}` placed in `outputDir`. */
  function NamedFile(customName: string, extension: string, outputDir: string): Result<StoredFile> {
    var fileName := customName + "." + extension;
    var storagePath := GetFilePath(fileName, outputDir);
    if storagePath.Ok? then Ok(StoredFile(fileName, storagePath.value)) else Err(storagePath.error)
  }

  /**
   * Decides where one uploaded part goes. The tag selects the category, the
   * category's table must hold the declared format, and the name is the batch
   * identifier followed by the table's extension for that format.
   */
  function CreateNewFile(customName: string, tag: string, format: string): (r: Result<StoredFile>)
    ensures TagCategory(tag).None? ==> r == Err(UnsupportedTag(tag))
    ensures TagCategory(tag).Some? ==>
      var c := TagCategory(tag).value;
      && (r.Ok? <==> format in TableFor(c))
      && (r.Err? ==> r.error == FormatError(c, format))
      && (r.Ok? ==>
            var name := customName + "." + TableFor(c)[format];
            r.value == StoredFile(name, StoragePath(c, name)))
    ensures r != Err(DirectoryNotFound)
  {
    if tag == "trailerFile" || tag == "videoFile" then
      if !InContentTypesVideos(format) then Err(UnsupportedVideoFormat(format))
      else
        var extension := VideoContentTypes[format];
        var outputDir := if tag == "trailerFile" then "trailers" else "videos";
        NamedFile(customName, extension, outputDir)
    else if tag == "thumbnailFile" then
      if !InContentTypesImages(format) then Err(UnsupportedImageFormat(format))
      else NamedFile(customName, ImageContentTypes[format], "thumbnails")
    else Err(UnsupportedTag(tag))
  }

  // ---------------------------------------------------------------------
  // Properties.

  /** No MIME type is both an image type and a video type. */
  lemma TablesDisjoint()
    ensures ImageContentTypes.Keys !! VideoContentTypes.Keys
  {
  }

  /** Every extension either table yields is a short lower-case alphanumeric token. */
  lemma TableExtensionsAreTokens()
    ensures forall m :: m in ImageContentTypes ==> IsExtension(ImageContentTypes[m])
    ensures forall m :: m in VideoContentTypes ==> IsExtension(VideoContentTypes[m])
  {
  }

  /** The tables hold exactly the listed MIME types, e.g. `image/jpeg` maps to `jpg` and `video/x-matroska` to `mkv`. */
  lemma TableEntries()
    ensures ImageContentTypes.Keys ==
      {"image/jpeg", "image/png", "image/gif", "image/bmp", "image/webp", "image/svg+xml"}
    ensures VideoContentTypes.Keys ==
      {"video/mp4", "video/x-msvideo", "video/quicktime", "video/x-ms-wmv",
       "video/x-matroska", "video/webm", "video/x-flv"}
    ensures ImageContentTypes["image/jpeg"] == "jpg" && ImageContentTypes["image/svg+xml"] == "svg"
    ensures VideoContentTypes["video/x-matroska"] == "mkv" && VideoContentTypes["video/quicktime"] == "mov"
  {
  }

  /** Resolving by a category's own directory name always succeeds, in that category. */
  lemma GetFilePathOfDirName(file: string, c: Category)
    ensures GetFilePath(file, DirName(c)) == Ok(StoragePath(c, file))
  {
  }

  /**
   * On success the stored name is the identifier, a dot and an extension taken
   * from the table of the tag's category (never from the client), and the
   * file lies in that category's directory under exactly that name.
   */
  lemma CreateNewFileName(customName: string, tag: string, format: string)
    requires CreateNewFile(customName, tag, format).Ok?
    ensures TagCategory(tag).Some?
    ensures var f := CreateNewFile(customName, tag, format).value;
      && f.storagePath.dir == TagCategory(tag).value
      && f.storagePath.fileName == f.fileName
      && |f.fileName| > |customName| + 1
      && f.fileName[..|customName|] == customName
      && f.fileName[|customName|] == '.'
      && f.fileName[|customName| + 1..] in TableFor(TagCategory(tag).value).Values
  {
    var c := TagCategory(tag).value;
    var f := CreateNewFile(customName, tag, format).value;
    var ext := TableFor(c)[format];
    TableExtensionsAreTokens();
    assert f.fileName == customName + "." + ext;
    assert f.fileName[|customName| + 1..] == ext;
  }

  /**
   * With an identifier made of letters, digits and hyphens (as the text of a
   * random UUID is), every accepted file name has the shape
   * `^[A-Za-z0-9-]+\.[a-z0-9]+$`.
   */
  lemma StoredNameShape(customName: string, tag: string, format: string)
    requires |customName| > 0 && forall i :: 0 <= i < |customName| ==> IsIdChar(customName[i])
    requires CreateNewFile(customName, tag, format).Ok?
    ensures HasStoredNameShape(CreateNewFile(customName, tag, format).value.fileName)
  {
    var c := TagCategory(tag).value;
    var ext := TableFor(c)[format];
    var s := CreateNewFile(customName, tag, format).value.fileName;
    TableExtensionsAreTokens();
    assert IsExtension(ext);
    assert s == customName + "." + ext;
    var k := |customName|;
    assert s[k] == '.';
    assert forall i :: 0 <= i < k ==> s[i] == customName[i];
    assert forall i :: k < i < |s| ==> s[i] == ext[i - k - 1];
  }
}
