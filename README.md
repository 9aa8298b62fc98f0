# Media hub upload, storage and streaming rules in Dafny

This project models the core of a media hub service, which stores uploaded
videos, trailers and thumbnails and streams videos back in slices.

- **Naming** (`MediaNaming`, in `media_naming.dfy`) covers the two fixed tables from MIME type to
  extension. Images go to thumbnails; videos go to videos and trailers. It also covers the mapping
  from a directory name to a directory (`getFilePath`). Finally it covers how one uploaded part is
  named and placed (`createNewFile`): the field tag picks the directory, and the tag's table must
  hold the declared content type. The name is `{batch id}.{extension from the table}`. A failure is
  an unsupported-video-format, unsupported-image-format or unsupported-tag error, and each error
  carries the offending value.
- **Storage** (`MediaStorage`, in `media_storage.dfy`): the class `MediaService` holds the three
  directories as one map from (directory, file name) to bytes. Its invariant is that no stored
  name is empty or `.`, because such a name resolves to the directory itself. The invariant only
  rules out starting stores that no real directory could hold; no other contract depends on it.
  - `WriteMedia` stores the parts of one upload in order, all under one batch identifier. It
    overwrites files that already exist and records each field's stored name. The first refused
    part ends the call, and files written before it stay. The method is proved equal to the
    recursive specification `Upload`, and the lemmas about the upload are proved about `Upload`.
  - `DeleteMedia` deletes up to one file per directory, in the order thumbnail, video, trailer.
    An absent name leaves its directory untouched, and a missing file is not an error. A name that
    is empty or `.` stands for the directory itself. The file system never removes a directory
    through a path whose last part is `.` (POSIX `rmdir` fails with EINVAL), so `.` always fails.
    The empty name fails while the directory still holds files (`DirectoryNotEmptyException`).
    The name `..` stands for the parent of the three directories, which always holds them, so it
    always fails the same way. A name holding the NUL character is no path: resolving it fails
    (`InvalidPathException`). A failure ends the call, and the later deletions are not made.
- **Streaming** (`MediaController`, in `media_streaming.dfy`) computes the byte region that
  `contentStream` answers. It takes the first requested range, or the whole resource when none is
  requested, and cuts it down to at most 1,000,000 bytes. This is the single-range case of byte
  ranges (section 14.1.2 of RFC 9110), answered with 206 Partial Content (section 15.3.7 of
  RFC 9110).

Inputs that the program draws from its environment become parameters:
- the random UUID of an upload is the `customName` argument;
- the decoded multipart parts are a sequence of `Part` values;
- the files already on disk are the constructor's argument;
- the resource length and the range bounds (already resolved against that length) are arguments of
  `StreamRegion`.

The model follows the code as written:
- no file name is checked for separators or `..`, and no invalid-file-name error exists;
- deletion tests each name only for null, not for being empty, and checks nothing before it starts
  deleting;
- image and video formats fail with two distinct errors;
- a region's length is 0 when the resource is empty and no range is requested.

## Model

| member | source | states |
|---|---|---|
| MediaNaming.TablesDisjoint | mediahub/src/main/java/com/streamify/mediahub/services/MediaService.java:52-65 | no MIME type is in both the image table and the video table |
| MediaNaming.TableExtensionsAreTokens | mediahub/src/main/java/com/streamify/mediahub/services/MediaService.java:52-65 | every extension in either table is a non-empty lower-case alphanumeric token of at most four characters |
| MediaNaming.TableEntries | mediahub/src/main/java/com/streamify/mediahub/services/MediaService.java:52-65 | the image table's keys are exactly the six listed image types and the video table's keys exactly the seven listed video types; e.g. image/jpeg gives jpg and video/x-matroska gives mkv |
| MediaNaming.InContentTypesVideos | mediahub/src/main/java/com/streamify/mediahub/services/MediaService.java:97-99 | true exactly for keys of the video table; such a format is never an image type and its extension is a valid token |
| MediaNaming.InContentTypesImages | mediahub/src/main/java/com/streamify/mediahub/services/MediaService.java:101-103 | true exactly for keys of the image table; such a format is never a video type and its extension is a valid token |
| MediaNaming.GetFilePath | mediahub/src/main/java/com/streamify/mediahub/services/MediaService.java:80-95 | succeeds only for the names thumbnails, videos and trailers, resolving to the directory of that name with the file name unchanged; any other name fails with DirectoryNotFound |
| MediaNaming.GetFilePathOfDirName | mediahub/src/main/java/com/streamify/mediahub/services/MediaService.java:80-90 | resolving with the name of a directory always succeeds, in that directory |
| MediaNaming.CreateNewFile | mediahub/src/main/java/com/streamify/mediahub/services/MediaService.java:105-130 | an unknown tag fails with UnsupportedTag(tag); for a known tag it succeeds exactly when the format is in the tag's table (video table for videoFile and trailerFile, image table for thumbnailFile), else fails with the unsupported video or image error carrying the format; on success name and path are id.ext in the tag's directory; it never fails with DirectoryNotFound |
| MediaNaming.CreateNewFileName | mediahub/src/main/java/com/streamify/mediahub/services/MediaService.java:109-127 | an accepted file lies in its tag's directory under its own name, which is the identifier, a dot and an extension taken from the table (never from the client) |
| MediaNaming.StoredNameShape | mediahub/src/main/java/com/streamify/mediahub/services/MediaService.java:126-134 | with an identifier of letters, digits and hyphens (as a UUID's text is), every accepted name matches ^[A-Za-z0-9-]+\.[a-z0-9]+$ |
| MediaStorage.FirstRejected | mediahub/src/main/java/com/streamify/mediahub/services/MediaService.java:136-146 | the index of the first part the naming rules refuse: all parts before it are accepted, and it is refused or is the end |
| MediaStorage.Upload | mediahub/src/main/java/com/streamify/mediahub/services/MediaService.java:132-148 | an upload never removes a file that was there before |
| MediaStorage.AfterDeletion | mediahub/src/main/java/com/streamify/mediahub/services/MediaService.java:177-191 | the files after a deletion that succeeds: files are only removed and the rest keep their bytes; a file goes exactly when its own directory's argument names it |
| MediaStorage.Deletion | mediahub/src/main/java/com/streamify/mediahub/services/MediaService.java:177-191 | a deletion, failed or not, never adds a file or changes a file's bytes |
| MediaStorage.MediaService.constructor | mediahub/src/main/java/com/streamify/mediahub/services/MediaService.java:29-36 | the service starts on the files already in its three directories, none of them named empty or `.` |
| MediaStorage.MediaService.WriteMedia | mediahub/src/main/java/com/streamify/mediahub/services/MediaService.java:132-148 | the answer and the new files are those of Upload with the one identifier, starting from the old files and an empty name map; the store invariant is kept |
| MediaStorage.MediaService.DeleteIfExists | mediahub/src/main/java/com/streamify/mediahub/services/MediaService.java:180 | removes the file at the path if present and reports whether it was, changing nothing else; a name holding NUL is refused (InvalidPath), `.` is refused (DirectoryNotDeletable), `..` and, while the directory holds files, the empty name are refused (DirectoryNotEmpty), and a refusal changes nothing; a name standing for the directory never reports a removed file |
| MediaStorage.MediaService.DeleteMedia | mediahub/src/main/java/com/streamify/mediahub/services/MediaService.java:177-191 | the answer and the new files are those of Deletion for the three optional names; the store invariant is kept |
| MediaStorage.UploadStopsAtFirstRejected | mediahub/src/main/java/com/streamify/mediahub/services/MediaService.java:136-146 | an upload fails exactly when some part is refused, with the first refused part's error; the files are then those of a successful upload of the parts before it (no rollback) |
| MediaStorage.UploadNamesShareIdentifier | mediahub/src/main/java/com/streamify/mediahub/services/MediaService.java:134-142 | every stored name in a successful answer is the batch identifier, a dot and an extension from the table of that field's category |
| MediaStorage.UploadReportsEveryPart | mediahub/src/main/java/com/streamify/mediahub/services/MediaService.java:136-147 | a successful answer has exactly one entry per field name among the parts |
| MediaStorage.UploadKeepsOtherNames | mediahub/src/main/java/com/streamify/mediahub/services/MediaService.java:142 | an entry for a field that no later part carries is not changed |
| MediaStorage.UploadReportsLastPartOfName | mediahub/src/main/java/com/streamify/mediahub/services/MediaService.java:138-142 | the entry of a field is the stored name of the last part with that field name, so a later part overwrites an earlier entry |
| MediaStorage.UploadKeepsOtherFiles | mediahub/src/main/java/com/streamify/mediahub/services/MediaService.java:140-141 | a path that no accepted part is written to keeps its file, or stays absent |
| MediaStorage.UploadLastWriterWins | mediahub/src/main/java/com/streamify/mediahub/services/MediaService.java:140-141 | the file at an accepted part's path holds the bytes of the last accepted part written there (REPLACE_EXISTING) |
| MediaStorage.SingleVideoUpload | mediahub/src/main/java/com/streamify/mediahub/services/MediaService.java:132-148 | one videoFile part of type video/mp4 gives the answer {videoFile: id.mp4} and stores its bytes at videos/id.mp4 |
| MediaStorage.UploadKeepsWellFormed | mediahub/src/main/java/com/streamify/mediahub/services/MediaService.java:126-141 | an upload never stores a file named empty or `.`, since every name it writes is the identifier, a dot and an extension |
| MediaStorage.DeletionKeepsOtherDirectories | mediahub/src/main/java/com/streamify/mediahub/services/MediaService.java:179-187 | deleting a file from one directory does not change whether another directory holds files |
| MediaStorage.HoldsFilesAfterDeletion | mediahub/src/main/java/com/streamify/mediahub/services/MediaService.java:179-187 | a deletion only empties directories, and a directory whose argument is null keeps holding files if it did |
| MediaStorage.DeletionOutcomes | mediahub/src/main/java/com/streamify/mediahub/services/MediaService.java:177-191 | a deletion fails exactly when a name holds NUL, is `.` or `..`, or is empty while its directory holds files, with the error of the first such name in the order thumbnail, video, trailer; the deletions before it stay done and those after are not made; otherwise exactly the named files go |
| MediaStorage.DeletionIsIdempotent | mediahub/src/main/java/com/streamify/mediahub/services/MediaService.java:177-191 | deleting the same names a second time gives the same answer and the same files |
| MediaStorage.NothingLeftToDelete | mediahub/src/main/java/com/streamify/mediahub/services/MediaService.java:180-186 | deleting a name again from the files left by the first deletion removes nothing, unless it is refused |
| MediaStorage.RepeatedDeletionRefusedAtVideos | mediahub/src/main/java/com/streamify/mediahub/services/MediaService.java:177-189 | after a call refused at the videos directory, a second call is refused there too and leaves the files as they are |
| MediaStorage.RepeatedDeletionRefusedAtTrailers | mediahub/src/main/java/com/streamify/mediahub/services/MediaService.java:177-189 | after a call refused at the trailers directory, a second call is refused there too and leaves the files as they are |
| MediaStorage.RepeatedDeletionDone | mediahub/src/main/java/com/streamify/mediahub/services/MediaService.java:177-189 | after a call that succeeded, a second call succeeds and leaves the files as they are |
| MediaStorage.DotNameStopsDeletion | mediahub/src/main/java/com/streamify/mediahub/services/MediaService.java:177-191 | `.` as the thumbnail fails the call with an empty thumbnails directory too, and the named video stays |
| MediaStorage.NulNameStopsDeletion | mediahub/src/main/java/com/streamify/mediahub/services/MediaService.java:177-191 | a thumbnail name holding NUL fails the call with InvalidPath, and the named video stays |
| MediaStorage.DeletionOfNothing | mediahub/src/main/java/com/streamify/mediahub/services/MediaService.java:179-187 | with all three names null nothing is deleted and the call succeeds |
| MediaController.StreamRegion | mediahub/src/main/java/com/streamify/mediahub/controllers/MediaController.java:92-106 | the region starts where the first range starts (at 0 with no range), and its length is the requested length (whole resource, or end - start + 1) cut down to at most 1,000,000 |
| MediaController.RegionWithinResource | mediahub/src/main/java/com/streamify/mediahub/controllers/MediaController.java:98-105 | for bounds 0 <= start <= end < length the region lies inside the resource and is not empty; with no range it is empty only for an empty resource |
| MediaController.OnlyFirstRangeUsed | mediahub/src/main/java/com/streamify/mediahub/controllers/MediaController.java:92 | ranges after the first do not affect the region |
| MediaController.StreamRegionExamples | mediahub/src/main/java/com/streamify/mediahub/controllers/MediaController.java:98-105 | (5,000,000, no range) gives (0, 1,000,000); (500,000, no range) gives (0, 500,000); range 4,500,000-4,999,999 gives (4,500,000, 500,000); range 0-1,999,999 gives (0, 1,000,000) |
| MediaController.FollowUpsCoverResource | mediahub/src/main/java/com/streamify/mediahub/controllers/MediaController.java:101-105 | a client that asks again from where each answer ended gets consecutive 1,000,000-byte slices (the last shorter) covering the rest of the resource, one request per started million bytes |

## Left out

- Startup: the base-directory setting and the creation of the three directories are not modelled. The store starts as the constructor's map.
- Byte-level I/O: the copying of a part's input stream and the deletion of files on disk are not modelled. A write is an update of the map and a deletion a removal from it.
- I/O failures: `IOException` from a copy or a delete, and its wrapping in `RuntimeException`, are not modelled. The failures modelled in a deletion are a name that is no path (NUL), and the refusals to delete a directory: through a path ending in `.`, and while it holds files (the empty name, `..`). Every other write and deletion succeeds in the model, so a partly written file after a failed copy does not appear.
- `getMedia` and `transform`: the directory listing has no defined order, and `transform` only formats URLs.
- `getThumbnail` and `getVideoResource`: they only build resource handles for a path.
- Uploading in the controller: the metadata merge calls `hasUUID`, which is not part of this model, and the result is relayed to another server. `contentStream` obtains its file through `getResource`, which is not part of this model either, so the resource length is an input.
- Response building: content types, status codes, the `null` answer on `IOException` and the parsing of the Range header are not modelled. Range start and end are inputs, already resolved by the HTTP library.
- Path resolution: a store key is a (directory, name) pair, and the name is used verbatim, as the code uses it. In the program, a client-supplied name with separators resolves outside its directory, or (as `x/..` does) to the directory itself. The model does not represent this, and its "own directory" statements are about keys only. Only the names empty, `.` and `..` are modelled as standing for a directory, and a name holding NUL as one that does not resolve.
- MediaStorage.MediaService.DeleteIfExists: for the empty name in an empty directory, the program removes the directory and answers true; the model answers `Ok(false)` and changes nothing, because the store has no directories.
- MediaStorage.MediaService.DeleteMedia: when the empty name meets an empty directory, the program deletes the directory itself. The store has no directories, so the model records no change there. In the program, later uploads to that directory would then fail; in the model they succeed.
- MediaController.StreamRegion: the library's region object refuses a negative length, which a range starting past its end gives; the program then fails, while the model returns that negative length. `RegionWithinResource` states the region only for range bounds inside the resource.
- Null values: a missing content type is treated as a string absent from both tables, which is how the code's lookup treats it. A missing name for deletion is `None`.
- Identifier generation: the UUID's randomness, and therefore uniqueness across uploads, is not modelled.
- Integer width: lengths and offsets are unbounded integers. Java's `long` does not overflow for any real file length.
- Concurrency between requests is not modelled; the code does not coordinate it.
