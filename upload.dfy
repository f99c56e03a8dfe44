/**
 * The gate the image-upload middleware puts in front of the blog and
 * doctor create/edit routes: the `image` part must be present, have an
 * image mimetype and be at most 10 MiB.  Compression and the file write
 * are not modelled; `path` is where the compressed copy was written.
 */
module Upload {
  import opened Wrappers
  import opened Text

  datatype UploadedFile = UploadedFile(mimetype: string, size: nat, path: string)

  const MaxImageBytes: nat := 10 * 1024 * 1024

  predicate AcceptableImage(f: UploadedFile) {
    StartsWith(f.mimetype, "image/") && f.size <= MaxImageBytes
  }

  /** The 400 message the upload middleware answers with, or None when it passes the request on. */
  function UploadError(file: Option<UploadedFile>): (r: Option<string>)
    ensures r.None? <==> file.Some? && AcceptableImage(file.value)
    ensures file.None? ==> r == Some("Image is required")
    ensures file.Some? && !StartsWith(file.value.mimetype, "image/") ==> r == Some("File is not an image")
    ensures file.Some? && StartsWith(file.value.mimetype, "image/") && file.value.size > MaxImageBytes ==>
      r == Some("File too large")
  {
    match file
    case None => Some("Image is required")
    case Some(f) =>
      if !StartsWith(f.mimetype, "image/") then Some("File is not an image")
      else if f.size > MaxImageBytes then Some("File too large")
      else None
  }
}
