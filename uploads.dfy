/**
 * The upload middleware: the image filter and the limits of the cover and
 * page uploads. How multer applies a configuration to the files of one
 * request is modelled file by file, in arrival order.
 */
module Uploads {
  import opened Base
  import opened Text
  import opened Http

  /** The defaults of `MAX_UPLOAD_MB` and `MAX_PAGES`. */
  const MaxUploadMb: nat := 10
  const MaxPages: nat := 100

  const InvalidFileType := "Invalid file type. Only image files are allowed."

  /** A multer configuration: a per-file byte cap and, optionally, a cap on the number of files. */
  datatype Limits = Limits(fileSize: nat, files: Option<nat>)

  const CoverLimits := Limits(MaxUploadMb * 1024 * 1024, None)
  const PagesLimits := Limits(MaxUploadMb * 1024 * 1024, Some(MaxPages))

  /** What the filter sees of an incoming file. */
  datatype Incoming = Incoming(mimetype: Option<string>, size: nat)

  /** `imageFilter`: `None` accepts the file, otherwise the error passed to the callback. */
  function ImageFilter(mimetype: Option<string>): (r: Option<AppError>)
    ensures r.None? <==> mimetype.Some? && |mimetype.value| >= 6 && mimetype.value[..6] == "image/"
    ensures r.Some? ==> r.value == PlainError(InvalidFileType)
  {
    if mimetype.None? || !StartsWith(mimetype.value, "image/") then Some(PlainError(InvalidFileType))
    else None
  }

  /**
   * The files of one request under `limits`: the first file that is one too
   * many, not an image, or too large stops the request with its error;
   * `None` admits every file.
   */
  function Admit(limits: Limits, files: seq<Incoming>): Option<AppError> {
    AdmitFrom(limits, files, 0)
  }

  function AdmitFrom(limits: Limits, files: seq<Incoming>, k: nat): Option<AppError>
    requires k <= |files|
    decreases |files| - k
  {
    if k == |files| then None
    else if limits.files.Some? && k >= limits.files.value then Some(MulterError("LIMIT_FILE_COUNT", "Too many files"))
    else if ImageFilter(files[k].mimetype).Some? then ImageFilter(files[k].mimetype)
    else if files[k].size > limits.fileSize then Some(MulterError("LIMIT_FILE_SIZE", "File too large"))
    else AdmitFrom(limits, files, k + 1)
  }

  /** A request gets through exactly when no file breaks the limits. */
  lemma {:induction false} AdmitFromOkIff(limits: Limits, files: seq<Incoming>, k: nat)
    requires k <= |files|
    ensures AdmitFrom(limits, files, k).None? <==>
      (limits.files.None? || |files| <= limits.files.value || k == |files|)
      && forall j :: k <= j < |files| ==> ImageFilter(files[j].mimetype).None? && files[j].size <= limits.fileSize
    decreases |files| - k
  {
    if k < |files| {
      AdmitFromOkIff(limits, files, k + 1);
    }
  }

  /**
   * A request is admitted exactly when every file is an image within the byte
   * cap and, where there is a count cap, there are no more files than it.
   */
  lemma AdmitOkIff(limits: Limits, files: seq<Incoming>)
    ensures Admit(limits, files).None? <==>
      (limits.files.None? || |files| <= limits.files.value)
      && forall j :: 0 <= j < |files| ==> ImageFilter(files[j].mimetype).None? && files[j].size <= limits.fileSize
  {
    AdmitFromOkIff(limits, files, 0);
  }

  /** Both uploads cap each file at ten mebibytes; only the page upload caps the count, at 100. */
  lemma UploadCaps()
    ensures CoverLimits.fileSize == PagesLimits.fileSize == 10485760
    ensures CoverLimits.files.None? && PagesLimits.files == Some(100)
  {
  }

  /** The page upload refuses a request of more than 100 files, whatever they are. */
  lemma TooManyPagesRefused(files: seq<Incoming>)
    requires |files| > MaxPages
    ensures Admit(PagesLimits, files).Some?
  {
    AdmitOkIff(PagesLimits, files);
  }
}
