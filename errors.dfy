/**
 * The error middleware: multer errors become a flash message and a redirect
 * back, a request no route matched gets 404, and any other error 500.
 */
module Errors {
  import opened Base
  import opened Text
  import opened Http
  import opened Uploads

  /** What an error middleware does: answer, or call `next(err)`. */
  datatype Outcome = Respond(resp: Response) | PassOn(err: AppError)

  const FileTooLarge := "One or more files exceed the maximum allowed size."
  const TooManyFiles := "Too many files uploaded in a single request."
  const UploadFailed := "File upload error."

  /** `multerErrorHandler`. */
  function MulterErrorHandler(err: AppError): (r: Outcome)
    ensures r.PassOn? <==> err.PlainError?
    ensures r.PassOn? ==> r.err == err
    ensures r.Respond? ==>
      && r.resp.Redirect? && r.resp.location == Back
      && r.resp.flash.Some? && r.resp.flash.value.FlashError? && r.resp.flash.value.message != ""
    ensures err.MulterError? && err.code == "LIMIT_FILE_SIZE" ==> r.resp.flash.value.message == FileTooLarge
    ensures err.MulterError? && err.code == "LIMIT_FILE_COUNT" ==> r.resp.flash.value.message == TooManyFiles
    ensures err.MulterError? && err.code != "LIMIT_FILE_SIZE" && err.code != "LIMIT_FILE_COUNT" ==>
      r.resp.flash.value.message == (if err.message != "" then err.message else UploadFailed)
  {
    match err
    case PlainError(_) => PassOn(err)
    case MulterError(code, message) =>
      var text :=
        if code == "LIMIT_FILE_SIZE" then FileTooLarge
        else if code == "LIMIT_FILE_COUNT" then TooManyFiles
        else MessageOr(message, UploadFailed);
      Respond(Redirect(Back, Some(FlashError(text))))
  }

  /** `notFound`. */
  function NotFound(): (resp: Response)
    ensures resp.Render? && resp.status == 404
  {
    Render(404, "404")
  }

  /** `errorHandler`: hand over to Express once headers are out, otherwise 500. */
  function ErrorHandler(err: AppError, headersSent: bool): (r: Outcome)
    ensures r.PassOn? <==> headersSent
    ensures r.PassOn? ==> r.err == err
    ensures r.Respond? ==> r.resp == Send(500, "Internal Server Error")
  {
    if headersSent then PassOn(err) else Respond(Send(500, "Internal Server Error"))
  }

  /** The two handlers in the order the application mounts them. */
  function HandleError(err: AppError, headersSent: bool): Outcome {
    match MulterErrorHandler(err)
    case Respond(resp) => Respond(resp)
    case PassOn(e) => ErrorHandler(e, headersSent)
  }

  /**
   * A file of the wrong type is not a multer error: it passes the upload
   * handler and ends in a plain 500 rather than a flash message.
   */
  lemma WrongFileTypeEndsIn500(limits: Limits, files: seq<Incoming>, k: nat)
    requires k < |files| && (limits.files.None? || |files| <= limits.files.value)
    requires forall j :: 0 <= j < k ==> ImageFilter(files[j].mimetype).None? && files[j].size <= limits.fileSize
    requires ImageFilter(files[k].mimetype).Some?
    ensures Admit(limits, files).Some?
    ensures HandleError(Admit(limits, files).value, false) == Respond(Send(500, "Internal Server Error"))
  {
    AdmitReachesFile(limits, files, k, 0);
  }

  /** An oversized file is reported with the size message and a redirect back. */
  lemma OversizedFileRedirectsBack(limits: Limits, files: seq<Incoming>, k: nat)
    requires k < |files| && (limits.files.None? || |files| <= limits.files.value)
    requires forall j :: 0 <= j < k ==> ImageFilter(files[j].mimetype).None? && files[j].size <= limits.fileSize
    requires ImageFilter(files[k].mimetype).None? && files[k].size > limits.fileSize
    ensures Admit(limits, files).Some?
    ensures HandleError(Admit(limits, files).value, false) == Respond(Redirect(Back, Some(FlashError(FileTooLarge))))
  {
    AdmitReachesFile(limits, files, k, 0);
  }

  /** When every file before `k` is admissible, the verdict is the one on file `k`. */
  lemma {:induction false} AdmitReachesFile(limits: Limits, files: seq<Incoming>, k: nat, from: nat)
    requires from <= k < |files| && (limits.files.None? || |files| <= limits.files.value)
    requires forall j :: from <= j < k ==> ImageFilter(files[j].mimetype).None? && files[j].size <= limits.fileSize
    ensures AdmitFrom(limits, files, from) ==
      if ImageFilter(files[k].mimetype).Some? then ImageFilter(files[k].mimetype)
      else if files[k].size > limits.fileSize then Some(MulterError("LIMIT_FILE_SIZE", "File too large"))
      else AdmitFrom(limits, files, k + 1)
    decreases k - from
  {
    if from < k {
      AdmitReachesFile(limits, files, k, from + 1);
    }
  }
}
