/** What a handler hands back to the web framework, instead of rendering. */
module Http {
  import opened Base
  import opened Text
  import opened Store

  /** A one-shot message stored with `req.flash`. */
  datatype Flash = FlashError(message: string) | FlashSuccess(message: string)

  /** Where a redirect goes; `Back` is Express's `'back'` (the Referer). */
  datatype Location = Back | Path(path: string) | ManageComic(comic: Id)

  datatype Response =
    | Send(status: int, body: string)         // res.status(s).send(body)
    | Render(status: int, view: string)       // res.status(s).render(view)
    | Redirect(location: Location, flash: Option<Flash>)

  /** An error handed to `next(err)`: one raised by multer, or any other. */
  datatype AppError = MulterError(code: string, message: string) | PlainError(message: string)

  /** `req.get('Referer') || fallback`. */
  function RefererOr(referer: Option<string>, fallback: Location): Location {
    if Truthy(referer) then Path(referer.value) else fallback
  }

  /** `err.message || fallback`, for the message of a caught error. */
  function MessageOr(message: string, fallback: string): string {
    if message != "" then message else fallback
  }
}
