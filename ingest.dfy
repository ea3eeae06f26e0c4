/**
 * The upload controller: creating a comic with its cover, and ingesting a
 * chapter (form checks, the page queue, and the commit to the comic).
 */
module Ingest {
  import opened Base
  import opened Text
  import opened Store
  import opened Http

  type Bytes = seq<bv8>

  /** One file of a multipart request, held in memory. */
  datatype UploadedFile = UploadedFile(buffer: Bytes, mimetype: Option<string>, size: nat)

  /** What the image CDN answers to one upload. */
  datatype UploadReply = UploadFailed(message: string) | Uploaded(secureUrl: Option<string>)

  /**
   * The collaborators the handlers call and whose code is not modelled: the
   * image optimiser (an `Err` is the message it throws), the CDN upload (the
   * page index goes into the generated public id), `new Date(s)` (`None` for an
   * Invalid Date) and `Number(s)` (`None` for NaN).
   */
  datatype Services = Services(
    optimizeCover: Bytes -> Result<Bytes, string>,
    optimizePage: Bytes -> Result<Bytes, string>,
    uploadCover: Bytes -> UploadReply,
    uploadPage: (Bytes, nat) -> UploadReply,
    parseDate: string -> Option<Millis>,
    toNumber: string -> Option<real>)

  /** `new Date(field)`; an absent field gives an Invalid Date. */
  function DateField(svc: Services, field: Option<string>): Option<Millis> {
    if field.Some? then svc.parseDate(field.value) else None
  }

  // ---------------------------------------------------------------- createComic

  datatype ComicForm = ComicForm(
    title: Option<string>,
    synopsis: Option<string>,
    tags: Option<string>,
    releaseDate: Option<string>,
    nsfw: bool,
    paywalled: bool)

  /** Why the database refused to save a comic. */
  datatype SaveFault = DuplicateKey | OtherSaveFault

  /** `.map((t) => t.trim()).filter(Boolean)`. */
  function CleanTags(parts: seq<string>): (tags: seq<string>)
    ensures forall t :: t in tags ==> t != "" && Trimmed(t)
  {
    if |parts| == 0 then []
    else
      TrimIsTrimmed(parts[0]);
      (if Trim(parts[0]) != "" then [Trim(parts[0])] else []) + CleanTags(parts[1..])
  }

  /** Every cleaned tag is the trim of some piece, and every non-blank piece gives a tag. */
  lemma {:induction false} CleanTagsArePieces(parts: seq<string>)
    ensures forall t :: t in CleanTags(parts) ==> exists p :: p in parts && t == Trim(p)
    ensures forall p :: p in parts && Trim(p) != "" ==> Trim(p) in CleanTags(parts)
  {
    if |parts| > 0 {
      CleanTagsArePieces(parts[1..]);
      var head := if Trim(parts[0]) != "" then [Trim(parts[0])] else [];
      assert CleanTags(parts) == head + CleanTags(parts[1..]);
      forall t | t in CleanTags(parts) ensures exists p :: p in parts && t == Trim(p) {
        if t in head {
          assert parts[0] in parts;
        } else {
          var p :| p in parts[1..] && t == Trim(p);
          assert p in parts;
        }
      }
      forall p | p in parts && Trim(p) != "" ensures Trim(p) in CleanTags(parts) {
        if p != parts[0] {
          assert p in parts[1..];
        }
      }
    }
  }

  /**
   * Cleaning works piece by piece and keeps the order of the pieces: a blank
   * piece contributes nothing, any other piece contributes its trim, and
   * repeated pieces give repeated tags.
   */
  lemma {:induction false} CleanTagsConcat(a: seq<string>, b: seq<string>)
    ensures CleanTags(a + b) == CleanTags(a) + CleanTags(b)
  {
    if |a| == 0 {
      assert a + b == b;
    } else {
      assert (a + b)[0] == a[0];
      assert (a + b)[1..] == a[1..] + b;
      CleanTagsConcat(a[1..], b);
    }
  }

  lemma CleanTagsOne(p: string)
    ensures CleanTags([p]) == if Trim(p) != "" then [Trim(p)] else []
  {
    assert [p][1..] == [];
  }

  /**
   * Tags typed as comma-free pieces joined by commas come back as those pieces
   * cleaned, in the order typed: with `CleanTagsConcat` and `CleanTagsOne`,
   * `"a, b ,a"` gives `["a", "b", "a"]`.
   */
  lemma TagsOfJoinedPieces(pieces: seq<string>)
    requires |pieces| >= 1
    requires forall k :: 0 <= k < |pieces| ==> ',' !in pieces[k]
    requires Join(pieces, ",") != ""
    ensures NormaliseTags(Some(Join(pieces, ","))) == CleanTags(pieces)
  {
    SplitJoin(pieces, ',');
  }

  /** `tags ? tags.split(',').map((t) => t.trim()).filter(Boolean) : []`. */
  function NormaliseTags(tags: Option<string>): seq<string> {
    if Truthy(tags) then CleanTags(Split(tags.value, ',')) else []
  }

  /** Every character of the trim of `s` is a character of `s`. */
  lemma TrimKeepsCharacters(s: string, c: char)
    requires c in Trim(s)
    ensures c in s
  {
    var i := LeadingBlanks(s);
    var r := Trim(s);
    var k :| 0 <= k < |r| && r[k] == c;
    assert r[k] == s[i + k];
  }

  /**
   * The stored tags are exactly the non-blank comma-separated pieces, trimmed:
   * none is empty, none has blank ends, none holds a comma, and absent or empty
   * input gives no tags.
   */
  lemma TagsAreTheCommaSeparatedPieces(tags: Option<string>)
    ensures !Truthy(tags) ==> NormaliseTags(tags) == []
    ensures Truthy(tags) ==>
      var pieces := Split(tags.value, ',');
      && (forall t :: t in NormaliseTags(tags) ==> exists p :: p in pieces && t == Trim(p))
      && (forall p :: p in pieces && Trim(p) != "" ==> Trim(p) in NormaliseTags(tags))
    ensures forall t :: t in NormaliseTags(tags) ==> t != "" && Trimmed(t) && ',' !in t
  {
    if Truthy(tags) {
      var pieces := Split(tags.value, ',');
      CleanTagsArePieces(pieces);
      forall t | t in NormaliseTags(tags) ensures ',' !in t {
        var p :| p in pieces && t == Trim(p);
        if ',' in t {
          TrimKeepsCharacters(p, ',');
        }
      }
    }
  }

  const CoverRequired := "A cover image is required."
  const NoCoverUrl := "Upload succeeded but no URL was returned from Cloudinary."
  const InvalidReleaseDate := "Invalid release date."
  const DuplicateComicTitle := "A comic with this title already exists."
  const ComicSaveFailed := "An unexpected error occurred while creating the comic."
  const ComicCreated := "Comic created successfully!"

  /**
   * `addComic`'s error message for a refused save. An empty title fails the
   * schema's `required` check before any insert, so it never reaches the
   * unique index and gets the generic message.
   */
  function ComicSaveError(title: string, fault: Option<SaveFault>): Option<string> {
    if title == "" then Some(ComicSaveFailed)
    else if fault == Some(DuplicateKey) then Some(DuplicateComicTitle)
    else if fault.Some? then Some(ComicSaveFailed)
    else None
  }

  /**
   * `createComic`. `imageCalls` counts calls to the optimiser and the CDN;
   * every outcome redirects to the uploads page.
   */
  method CreateComic(db: Db, svc: Services, user: Id, cover: Option<UploadedFile>, form: ComicForm,
                     fault: Option<SaveFault>)
    returns (resp: Response, imageCalls: nat)
    requires db.Valid()
    modifies db
    ensures db.Valid()
    ensures db.chapters == old(db.chapters) && db.users == old(db.users)
    ensures db.nextId == old(db.nextId) + (|db.comics| - |old(db.comics)|)
    ensures resp.Redirect? && resp.location == Path("/manage-uploads") && resp.flash.Some?
    ensures cover.None? ==>
      resp.flash == Some(FlashError(CoverRequired)) && imageCalls == 0 && db.comics == old(db.comics)
    ensures cover.Some? && svc.optimizeCover(cover.value.buffer).Err? ==>
      var m := svc.optimizeCover(cover.value.buffer).error;
      resp.flash == Some(FlashError(MessageOr(m, "An unexpected error occurred.")))
      && imageCalls == 1 && db.comics == old(db.comics)
    ensures cover.Some? && svc.optimizeCover(cover.value.buffer).Ok? ==>
      var reply := svc.uploadCover(svc.optimizeCover(cover.value.buffer).value);
      && imageCalls == 2
      && (reply.UploadFailed? ==>
            resp.flash == Some(FlashError(MessageOr(reply.message, "An unexpected error occurred.")))
            && db.comics == old(db.comics))
      && (reply.Uploaded? && !Truthy(reply.secureUrl) ==>
            resp.flash == Some(FlashError(NoCoverUrl)) && db.comics == old(db.comics))
      && (reply.Uploaded? && Truthy(reply.secureUrl) && DateField(svc, form.releaseDate).None? ==>
            resp.flash == Some(FlashError(InvalidReleaseDate)) && db.comics == old(db.comics))
      && (reply.Uploaded? && Truthy(reply.secureUrl) && DateField(svc, form.releaseDate).Some? ==>
            var saveError := ComicSaveError(TrimmedOrEmpty(form.title), fault);
            && (saveError.Some? ==> resp.flash == Some(FlashError(saveError.value)) && db.comics == old(db.comics))
            && (saveError.None? ==>
                  && resp.flash == Some(FlashSuccess(ComicCreated))
                  && db.comics == old(db.comics) + [Comic(old(db.nextId), TrimmedOrEmpty(form.title), user,
                       NormaliseTags(form.tags), reply.secureUrl.value, DateField(svc, form.releaseDate).value,
                       TrimmedOrEmpty(form.synopsis), form.nsfw, form.paywalled, [], ZeroStats)]))
  {
    if cover.None? {
      return Redirect(Path("/manage-uploads"), Some(FlashError(CoverRequired))), 0;
    }
    var optimized := svc.optimizeCover(cover.value.buffer);
    if optimized.Err? {
      return Redirect(Path("/manage-uploads"), Some(FlashError(MessageOr(optimized.error, "An unexpected error occurred.")))), 1;
    }
    imageCalls := 2;
    var reply := svc.uploadCover(optimized.value);
    if reply.UploadFailed? {
      return Redirect(Path("/manage-uploads"), Some(FlashError(MessageOr(reply.message, "An unexpected error occurred.")))), 2;
    }
    if !Truthy(reply.secureUrl) {
      return Redirect(Path("/manage-uploads"), Some(FlashError(NoCoverUrl))), 2;
    }
    var release := DateField(svc, form.releaseDate);
    if release.None? {
      return Redirect(Path("/manage-uploads"), Some(FlashError(InvalidReleaseDate))), 2;
    }
    var title := TrimmedOrEmpty(form.title);
    var saveError := ComicSaveError(title, fault);
    if saveError.Some? {
      return Redirect(Path("/manage-uploads"), Some(FlashError(saveError.value))), 2;
    }
    var bound := db.nextId;
    var id := db.NewId();
    var comic := Comic(id, title, user, NormaliseTags(form.tags), reply.secureUrl.value, release.value,
                       TrimmedOrEmpty(form.synopsis), form.nsfw, form.paywalled, [], ZeroStats);
    AppendFreshComic(db.comics, comic, bound);
    db.comics := db.comics + [comic];
    resp := Redirect(Path("/manage-uploads"), Some(FlashSuccess(ComicCreated)));
  }

  // ------------------------------------------------------------- createChapter

  datatype ChapterForm = ChapterForm(
    title: Option<string>,
    chapterNumber: Option<string>,
    description: Option<string>,
    releaseDate: Option<string>,
    comicId: Option<Id>,
    comic: Option<Id>,
    nsfw: bool,
    paywalled: bool)

  const FieldsRequired := "Title, chapter number and release date are required."
  const PagesRequired := "Please attach at least one page image."
  const NoPageUrl := "Cloudinary did not return a URL for an uploaded page."
  const NoComicId := "No comic id supplied."
  const ComicNotFound := "Comic not found."
  const ChapterValidationFailed := "Chapter validation failed"
  const ChapterCreated := "Chapter created successfully."

  /**
   * The two guards of `createChapter`, in order: the text fields, then the
   * file list (`None` when `req.files` is not an array).
   */
  function ChapterFormError(form: ChapterForm, files: Option<seq<UploadedFile>>): (r: Option<string>)
    ensures r == Some(FieldsRequired) <==>
      !(Truthy(form.title) && Truthy(form.chapterNumber) && Truthy(form.releaseDate))
    ensures r == Some(PagesRequired) <==>
      Truthy(form.title) && Truthy(form.chapterNumber) && Truthy(form.releaseDate)
      && (files.None? || |files.value| == 0)
    ensures r.None? ==> files.Some? && |files.value| > 0
  {
    if !Truthy(form.title) || !Truthy(form.chapterNumber) || !Truthy(form.releaseDate) then Some(FieldsRequired)
    else if files.None? || |files.value| == 0 then Some(PagesRequired)
    else None
  }

  /** `req.body.comicId || req.body.comic || req.query.comicId`. */
  function ComicIdOf(form: ChapterForm, queryComicId: Option<Id>): Option<Id> {
    if form.comicId.Some? then form.comicId else if form.comic.Some? then form.comic else queryComicId
  }

  /** `Math.max(1, PAGE_PROCESS_CONCURRENCY)`; the environment default is 3. */
  function WorkerCount(concurrency: int): (n: nat)
    ensures n >= 1 && n >= concurrency
    ensures concurrency >= 1 ==> n == concurrency
  {
    if concurrency < 1 then 1 else concurrency
  }

  /** `processFile(file, index)`: optimise, upload, and insist on a URL. */
  function ProcessFile(svc: Services, file: UploadedFile, index: nat): Result<string, string> {
    match svc.optimizePage(file.buffer)
    case Err(m) => Err(m)
    case Ok(optimized) =>
      match svc.uploadPage(optimized, index)
      case UploadFailed(m) => Err(m)
      case Uploaded(url) => if Truthy(url) then Ok(url.value) else Err(NoPageUrl)
  }

  /**
   * The sequential drain of the page queue: the files in queue order, the
   * first starting at index `from`, stopping at the first failure.
   */
  function Drain(svc: Services, files: seq<UploadedFile>, from: nat): Result<seq<string>, string>
    decreases |files|
  {
    if |files| == 0 then Ok([])
    else match ProcessFile(svc, files[0], from)
      case Err(m) => Err(m)
      case Ok(url) =>
        match Drain(svc, files[1..], from + 1)
        case Err(m) => Err(m)
        case Ok(urls) => Ok([url] + urls)
  }

  /**
   * A drain succeeds exactly when every file succeeds; it then yields one URL
   * per file, the k-th from the k-th file processed with index `from + k`.
   */
  lemma {:induction false} DrainAligned(svc: Services, files: seq<UploadedFile>, from: nat)
    ensures Drain(svc, files, from).Ok? <==>
      forall k :: 0 <= k < |files| ==> ProcessFile(svc, files[k], from + k).Ok?
    ensures Drain(svc, files, from).Ok? ==>
      var urls := Drain(svc, files, from).value;
      |urls| == |files| && forall k :: 0 <= k < |files| ==> ProcessFile(svc, files[k], from + k) == Ok(urls[k])
    decreases |files|
  {
    if |files| > 0 {
      DrainAligned(svc, files[1..], from + 1);
      if ProcessFile(svc, files[0], from).Ok? && Drain(svc, files[1..], from + 1).Ok? {
        var urls := Drain(svc, files, from).value;
        forall k | 0 <= k < |files| ensures ProcessFile(svc, files[k], from + k) == Ok(urls[k]) {
          if k > 0 { assert files[k] == files[1..][k - 1]; }
        }
      }
      if forall k :: 0 <= k < |files| ==> ProcessFile(svc, files[k], from + k).Ok? {
        forall k | 0 <= k < |files[1..]| ensures ProcessFile(svc, files[1..][k], from + 1 + k).Ok? {
          assert files[1..][k] == files[k + 1];
        }
      }
    }
  }

  /** The first file that fails decides the drain's error. */
  lemma {:induction false} DrainReportsFirstFailure(svc: Services, files: seq<UploadedFile>, from: nat, k: nat)
    requires k < |files| && ProcessFile(svc, files[k], from + k).Err?
    requires forall j :: 0 <= j < k ==> ProcessFile(svc, files[j], from + j).Ok?
    ensures Drain(svc, files, from) == Err(ProcessFile(svc, files[k], from + k).error)
    decreases k
  {
    if k > 0 {
      assert ProcessFile(svc, files[0], from + 0).Ok?;
      forall j | 0 <= j < k - 1 ensures ProcessFile(svc, files[1..][j], from + 1 + j).Ok? {
        assert files[1..][j] == files[j + 1];
      }
      assert files[1..][k - 1] == files[k];
      DrainReportsFirstFailure(svc, files[1..], from + 1, k - 1);
    }
  }

  /** `urls` followed by what the rest of the drain gives, or its error. */
  function Prepend(urls: seq<string>, rest: Result<seq<string>, string>): Result<seq<string>, string> {
    match rest
    case Ok(more) => Ok(urls + more)
    case Err(m) => Err(m)
  }

  lemma PrependTwice(a: seq<string>, b: seq<string>, rest: Result<seq<string>, string>)
    ensures Prepend(a, Prepend(b, rest)) == Prepend(a + b, rest)
  {
    if rest.Ok? {
      assert a + (b + rest.value) == (a + b) + rest.value;
    }
  }

  /**
   * `runQueue` with one worker: shift a file off the queue, process it with
   * index `uploadedPageUrls.length`, push its URL. `processed` records the
   * index of every `processFile` call, in call order.
   */
  method RunQueue(svc: Services, files: seq<UploadedFile>) returns (result: Result<seq<string>, string>, processed: seq<nat>)
    ensures result == Drain(svc, files, 0)
    ensures |processed| <= |files|
    ensures forall k :: 0 <= k < |processed| ==> processed[k] == k
    ensures result.Ok? ==> |processed| == |files|
    ensures result.Err? ==>
      |processed| > 0 && ProcessFile(svc, files[|processed| - 1], |processed| - 1) == Err(result.error)
  {
    var fileQueue := files;
    var uploadedPageUrls: seq<string> := [];
    processed := [];
    assert Prepend([], Drain(svc, files, 0)) == Drain(svc, files, 0) by {
      if Drain(svc, files, 0).Ok? { assert [] + Drain(svc, files, 0).value == Drain(svc, files, 0).value; }
    }
    while |fileQueue| > 0
      invariant |uploadedPageUrls| <= |files|
      invariant fileQueue == files[|uploadedPageUrls|..]
      invariant |processed| == |uploadedPageUrls|
      invariant forall k :: 0 <= k < |processed| ==> processed[k] == k
      invariant Drain(svc, files, 0) == Prepend(uploadedPageUrls, Drain(svc, fileQueue, |uploadedPageUrls|))
    {
      var file := fileQueue[0];
      var rest := fileQueue[1..];
      fileQueue := rest;
      var idx := |uploadedPageUrls|;
      processed := processed + [idx];
      var url := ProcessFile(svc, file, idx);
      if url.Err? {
        return Err(url.error), processed;
      }
      assert Drain(svc, files[idx..], idx) == Prepend([url.value], Drain(svc, rest, idx + 1));
      PrependTwice(uploadedPageUrls, [url.value], Drain(svc, rest, idx + 1));
      uploadedPageUrls := uploadedPageUrls + [url.value];
    }
    assert uploadedPageUrls + [] == uploadedPageUrls;
    result := Ok(uploadedPageUrls);
  }

  /**
   * The chapter record `Chapter.create` is given, or the validation error it
   * throws: the trimmed title must be non-empty, and the chapter number and
   * release date must convert.
   */
  function ChapterRecord(svc: Services, id: Id, form: ChapterForm, comic: Id, pages: seq<string>,
                         now: Millis): Result<Chapter, string>
    requires Truthy(form.title) && Truthy(form.chapterNumber) && Truthy(form.releaseDate)
  {
    var title := Trim(form.title.value);
    var number := svc.toNumber(form.chapterNumber.value);
    var release := svc.parseDate(form.releaseDate.value);
    if title == "" || number.None? || release.None? then Err(ChapterValidationFailed)
    else Ok(Chapter(id, comic, title, number.value,
                    if Truthy(form.description) then Trim(form.description.value) else "",
                    release.value, pages, form.nsfw, form.paywalled, now, ZeroStats))
  }

  /**
   * `createChapter`: the guards, the page queue, then the commit. Nothing is
   * stored unless every page succeeded and the comic exists; on success the new
   * chapter's id is appended to the comic's chapter list.
   */
  method CreateChapter(db: Db, svc: Services, form: ChapterForm, queryComicId: Option<Id>,
                       files: Option<seq<UploadedFile>>, now: Millis)
    returns (resp: Response, processed: seq<nat>)
    requires db.Valid()
    modifies db
    ensures db.Valid()
    ensures db.users == old(db.users)
    ensures db.nextId == old(db.nextId) + (|db.chapters| - |old(db.chapters)|)
    ensures ChapterFormError(form, files).Some? ==>
      resp == Redirect(Back, Some(FlashError(ChapterFormError(form, files).value)))
      && processed == [] && db.chapters == old(db.chapters) && db.comics == old(db.comics)
    ensures ChapterFormError(form, files).None? ==>
      var drained := Drain(svc, files.value, 0);
      var comicId := ComicIdOf(form, queryComicId);
      && (drained.Err? ==>
            resp == Redirect(Back, Some(FlashError(MessageOr(drained.error, "Failed to create chapter.")))))
      && (drained.Ok? && comicId.None? ==> resp == Redirect(Back, Some(FlashError(NoComicId))))
      && (drained.Ok? && comicId.Some? && ComicIndex(old(db.comics), comicId.value).None? ==>
            resp == Redirect(Path("/manage-uploads"), Some(FlashError(ComicNotFound))))
      && (drained.Err? || comicId.None? || ComicIndex(old(db.comics), comicId.value).None? ==>
            db.chapters == old(db.chapters) && db.comics == old(db.comics))
      && (drained.Ok? && comicId.Some? && ComicIndex(old(db.comics), comicId.value).Some? ==>
            var j := ComicIndex(old(db.comics), comicId.value).value;
            var record := ChapterRecord(svc, old(db.nextId), form, comicId.value, drained.value, now);
            && (record.Err? ==>
                  resp == Redirect(Back, Some(FlashError(record.error)))
                  && db.chapters == old(db.chapters) && db.comics == old(db.comics))
            && (record.Ok? ==>
                  && resp == Redirect(ManageComic(comicId.value), Some(FlashSuccess(ChapterCreated)))
                  && db.chapters == old(db.chapters) + [record.value]
                  && db.comics == old(db.comics)[j := old(db.comics)[j].(chapters := old(db.comics)[j].chapters + [old(db.nextId)])]))
  {
    var formError := ChapterFormError(form, files);
    if formError.Some? {
      return Redirect(Back, Some(FlashError(formError.value))), [];
    }
    var drained;
    drained, processed := RunQueue(svc, files.value);
    if drained.Err? {
      return Redirect(Back, Some(FlashError(MessageOr(drained.error, "Failed to create chapter.")))), processed;
    }
    var comicId := ComicIdOf(form, queryComicId);
    if comicId.None? {
      return Redirect(Back, Some(FlashError(NoComicId))), processed;
    }
    var found := ComicIndex(db.comics, comicId.value);
    if found.None? {
      return Redirect(Path("/manage-uploads"), Some(FlashError(ComicNotFound))), processed;
    }
    var j := found.value;
    var record := ChapterRecord(svc, db.nextId, form, comicId.value, drained.value, now);
    if record.Err? {
      return Redirect(Back, Some(FlashError(record.error))), processed;
    }
    var bound := db.nextId;
    var id := db.NewId();
    AppendFreshChapter(db.chapters, record.value, bound);
    db.chapters := db.chapters + [record.value];
    ReplaceKeepsComicIds(db.comics, j, db.comics[j].(chapters := db.comics[j].chapters + [id]), db.nextId);
    db.comics := db.comics[j := db.comics[j].(chapters := db.comics[j].chapters + [id])];
    resp := Redirect(ManageComic(comicId.value), Some(FlashSuccess(ChapterCreated)));
  }

  /**
   * A committed chapter references its comic and holds one page per file, the
   * k-th page being the URL of the k-th file.
   */
  lemma CommittedChapterPagesAligned(svc: Services, id: Id, form: ChapterForm, comic: Id,
                                     files: seq<UploadedFile>, now: Millis)
    requires Truthy(form.title) && Truthy(form.chapterNumber) && Truthy(form.releaseDate)
    requires Drain(svc, files, 0).Ok?
    requires ChapterRecord(svc, id, form, comic, Drain(svc, files, 0).value, now).Ok?
    ensures var chapter := ChapterRecord(svc, id, form, comic, Drain(svc, files, 0).value, now).value;
      && chapter.comic == comic
      && |chapter.pages| == |files|
      && forall k :: 0 <= k < |files| ==> ProcessFile(svc, files[k], k) == Ok(chapter.pages[k])
  {
    DrainAligned(svc, files, 0);
  }

  // ------------------------------------------------- page order under interleaving

  /**
   * The pages list as `runQueue` builds it when workers interleave: each URL
   * is pushed when its upload completes, so `order[j]`, the queue position of
   * the j-th upload to complete, decides where it lands.
   */
  function AppendInCompletionOrder(urls: seq<string>, order: seq<nat>): (pages: seq<string>)
    requires forall j :: 0 <= j < |order| ==> order[j] < |urls|
    ensures |pages| == |order|
    ensures forall j :: 0 <= j < |order| ==> pages[j] == urls[order[j]]
  {
    if |order| == 0 then [] else [urls[order[0]]] + AppendInCompletionOrder(urls, order[1..])
  }

  /** Two pages whose uploads complete in reverse order are stored in reverse order. */
  lemma CompletionOrderMisordersPages(urlA: string, urlB: string)
    requires urlA != urlB
    ensures AppendInCompletionOrder([urlA, urlB], [1, 0]) == [urlB, urlA]
    ensures AppendInCompletionOrder([urlA, urlB], [1, 0]) != [urlA, urlB]
  {
  }

  /**
   * Index-addressed slots: each completed upload writes its URL into the slot
   * of its queue position, so whatever the completion order, the pages come
   * out in queue order.
   */
  method FillSlots(urls: seq<string>, order: seq<nat>) returns (pages: seq<string>)
    requires forall j :: 0 <= j < |order| ==> order[j] < |urls|
    requires forall i :: 0 <= i < |urls| ==> i in order
    ensures pages == urls
  {
    var slots := new Option<string>[|urls|](_ => None);
    var j := 0;
    while j < |order|
      invariant 0 <= j <= |order|
      invariant forall i :: 0 <= i < slots.Length ==> slots[i] == None || slots[i] == Some(urls[i])
      invariant forall i :: 0 <= i < slots.Length && i in order[..j] ==> slots[i] == Some(urls[i])
    {
      slots[order[j]] := Some(urls[order[j]]);
      assert order[..j + 1] == order[..j] + [order[j]];
      j := j + 1;
    }
    assert order[..j] == order;
    pages := [];
    var i := 0;
    while i < slots.Length
      invariant 0 <= i <= slots.Length
      invariant pages == urls[..i]
    {
      pages := pages + [slots[i].value];
      i := i + 1;
    }
  }

  /** The completion order of a single worker: queue order. */
  function QueueOrder(n: nat): (order: seq<nat>)
    ensures |order| == n && forall i :: 0 <= i < n ==> order[i] == i
  {
    if n == 0 then [] else QueueOrder(n - 1) + [n - 1]
  }

  /** With one worker, completion order is queue order and the pages keep it. */
  lemma SequentialOrderKeepsPages(urls: seq<string>)
    ensures AppendInCompletionOrder(urls, QueueOrder(|urls|)) == urls
  {
  }
}
