/**
 * The chapter handlers of the comic controller: the latest-releases listing,
 * the view counter, renaming and deleting a chapter.
 */
module ComicController {
  import opened Base
  import opened Text
  import opened Store
  import opened Http

  /** `.limit(30)` on the homepage listing. */
  const LatestLimit: nat := 30

  ghost predicate NewestFirst(s: seq<Chapter>) {
    forall i, j :: 0 <= i < j < |s| ==> s[i].releaseDate >= s[j].releaseDate
  }

  /** Inserts `c` into a newest-first list, keeping it newest-first. */
  function InsertByRelease(c: Chapter, s: seq<Chapter>): (r: seq<Chapter>)
    requires NewestFirst(s)
    ensures multiset(r) == multiset(s) + multiset{c}
    ensures NewestFirst(r)
  {
    if |s| == 0 then [c]
    else if c.releaseDate >= s[0].releaseDate then [c] + s
    else
      var rest := InsertByRelease(c, s[1..]);
      HeadStaysNewest(c, s, rest);
      assert s == [s[0]] + s[1..];
      [s[0]] + rest
  }

  lemma HeadStaysNewest(c: Chapter, s: seq<Chapter>, rest: seq<Chapter>)
    requires |s| > 0 && NewestFirst(s) && c.releaseDate < s[0].releaseDate
    requires multiset(rest) == multiset(s[1..]) + multiset{c}
    ensures forall k :: 0 <= k < |rest| ==> rest[k].releaseDate <= s[0].releaseDate
  {
    forall k | 0 <= k < |rest| ensures rest[k].releaseDate <= s[0].releaseDate {
      assert rest[k] in multiset(rest);
      if rest[k] != c {
        assert rest[k] in multiset(s[1..]);
        var m :| 0 <= m < |s[1..]| && s[1..][m] == rest[k];
        assert s[m + 1] == rest[k];
      }
    }
  }

  /** The database's `.sort({ releaseDate: -1 })`. */
  function SortByReleaseDesc(s: seq<Chapter>): (r: seq<Chapter>)
    ensures multiset(r) == multiset(s)
    ensures NewestFirst(r)
  {
    if |s| == 0 then []
    else
      assert s == [s[0]] + s[1..];
      InsertByRelease(s[0], SortByReleaseDesc(s[1..]))
  }

  /** `latestReleasesGet`: the chapters sorted newest first, at most 30 of them. */
  function LatestReleases(chapters: seq<Chapter>): (r: seq<Chapter>)
    ensures |r| == if |chapters| < LatestLimit then |chapters| else LatestLimit
    ensures NewestFirst(r)
    ensures multiset(r) <= multiset(chapters)
  {
    var sorted := SortByReleaseDesc(chapters);
    var n := if |chapters| < LatestLimit then |chapters| else LatestLimit;
    assert sorted == sorted[..n] + sorted[n..];
    sorted[..n]
  }

  /** No chapter left out of the listing is newer than the last one listed. */
  lemma LatestReleasesAreTheNewest(chapters: seq<Chapter>, c: Chapter)
    requires c in multiset(chapters) - multiset(LatestReleases(chapters))
    ensures |LatestReleases(chapters)| == LatestLimit
    ensures c.releaseDate <= LatestReleases(chapters)[LatestLimit - 1].releaseDate
  {
    var sorted := SortByReleaseDesc(chapters);
    var n := if |chapters| < LatestLimit then |chapters| else LatestLimit;
    var head, tail := sorted[..n], sorted[n..];
    assert LatestReleases(chapters) == head;
    assert sorted == head + tail;
    assert multiset(chapters) == multiset(head) + multiset(tail);
    assert c in multiset(tail);
    assert |sorted| == |chapters| by { assert |multiset(sorted)| == |multiset(chapters)|; }
    TailIsNoNewer(sorted, n, c);
  }

  /** In a newest-first list, nothing after position `n` is newer than the item before it. */
  lemma TailIsNoNewer(s: seq<Chapter>, n: nat, c: Chapter)
    requires NewestFirst(s) && 0 < n <= |s| && c in s[n..]
    ensures c.releaseDate <= s[n - 1].releaseDate
  {
    var m :| 0 <= m < |s[n..]| && s[n..][m] == c;
    assert s[n + m] == c;
  }

  /** `chapter` with its view counter raised by one (`$inc: { 'stats.views': 1 }`). */
  function Viewed(chapter: Chapter): Chapter {
    chapter.(stats := chapter.stats.(views := chapter.stats.views + 1))
  }

  /** `Comic.updateOne({ _id }, { $set: { 'stats.views': v } })`. */
  function SetComicViews(comics: seq<Comic>, id: Id, v: nat): (r: seq<Comic>)
    ensures |r| == |comics|
    ensures forall k :: 0 <= k < |r| && comics[k].id != id ==> r[k] == comics[k]
    ensures forall k :: 0 <= k < |r| ==> r[k].id == comics[k].id
    ensures ComicIndex(comics, id).Some? ==>
      var j := ComicIndex(comics, id).value;
      r[j] == comics[j].(stats := comics[j].stats.(views := v))
  {
    match ComicIndex(comics, id)
    case None => comics
    case Some(j) => comics[j := comics[j].(stats := comics[j].stats.(views := v))]
  }

  /** A view raises the comic's recomputed total by exactly one and no other comic's. */
  lemma ViewRaisesTotalByOne(chapters: seq<Chapter>, i: nat, comic: Id)
    requires i < |chapters|
    ensures ViewsOf(chapters[i := Viewed(chapters[i])], comic)
         == ViewsOf(chapters, comic) + (if chapters[i].comic == comic then 1 else 0)
  {
    ViewsOfReplace(chapters, i, Viewed(chapters[i]), comic);
  }

  /**
   * The author check of rename and delete: refused only when someone is
   * logged in, the chapter's comic has an author, and the two differ.
   */
  predicate MayModify(user: Option<Id>, comicAuthor: Option<Id>) {
    user.None? || comicAuthor.None? || comicAuthor.value == user.value
  }

  /** A logged-in user who is not the author is refused; the author is not. */
  lemma OnlyTheAuthorMayModify(user: Id, author: Id)
    ensures MayModify(Some(user), Some(author)) <==> user == author
  {
  }

  /** The author of the comic `chapter` belongs to, when that comic exists (`populate`). */
  function AuthorOf(comics: seq<Comic>, chapter: Chapter): Option<Id> {
    match ComicIndex(comics, chapter.comic)
    case None => None
    case Some(j) => Some(comics[j].author)
  }

  /** `chapterGet`: count a view, then recompute the comic's total views. */
  method ChapterGet(db: Db, chapterId: Option<Id>) returns (resp: Response)
    requires db.Valid()
    modifies db
    ensures db.Valid()
    ensures db.users == old(db.users) && db.nextId == old(db.nextId)
    ensures chapterId.None? ==>
      resp == Send(400, "Missing chapter id") && db.chapters == old(db.chapters) && db.comics == old(db.comics)
    ensures chapterId.Some? && ChapterIndex(old(db.chapters), chapterId.value).None? ==>
      resp == Send(404, "Chapter not found") && db.chapters == old(db.chapters) && db.comics == old(db.comics)
    ensures chapterId.Some? && ChapterIndex(old(db.chapters), chapterId.value).Some? ==>
      var i := ChapterIndex(old(db.chapters), chapterId.value).value;
      var comic := old(db.chapters)[i].comic;
      && resp == Render(200, "read-comic")
      && db.chapters == old(db.chapters)[i := Viewed(old(db.chapters)[i])]
      && db.comics == SetComicViews(old(db.comics), comic, ViewsOf(db.chapters, comic))
      && ViewsOf(db.chapters, comic) == ViewsOf(old(db.chapters), comic) + 1
      && (ComicIndex(old(db.comics), comic).Some? ==>
            db.comics[ComicIndex(old(db.comics), comic).value].stats.views == ViewsOf(db.chapters, comic))
  {
    if chapterId.None? {
      return Send(400, "Missing chapter id");
    }
    var found := ChapterIndex(db.chapters, chapterId.value);
    if found.None? {
      return Send(404, "Chapter not found");
    }
    var i := found.value;
    ViewRaisesTotalByOne(db.chapters, i, db.chapters[i].comic);
    ReplaceKeepsChapterIds(db.chapters, i, Viewed(db.chapters[i]), db.nextId);
    db.chapters := db.chapters[i := Viewed(db.chapters[i])];
    var comic := db.chapters[i].comic;
    var totalViews := ViewsOf(db.chapters, comic);
    db.comics := SetComicViews(db.comics, comic, totalViews);
    resp := Render(200, "read-comic");
  }

  /** A rename is refused as empty exactly when the title is missing or blank. */
  lemma RenameRefusedIffBlank(title: Option<string>)
    ensures TrimmedOrEmpty(title) == "" <==> title.None? || AllWhitespace(title.value)
  {
    if title.Some? {
      TrimEmptyIff(title.value);
    } else {
      TrimEmptyIff("");
    }
  }

  /** `updateChapterTitlePost`: store the trimmed title, after the empty and author checks. */
  method UpdateChapterTitle(db: Db, chapterId: Id, title: Option<string>, user: Option<Id>, referer: Option<string>)
    returns (resp: Response)
    requires db.Valid()
    modifies db
    ensures db.Valid()
    ensures db.users == old(db.users) && db.comics == old(db.comics) && db.nextId == old(db.nextId)
    ensures TrimmedOrEmpty(title) == "" ==>
      resp == Redirect(Back, Some(FlashError("Title cannot be empty."))) && db.chapters == old(db.chapters)
    ensures TrimmedOrEmpty(title) != "" && ChapterIndex(old(db.chapters), chapterId).None? ==>
      resp == Redirect(Back, Some(FlashError("Chapter not found."))) && db.chapters == old(db.chapters)
    ensures TrimmedOrEmpty(title) != "" && ChapterIndex(old(db.chapters), chapterId).Some? ==>
      var i := ChapterIndex(old(db.chapters), chapterId).value;
      var comic := old(db.chapters)[i].comic;
      if !MayModify(user, AuthorOf(db.comics, old(db.chapters)[i])) then
        resp == Redirect(Back, Some(FlashError("You are not allowed to edit this chapter.")))
        && db.chapters == old(db.chapters)
      else
        var fallback := if ComicIndex(db.comics, comic).Some? then ManageComic(comic) else Path("/");
        && db.chapters == old(db.chapters)[i := old(db.chapters)[i].(title := TrimmedOrEmpty(title))]
        && resp == Redirect(RefererOr(referer, fallback), Some(FlashSuccess("Chapter title updated.")))
  {
    var newTitle := TrimmedOrEmpty(title);
    if newTitle == "" {
      return Redirect(Back, Some(FlashError("Title cannot be empty.")));
    }
    var found := ChapterIndex(db.chapters, chapterId);
    if found.None? {
      return Redirect(Back, Some(FlashError("Chapter not found.")));
    }
    var i := found.value;
    var chapter := db.chapters[i];
    if !MayModify(user, AuthorOf(db.comics, chapter)) {
      return Redirect(Back, Some(FlashError("You are not allowed to edit this chapter.")));
    }
    ReplaceKeepsChapterIds(db.chapters, i, chapter.(title := newTitle), db.nextId);
    db.chapters := db.chapters[i := chapter.(title := newTitle)];
    var fallback := if ComicIndex(db.comics, chapter.comic).Some? then ManageComic(chapter.comic) else Path("/");
    resp := Redirect(RefererOr(referer, fallback), Some(FlashSuccess("Chapter title updated.")));
  }

  /** The comic after `$pull` of `chapterId` and `$set` of its recomputed total. */
  function AfterChapterRemoved(comic: Comic, chapterId: Id, remaining: seq<Chapter>): Comic {
    comic.(chapters := Pull(comic.chapters, chapterId),
           stats := comic.stats.(views := ViewsOf(remaining, comic.id)))
  }

  /** `deleteChapterPost`: delete the chapter, pull its id from the comic and recompute the views. */
  method DeleteChapter(db: Db, chapterId: Id, user: Option<Id>, referer: Option<string>) returns (resp: Response)
    requires db.Valid()
    modifies db
    ensures db.Valid()
    ensures db.users == old(db.users) && db.nextId == old(db.nextId)
    ensures var found := ChapterIndex(old(db.chapters), chapterId);
      if found.None? then
        resp == Redirect(Back, Some(FlashError("Chapter not found.")))
        && db.chapters == old(db.chapters) && db.comics == old(db.comics)
      else if !MayModify(user, AuthorOf(old(db.comics), old(db.chapters)[found.value])) then
        resp == Redirect(Back, Some(FlashError("You are not allowed to delete this chapter.")))
        && db.chapters == old(db.chapters) && db.comics == old(db.comics)
      else
        var i := found.value;
        var comic := old(db.chapters)[i].comic;
        var owner := ComicIndex(old(db.comics), comic);
        && db.chapters == old(db.chapters)[..i] + old(db.chapters)[i + 1..]
        && (owner.None? ==> db.comics == old(db.comics)
                            && resp == Redirect(RefererOr(referer, Path("/")), Some(FlashSuccess("Chapter deleted."))))
        && (owner.Some? ==>
              && db.comics == old(db.comics)[owner.value := AfterChapterRemoved(old(db.comics)[owner.value], chapterId, db.chapters)]
              && resp == Redirect(RefererOr(referer, ManageComic(comic)), Some(FlashSuccess("Chapter deleted."))))
  {
    var found := ChapterIndex(db.chapters, chapterId);
    if found.None? {
      return Redirect(Back, Some(FlashError("Chapter not found.")));
    }
    var i := found.value;
    var chapter := db.chapters[i];
    if !MayModify(user, AuthorOf(db.comics, chapter)) {
      return Redirect(Back, Some(FlashError("You are not allowed to delete this chapter.")));
    }
    var owner := ComicIndex(db.comics, chapter.comic);
    RemoveKeepsChapterIds(db.chapters, i, db.nextId);
    db.chapters := db.chapters[..i] + db.chapters[i + 1..];
    if owner.Some? {
      var j := owner.value;
      var updated := AfterChapterRemoved(db.comics[j], chapterId, db.chapters);
      ReplaceKeepsComicIds(db.comics, j, updated, db.nextId);
      db.comics := db.comics[j := updated];
      resp := Redirect(RefererOr(referer, ManageComic(chapter.comic)), Some(FlashSuccess("Chapter deleted.")));
    } else {
      resp := Redirect(RefererOr(referer, Path("/")), Some(FlashSuccess("Chapter deleted.")));
    }
  }

  /**
   * After a delete, the deleted id is gone from the comic's list, every other
   * id keeps its count, and the comic's views are those of the chapters left,
   * which is the old total less the deleted chapter's views.
   */
  lemma {:induction false} DeleteRecomputesTotal(comic: Comic, chapters: seq<Chapter>, i: nat)
    requires i < |chapters| && chapters[i].comic == comic.id
    ensures var after := AfterChapterRemoved(comic, chapters[i].id, chapters[..i] + chapters[i + 1..]);
      && chapters[i].id !in after.chapters
      && (forall y :: y != chapters[i].id ==> Count(after.chapters, y) == Count(comic.chapters, y))
      && after.stats.views + chapters[i].stats.views == ViewsOf(chapters, comic.id)
  {
    ViewsOfRemove(chapters, i, comic.id);
    forall y | y != chapters[i].id
      ensures Count(Pull(comic.chapters, chapters[i].id), y) == Count(comic.chapters, y)
    {
      PullKeepsOthers(comic.chapters, chapters[i].id, y);
    }
  }
}
