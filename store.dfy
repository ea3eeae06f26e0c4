/**
 * The document store the handlers read and write: the Comic, Chapter and User
 * collections, each an ordered sequence of records with unique ids (the
 * database's natural order, so `findOne` is the first match).
 */
module Store {
  import opened Base

  type Id = nat

  /** Engagement counters of a comic or chapter; each defaults to 0. */
  datatype Stats = Stats(views: nat, bookmarks: nat, likes: nat, comments: nat)

  const ZeroStats := Stats(0, 0, 0, 0)

  datatype Comic = Comic(
    id: Id,
    title: string,
    author: Id,
    tags: seq<string>,
    cover: string,
    releaseDate: Millis,
    synopsis: string,
    nsfw: bool,
    paywalled: bool,
    chapters: seq<Id>,
    stats: Stats)

  datatype Chapter = Chapter(
    id: Id,
    comic: Id,
    title: string,
    chapterNumber: real,
    description: string,
    releaseDate: Millis,
    pages: seq<string>,
    nsfw: bool,
    paywalled: bool,
    createdAt: Millis,
    stats: Stats)

  datatype User = User(
    id: Id,
    email: string,
    username: string,
    passwordHash: string,
    birthDate: Millis,
    pfp: int,
    resetPasswordToken: Option<string>,
    resetPasswordExpires: Option<Millis>)

  /** The first position whose element satisfies `p`, as `findOne` picks it. */
  function FirstWhere<T>(s: seq<T>, p: T -> bool): (r: Option<nat>)
    ensures r.Some? ==> r.value < |s| && p(s[r.value])
    ensures r.Some? ==> forall k :: 0 <= k < r.value ==> !p(s[k])
    ensures r.None? <==> forall k :: 0 <= k < |s| ==> !p(s[k])
  {
    if |s| == 0 then None
    else if p(s[0]) then Some(0)
    else match FirstWhere(s[1..], p)
      case None => None
      case Some(k) => Some(k + 1)
  }

  function ComicIndex(comics: seq<Comic>, id: Id): Option<nat> {
    FirstWhere(comics, (c: Comic) => c.id == id)
  }

  function ChapterIndex(chapters: seq<Chapter>, id: Id): Option<nat> {
    FirstWhere(chapters, (c: Chapter) => c.id == id)
  }

  /** `User.findOne({ email })`. */
  function UserByEmail(users: seq<User>, email: string): Option<nat> {
    FirstWhere(users, (u: User) => u.email == email)
  }

  /** `User.findOne({ username })`. */
  function UserByUsername(users: seq<User>, username: string): Option<nat> {
    FirstWhere(users, (u: User) => u.username == username)
  }

  ghost predicate UniqueComicIds(comics: seq<Comic>) {
    forall i, j :: 0 <= i < j < |comics| ==> comics[i].id != comics[j].id
  }

  ghost predicate UniqueChapterIds(chapters: seq<Chapter>) {
    forall i, j :: 0 <= i < j < |chapters| ==> chapters[i].id != chapters[j].id
  }

  ghost predicate UniqueUserIds(users: seq<User>) {
    forall i, j :: 0 <= i < j < |users| ==> users[i].id != users[j].id
  }

  /** The unique indexes on User.email and User.username. */
  ghost predicate UniqueAccounts(users: seq<User>) {
    forall i, j :: 0 <= i < j < |users| ==>
      users[i].email != users[j].email && users[i].username != users[j].username
  }

  /**
   * What the `$group`/`$sum` aggregate over `stats.views` computes: the total
   * views of the chapters that reference `comic` (0 when there are none).
   */
  function ViewsOf(chapters: seq<Chapter>, comic: Id): nat {
    if |chapters| == 0 then 0
    else (if chapters[0].comic == comic then chapters[0].stats.views else 0)
         + ViewsOf(chapters[1..], comic)
  }

  /** The total over a concatenation is the sum of the totals. */
  lemma {:induction false} ViewsOfAppend(a: seq<Chapter>, b: seq<Chapter>, comic: Id)
    ensures ViewsOf(a + b, comic) == ViewsOf(a, comic) + ViewsOf(b, comic)
  {
    if |a| > 0 {
      assert (a + b)[1..] == a[1..] + b;
      ViewsOfAppend(a[1..], b, comic);
    } else {
      assert a + b == b;
    }
  }

  /** Replacing one chapter changes the total by the difference of its views. */
  lemma {:induction false} ViewsOfReplace(chapters: seq<Chapter>, i: nat, c: Chapter, comic: Id)
    requires i < |chapters|
    ensures ViewsOf(chapters[i := c], comic) + (if chapters[i].comic == comic then chapters[i].stats.views else 0)
         == ViewsOf(chapters, comic) + (if c.comic == comic then c.stats.views else 0)
  {
    if i > 0 {
      assert chapters[i := c][1..] == chapters[1..][i - 1 := c];
      ViewsOfReplace(chapters[1..], i - 1, c, comic);
    } else {
      assert chapters[i := c][1..] == chapters[1..];
    }
  }

  /** Removing one chapter lowers the total by exactly its views when it belongs to `comic`. */
  lemma ViewsOfRemove(chapters: seq<Chapter>, i: nat, comic: Id)
    requires i < |chapters|
    ensures ViewsOf(chapters[..i] + chapters[i + 1..], comic)
         + (if chapters[i].comic == comic then chapters[i].stats.views else 0)
         == ViewsOf(chapters, comic)
  {
    assert chapters == chapters[..i] + ([chapters[i]] + chapters[i + 1..]);
    ViewsOfAppend(chapters[..i], [chapters[i]] + chapters[i + 1..], comic);
    ViewsOfAppend(chapters[..i], chapters[i + 1..], comic);
    assert ([chapters[i]] + chapters[i + 1..])[1..] == chapters[i + 1..];
  }

  /** Mongo's `$pull`: every occurrence of `x` removed, the rest kept in order. */
  function Pull(ids: seq<Id>, x: Id): (r: seq<Id>)
    ensures x !in r
    ensures forall y :: y in r ==> y in ids
    ensures |r| <= |ids|
  {
    if |ids| == 0 then []
    else if ids[0] == x then Pull(ids[1..], x)
    else [ids[0]] + Pull(ids[1..], x)
  }

  /** Number of occurrences of `y`. */
  function Count(ids: seq<Id>, y: Id): nat {
    if |ids| == 0 then 0 else (if ids[0] == y then 1 else 0) + Count(ids[1..], y)
  }

  /** `$pull` keeps every other id, as often as it occurred. */
  lemma {:induction false} PullKeepsOthers(ids: seq<Id>, x: Id, y: Id)
    requires y != x
    ensures Count(Pull(ids, x), y) == Count(ids, y)
  {
    if |ids| > 0 {
      PullKeepsOthers(ids[1..], x, y);
      if ids[0] != x {
        assert ([ids[0]] + Pull(ids[1..], x))[1..] == Pull(ids[1..], x);
      }
    }
  }

  /** `$pull` works piecewise, so the relative order of the kept ids is unchanged. */
  lemma {:induction false} PullConcat(a: seq<Id>, b: seq<Id>, x: Id)
    ensures Pull(a + b, x) == Pull(a, x) + Pull(b, x)
  {
    if |a| > 0 {
      assert (a + b)[1..] == a[1..] + b;
      PullConcat(a[1..], b, x);
    } else {
      assert a + b == b;
    }
  }

  /** Pulling an id that is not there changes nothing. */
  lemma {:induction false} PullAbsent(ids: seq<Id>, x: Id)
    requires x !in ids
    ensures Pull(ids, x) == ids
  {
    if |ids| > 0 {
      assert forall y :: y in ids[1..] ==> y in ids;
      PullAbsent(ids[1..], x);
    }
  }

  /** Every comic id is below `bound` (handed out already) and no two comics share one. */
  ghost predicate ComicIdsBelow(comics: seq<Comic>, bound: Id) {
    (forall k :: 0 <= k < |comics| ==> comics[k].id < bound) && UniqueComicIds(comics)
  }

  /** Every chapter id is below `bound` and no two chapters share one. */
  ghost predicate ChapterIdsBelow(chapters: seq<Chapter>, bound: Id) {
    (forall k :: 0 <= k < |chapters| ==> chapters[k].id < bound) && UniqueChapterIds(chapters)
  }

  /** Rewriting a chapter in place, id unchanged, keeps the ids distinct. */
  lemma ReplaceKeepsChapterIds(chapters: seq<Chapter>, i: nat, c: Chapter, bound: Id)
    requires i < |chapters| && c.id == chapters[i].id && ChapterIdsBelow(chapters, bound)
    ensures ChapterIdsBelow(chapters[i := c], bound)
  {
  }

  /** Rewriting a comic in place, id unchanged, keeps the ids distinct. */
  lemma ReplaceKeepsComicIds(comics: seq<Comic>, i: nat, c: Comic, bound: Id)
    requires i < |comics| && c.id == comics[i].id && ComicIdsBelow(comics, bound)
    ensures ComicIdsBelow(comics[i := c], bound)
  {
  }

  /** Appending a comic with the freshly generated id keeps the ids distinct. */
  lemma AppendFreshComic(comics: seq<Comic>, c: Comic, bound: Id)
    requires ComicIdsBelow(comics, bound) && c.id == bound
    ensures ComicIdsBelow(comics + [c], bound + 1)
  {
  }

  /** Appending a chapter with the freshly generated id keeps the ids distinct. */
  lemma AppendFreshChapter(chapters: seq<Chapter>, c: Chapter, bound: Id)
    requires ChapterIdsBelow(chapters, bound) && c.id == bound
    ensures ChapterIdsBelow(chapters + [c], bound + 1)
  {
  }

  /** Deleting a chapter keeps the remaining ids distinct. */
  lemma RemoveKeepsChapterIds(chapters: seq<Chapter>, i: nat, bound: Id)
    requires i < |chapters| && ChapterIdsBelow(chapters, bound)
    ensures ChapterIdsBelow(chapters[..i] + chapters[i + 1..], bound)
  {
    var rest := chapters[..i] + chapters[i + 1..];
    assert forall k :: 0 <= k < |rest| ==> rest[k] == chapters[if k < i then k else k + 1];
  }

  /** Every user id is below `bound`, and ids, emails and usernames are all distinct. */
  ghost predicate UsersBelow(users: seq<User>, bound: Id) {
    (forall k :: 0 <= k < |users| ==> users[k].id < bound) && UniqueUserIds(users) && UniqueAccounts(users)
  }

  /** Rewriting a user in place, keeping id, email and username, keeps the registry well formed. */
  lemma ReplaceKeepsUsers(users: seq<User>, i: nat, u: User, bound: Id)
    requires i < |users| && UsersBelow(users, bound)
    requires u.id == users[i].id && u.email == users[i].email && u.username == users[i].username
    ensures UsersBelow(users[i := u], bound)
  {
  }

  /**
   * The in-memory database. `nextId` models ObjectId generation: every id
   * handed out so far is below it.
   */
  class Db {
    var comics: seq<Comic>
    var chapters: seq<Chapter>
    var users: seq<User>
    var nextId: Id

    ghost predicate Valid()
      reads this
    {
      && ComicIdsBelow(comics, nextId)
      && ChapterIdsBelow(chapters, nextId)
      && UsersBelow(users, nextId)
    }

    constructor ()
      ensures Valid()
      ensures comics == [] && chapters == [] && users == [] && nextId == 0
    {
      comics, chapters, users, nextId := [], [], [], 0;
    }

    /** A new ObjectId, distinct from every id in the store. */
    method NewId() returns (id: Id)
      requires Valid()
      modifies this`nextId
      ensures Valid()
      ensures id == old(nextId) && nextId == id + 1
    {
      id := nextId;
      nextId := nextId + 1;
    }
  }
}
