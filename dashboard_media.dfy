/** The dashboard's media handlers (app/api/dashboard/router.py): list a
    subscriber's uploads of one day, upload files for a subscriber, and soft
    delete an upload. The file contents and the directories on disk are not
    modelled; the rows, their stored paths and their public URLs are. */
module DashboardMedia {
  import opened Outcomes
  import opened Text
  import opened Foreign
  import opened MediaModel
  import opened Schema
  import opened Store
  import opened UploadNaming

  const InvalidDate: Failure := Http(400, "Invalid date format, expected YYYY-MM-DD")
  const MediaNotFound: Failure := Http(404, "Media not found")
  const MediaDeleted: string := "Media deleted"

  /** The record list_media returns for a row, and upload_media for each
      file it stored. */
  datatype MediaView = MediaView(id: int, originalName: string, url: string, mediaType: string)

  function MediaViewOf(id: int, m: Media): MediaView {
    MediaView(id, m.originalName, PublicUrl(m.storedPath), m.mediaType)
  }

  /** The filter of list_media: the subscriber, the day, and not deleted. */
  predicate MediaListed(m: Media, userId: int, day: Date) {
    m.userId == userId && m.uploadDate == day && !m.isDeleted
  }

  /** GET /media. A date `fromisoformat` rejects gives 400; otherwise
      exactly the subscriber's undeleted rows of that day, each once, in the
      order the database yields them. */
  method ListMedia(db: Database, p: Platform, userId: int, date: string) returns (r: Result<seq<MediaView>>)
    ensures r.Err? <==> p.parseIsoDate(date).None?
    ensures r.Err? ==> r.error == InvalidDate
    ensures r.Ok? ==> var day := p.parseIsoDate(date).value;
                      && (forall v | v in r.value :: v.id in db.media && MediaListed(db.media[v.id], userId, day)
                                                     && v == MediaViewOf(v.id, db.media[v.id]))
                      && (forall id | id in db.media && MediaListed(db.media[id], userId, day)
                            :: MediaViewOf(id, db.media[id]) in r.value)
                      && (forall i, j | 0 <= i < j < |r.value| :: r.value[i].id != r.value[j].id)
  {
    var parsed := p.parseIsoDate(date);
    if parsed.None? {
      return Err(InvalidDate);
    }
    var day := parsed.value;
    var selected := set k | k in db.media && MediaListed(db.media[k], userId, day);
    var rows := Fetch(selected);
    var result := [];
    for i := 0 to |rows|
      invariant |result| == i
      invariant forall k | 0 <= k < i :: rows[k] in selected && result[k] == MediaViewOf(rows[k], db.media[rows[k]])
    {
      assert rows[i] in rows;
      result := result + [MediaViewOf(rows[i], db.media[rows[i]])];
    }
    forall id | id in db.media && MediaListed(db.media[id], userId, day)
      ensures MediaViewOf(id, db.media[id]) in result
    {
      assert id in selected;
      var k :| 0 <= k < |rows| && rows[k] == id;
      assert result[k] == MediaViewOf(id, db.media[id]);
    }
    return Ok(result);
  }

  /** One uploaded file: the name and content type the client sent. */
  datatype Upload = Upload(filename: string, contentType: Option<string>)

  /** The row upload_media inserts for one file, stamped `timestamp`. */
  function UploadRow(userId: int, date: string, day: Date, actor: int, timestamp: Timestamp, f: Upload): Media {
    Media(userId, f.filename, StoredPath(userId, date, StoredName(timestamp, Sanitize(f.filename))),
          MediaTypeOf(f.contentType), day, Some(actor), false)
  }

  /** The rows for all files, in order. */
  function UploadRows(userId: int, date: string, day: Date, actor: int, files: seq<Upload>,
                      clock: nat -> Timestamp): (rows: seq<Media>)
    ensures |rows| == |files|
    decreases |files|
  {
    if files == [] then []
    else UploadRows(userId, date, day, actor, files[..|files| - 1], clock)
         + [UploadRow(userId, date, day, actor, clock(|files| - 1), files[|files| - 1])]
  }

  /** The `i`-th row is the `i`-th file's, stamped with the clock's `i`-th
      reading. */
  lemma {:induction false} UploadRowAt(userId: int, date: string, day: Date, actor: int, files: seq<Upload>,
                                       clock: nat -> Timestamp, i: nat)
    requires i < |files|
    ensures UploadRows(userId, date, day, actor, files, clock)[i] == UploadRow(userId, date, day, actor, clock(i), files[i])
    decreases |files|
  {
    if i < |files| - 1 {
      var init := files[..|files| - 1];
      UploadRowAt(userId, date, day, actor, init, clock, i);
      assert init[i] == files[i];
    }
  }

  /** The number of files, counting from `i`, that upload_media stores
      before one fails: file `j` fails when writing it raises (`written(j)`
      is false) or when its row breaks a column bound. */
  function FirstFailed(rows: seq<Media>, written: nat -> bool, i: nat): (k: nat)
    requires i <= |rows|
    ensures i <= k <= |rows|
    ensures forall j | i <= j < k :: written(j) && MediaValid(rows[j])
    ensures k < |rows| ==> !written(k) || !MediaValid(rows[k])
    decreases |rows| - i
  {
    if i == |rows| || !written(i) || !MediaValid(rows[i]) then i else FirstFailed(rows, written, i + 1)
  }

  /** A file no later than the first failure that fails is the first
      failure. */
  lemma FailedHere(rows: seq<Media>, written: nat -> bool, i: nat)
    requires i < |rows| && i <= FirstFailed(rows, written, 0)
    requires !(written(i) && MediaValid(rows[i]))
    ensures FirstFailed(rows, written, 0) == i
  {
  }

  /** Rows placed under consecutive ids from `start`. */
  function Placed(start: int, rows: seq<Media>): (placed: map<int, Media>)
    ensures forall id :: id in placed <==> start <= id < start + |rows|
    ensures forall id | id in placed :: placed[id] == rows[id - start]
    decreases |rows|
  {
    if rows == [] then map[]
    else Placed(start, rows[..|rows| - 1])[start + |rows| - 1 := rows[|rows| - 1]]
  }

  /** Placing one more row is one more insert under the next id. */
  lemma PlaceNext(base: map<int, Media>, start: int, rows: seq<Media>, i: int)
    requires 0 <= i < |rows|
    ensures base + Placed(start, rows[..i + 1]) == (base + Placed(start, rows[..i]))[start + i := rows[i]]
  {
    assert rows[..i + 1][..i] == rows[..i];
  }

  /** The views of rows placed under consecutive ids from `start`. */
  function PlacedViews(start: int, rows: seq<Media>): (views: seq<MediaView>)
    ensures |views| == |rows|
    decreases |rows|
  {
    if rows == [] then []
    else PlacedViews(start, rows[..|rows| - 1]) + [MediaViewOf(start + |rows| - 1, rows[|rows| - 1])]
  }

  /** The `i`-th view is that of the `i`-th row under id `start + i`. */
  lemma {:induction false} PlacedViewAt(start: int, rows: seq<Media>, i: nat)
    requires i < |rows|
    ensures PlacedViews(start, rows)[i] == MediaViewOf(start + i, rows[i])
    decreases |rows|
  {
    if i < |rows| - 1 {
      var init := rows[..|rows| - 1];
      PlacedViewAt(start, init, i);
      assert init[i] == rows[i];
    }
  }

  /** Showing one more row appends its view. */
  lemma PlacedViewsNext(start: int, rows: seq<Media>, i: int)
    requires 0 <= i < |rows|
    ensures PlacedViews(start, rows[..i + 1]) == PlacedViews(start, rows[..i]) + [MediaViewOf(start + i, rows[i])]
  {
    assert rows[..i + 1][..i] == rows[..i];
  }

  /** `db.add(media); db.commit()` for one row: it is stored under the next
      id exactly when it fits the media table's columns; otherwise the
      commit fails and nothing changes. */
  method InsertMedia(db: Database, m: Media) returns (ok: bool)
    requires db.Valid()
    modifies db`media, db`nextMediaId
    ensures db.Valid()
    ensures ok <==> MediaValid(m)
    ensures ok ==> && old(db.nextMediaId) !in old(db.media)
                   && db.media == old(db.media)[old(db.nextMediaId) := m]
                   && db.nextMediaId == old(db.nextMediaId) + 1
                   && db.OnlyMediaChanged()
    ensures !ok ==> unchanged(db)
  {
    var id := db.nextMediaId;
    var media' := db.media[id := m];
    PutMedia(db.media, id, m);
    if !TablesValid(db.users, db.plans, db.enrollments, media') {
      return false;
    }
    db.media := media';
    db.nextMediaId := id + 1;
    ok := true;
  }

  /** One turn of upload_media's loop: the `i`-th file is written, which
      raises when `written` is false, and then its row is added and
      committed under the next id, or its commit fails. Either failure ends
      the turn with no row added. */
  method CommitNext(db: Database, ghost base: map<int, Media>, start: int, rows: seq<Media>, i: nat,
                    written: bool, created: seq<MediaView>) returns (r: Result<seq<MediaView>>)
    requires db.Valid()
    requires i < |rows|
    requires db.media == base + Placed(start, rows[..i]) && db.nextMediaId == start + i
    requires created == PlacedViews(start, rows[..i])
    modifies db`media, db`nextMediaId
    ensures db.Valid()
    ensures r.Ok? <==> written && MediaValid(rows[i])
    ensures r.Ok? ==> && db.media == base + Placed(start, rows[..i + 1]) && db.nextMediaId == start + i + 1
                      && r.value == PlacedViews(start, rows[..i + 1])
    ensures r.Err? ==> && db.media == old(db.media) && db.nextMediaId == old(db.nextMediaId)
                       && r.error == if written then DatabaseError else StorageError
  {
    if !written {
      return Err(StorageError);
    }
    var id := db.nextMediaId;
    var ok := InsertMedia(db, rows[i]);
    if !ok {
      return Err(DatabaseError);
    }
    PlaceNext(base, start, rows, i);
    PlacedViewsNext(start, rows, i);
    r := Ok(created + [MediaViewOf(id, rows[i])]);
  }

  /** The loop of upload_media over its files: each is written and its row
      added and committed on its own under the next id. The first file whose
      write raises or whose row breaks a column bound ends the request, with
      the rows of the files before it kept. */
  method CommitEach(db: Database, rows: seq<Media>, written: nat -> bool) returns (r: Result<seq<MediaView>>)
    requires db.Valid()
    modifies db`media, db`nextMediaId
    ensures db.Valid()
    ensures var k := FirstFailed(rows, written, 0);
            var start := old(db.nextMediaId);
            && (forall id | id in old(db.media) :: id < start)
            && db.media == old(db.media) + Placed(start, rows[..k])
            && db.nextMediaId == start + k
            && (k == |rows| ==> r == Ok(PlacedViews(start, rows)))
            && (k < |rows| ==> r == Err(if written(k) then DatabaseError else StorageError))
  {
    ghost var k := FirstFailed(rows, written, 0);
    var start := db.nextMediaId;
    ghost var base := db.media;
    assert Placed(start, rows[..0]) == map[];
    assert base + map[] == base;
    assert PlacedViews(start, rows[..0]) == [];
    var created := [];
    var i := 0;
    while i < |rows|
      invariant 0 <= i <= k
      invariant db.media == base + Placed(start, rows[..i])
      invariant db.nextMediaId == start + i
      invariant created == PlacedViews(start, rows[..i])
      invariant db.Valid()
    {
      r := CommitNext(db, base, start, rows, i, written(i), created);
      if r.Err? {
        FailedHere(rows, written, i);
        return;
      }
      created := r.value;
      i := i + 1;
    }
    assert rows[..i] == rows;
    r := Ok(created);
  }

  /** POST /media. A date `fromisoformat` rejects gives 400 and no change.
      Otherwise the files are handled one by one: each is written to disk
      (`written(i)` says whether writing the `i`-th file succeeds) and then
      its row is committed on its own under the next id. The first file
      whose write raises, or whose row breaks a column bound (an original
      name over 255 characters, a stored path over 1024, a subscriber id
      beyond a 32-bit integer), ends the request with a storage or database
      error there, and the rows of the files before it stay. If none fails,
      every file has its row, in order, and the views are returned in the
      same order. */
  method UploadMedia(db: Database, p: Platform, actor: int, files: seq<Upload>, userId: int, date: string,
                     clock: nat -> Timestamp, written: nat -> bool) returns (r: Result<seq<MediaView>>)
    requires db.Valid()
    modifies db
    ensures db.Valid()
    ensures p.parseIsoDate(date).None? ==> r == Err(InvalidDate) && unchanged(db)
    ensures p.parseIsoDate(date).Some? ==>
              var rows := UploadRows(userId, date, p.parseIsoDate(date).value, actor, files, clock);
              var k := FirstFailed(rows, written, 0);
              var start := old(db.nextMediaId);
              && (forall id | id in old(db.media) :: id < start)
              && db.media == old(db.media) + Placed(start, rows[..k])
              && db.nextMediaId == start + k
              && db.OnlyMediaChanged()
              && (k == |rows| ==> r == Ok(PlacedViews(start, rows)))
              && (k < |rows| ==> r == Err(if written(k) then DatabaseError else StorageError))
  {
    var parsed := p.parseIsoDate(date);
    if parsed.None? {
      return Err(InvalidDate);
    }
    var rows := UploadRows(userId, date, parsed.value, actor, files, clock);
    r := CommitEach(db, rows, written);
  }

  /** Every stored upload is found again by list_media for its subscriber
      and day, under the URL upload_media returned for it, and that URL
      lies under `/uploads/subscriber_<user_id>/<date>/`. */
  lemma UploadedRowsAreListed(userId: int, date: string, day: Date, actor: int, files: seq<Upload>,
                              clock: nat -> Timestamp, start: int, i: int)
    requires 0 <= i < |files|
    ensures var rows := UploadRows(userId, date, day, actor, files, clock);
            && MediaListed(rows[i], userId, day)
            && rows[i].addedBy == Some(actor)
            && rows[i].originalName == files[i].filename
            && PlacedViews(start, rows)[i] == MediaViewOf(start + i, rows[i])
            && StartsWith(PlacedViews(start, rows)[i].url, "/uploads/" + UploadDir(userId, date) + "/")
  {
    var rows := UploadRows(userId, date, day, actor, files, clock);
    UploadRowAt(userId, date, day, actor, files, clock, i);
    PlacedViewAt(start, rows, i);
    var dir := UploadDir(userId, date);
    var path := rows[i].storedPath;
    StoredPathInsideUploadDir(userId, date, clock(i), files[i].filename);
    var url := PublicUrl(path);
    assert url == "/uploads/" + path;
    assert url[..|"/uploads/" + dir + "/"|] == "/uploads/" + path[..|dir| + 1];
  }

  /** The table after media row `id` is soft-deleted. */
  function MarkMediaDeleted(media: map<int, Media>, id: int): map<int, Media>
    requires id in media
  {
    media[id := media[id].(isDeleted := true)]
  }

  /** A soft delete keeps every row and its column bounds, and takes the row
      out of every listing: it no longer passes list_media's filter for any
      subscriber and day, while every other row keeps its standing. */
  lemma SoftDeleteUnlists(media: map<int, Media>, id: int)
    requires id in media
    requires MediaTableValid(media)
    ensures var after := MarkMediaDeleted(media, id);
            && after.Keys == media.Keys
            && MediaTableValid(after)
            && (forall userId: int, day: Date :: !MediaListed(after[id], userId, day))
            && (forall k | k in media && k != id :: after[k] == media[k])
            && MarkMediaDeleted(after, id) == after
  {
    var after := MarkMediaDeleted(media, id);
    PutMedia(media, id, media[id].(isDeleted := true));
    assert after.Keys == media.Keys;
  }

  /** DELETE /media/{media_id}: a soft delete. A missing id gives 404;
      otherwise the row is marked deleted and stays in the table. */
  method DeleteMedia(db: Database, mediaId: int) returns (r: Result<string>)
    requires db.Valid()
    modifies db
    ensures db.Valid()
    ensures mediaId !in old(db.media) ==> r == Err(MediaNotFound) && unchanged(db)
    ensures mediaId in old(db.media)
            ==> && r == Ok(MediaDeleted)
                && db.media == MarkMediaDeleted(old(db.media), mediaId)
                && db.nextMediaId == old(db.nextMediaId)
                && db.OnlyMediaChanged()
  {
    if mediaId !in db.media {
      return Err(MediaNotFound);
    }
    var media' := db.media[mediaId := db.media[mediaId].(isDeleted := true)];
    SoftDeleteUnlists(db.media, mediaId);
    db.media := media';
    r := Ok(MediaDeleted);
  }
}
