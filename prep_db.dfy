/** The local preparation database (apps/ai/preps/dblite.py): the `Image` and `ImageTag`
    tables of apps/ai/preps/init_sqlite.py held in rowid order, the status transitions
    PENDING -> CAPTIONED -> READY applied to them, and the read-only queries and export. */
module PrepDb {
  import opened Wrappers
  import opened Strings
  import opened Sorting

  const PENDING := "PENDING"
  const CAPTIONED := "CAPTIONED"
  const READY := "READY"
  const DELETED := "DELETED"

  /** The export's makeshift public location of an image, before its id. */
  const CLOUD_URL_PREFIX := "https://storage.googleapis.com/gdg-ku-meme4you-test/"

  /** The columns of the `Image` table; a bare word in SQL must name one of them. */
  const IMAGE_COLUMNS: set<string> :=
    {"image_id", "original_url", "like_cnt", "width", "height", "src_url", "caption",
     "cloud_url", "status"}

  /** One row of `Image`. TEXT columns are nullable; `None` is SQL NULL. */
  datatype ImageRow = ImageRow(
    imageId: int,
    originalUrl: Option<string>,
    likeCnt: int,
    width: int,
    height: int,
    srcUrl: Option<string>,
    caption: Option<string>,
    cloudUrl: Option<string>,
    status: Option<string>)

  /** One row of `ImageTag`: the relation between an image id and a tag name. */
  datatype ImageTagRow = ImageTagRow(imageTagId: int, imageId: int, tag: string)

  /** One row of the `Tag` table that the export reads. */
  datatype TagRow = TagRow(tagId: int, tagName: string)

  /** The errors SQLite reports for the statements modelled here. */
  datatype DbError = NoSuchColumn(column: string) | NoSuchTable(table: string)

  /** One key of the dictionary returned by `get_status_counts`. */
  datatype StatusCount = StatusCount(status: string, count: nat)

  /** One entry of the exported images file. */
  datatype ExportedImage = ExportedImage(
    imageId: int,
    originalUrl: Option<string>,
    srcUrl: Option<string>,
    cloudUrl: string,
    caption: Option<string>,
    width: int,
    height: int,
    likeCnt: int,
    tags: seq<string>)

  /** What the export produces: the tags file and, when some image is READY, the images
      file. */
  datatype Export = Export(tags: seq<TagRow>, images: Option<seq<ExportedImage>>)

  predicate IdsIncreasing(rows: seq<ImageRow>) {
    forall i, j :: 0 <= i < j < |rows| ==> rows[i].imageId < rows[j].imageId
  }

  // ---------------------------------------------------------------------------------
  // Queries, as functions of the table contents

  /** `SELECT * FROM Image WHERE status = ?`: a NULL status never equals the argument. */
  function WithStatus(rows: seq<ImageRow>, status: string): (r: seq<ImageRow>)
    ensures forall row :: row in r <==> row in rows && row.status == Some(status)
    ensures |r| <= |rows|
  {
    if rows == [] then []
    else
      var rest := WithStatus(rows[1..], status);
      assert rows == [rows[0]] + rows[1..];
      if rows[0].status == Some(status) then [rows[0]] + rest else rest
  }

  /** The selection keeps the id order of the table. */
  lemma {:induction false} WithStatusIncreasing(rows: seq<ImageRow>, status: string)
    requires IdsIncreasing(rows)
    ensures IdsIncreasing(WithStatus(rows, status))
  {
    if rows != [] {
      var rest := WithStatus(rows[1..], status);
      WithStatusIncreasing(rows[1..], status);
      if rows[0].status == Some(status) {
        HeadIdLeast(rows);
        var r := [rows[0]] + rest;
        forall i, j | 0 <= i < j < |r| ensures r[i].imageId < r[j].imageId {
          assert r[j] == rest[j - 1] && rest[j - 1] in rest;
          if i > 0 {
            assert r[i] == rest[i - 1];
          }
        }
      }
    }
  }

  /** Every row after the first has a larger id. */
  lemma HeadIdLeast(rows: seq<ImageRow>)
    requires IdsIncreasing(rows) && rows != []
    ensures forall row :: row in rows[1..] ==> rows[0].imageId < row.imageId
  {
    forall row | row in rows[1..] ensures rows[0].imageId < row.imageId {
      var m :| 0 <= m < |rows| - 1 && rows[1..][m] == row;
      assert rows[m + 1] == row;
    }
  }

  /** The status a row is counted under: `COALESCE(status, 'PENDING')`. */
  function Coalesced(row: ImageRow): (r: string)
    ensures row.status.None? ==> r == PENDING
    ensures row.status.Some? ==> r == row.status.value
  {
    if row.status.Some? then row.status.value else PENDING
  }

  /** Number of rows counted under a status key. */
  function CountStatus(rows: seq<ImageRow>, key: string): (r: nat)
    ensures r <= |rows|
  {
    if rows == [] then 0
    else CountStatus(rows[..|rows| - 1], key) + (if Coalesced(rows[|rows| - 1]) == key then 1 else 0)
  }

  /** Whether the dictionary has the key. */
  predicate HasKey(counts: seq<StatusCount>, key: string) {
    exists k :: 0 <= k < |counts| && counts[k].status == key
  }

  predicate KeysDistinct(counts: seq<StatusCount>) {
    forall i, j :: 0 <= i < j < |counts| ==> counts[i].status != counts[j].status
  }

  /** The dictionary `get_status_counts` starts from. */
  const INITIAL_COUNTS := [StatusCount(PENDING, 0), StatusCount(CAPTIONED, 0), StatusCount(READY, 0)]

  /** Count one more row under `key`, adding the key after the existing ones if new. */
  function Bump(counts: seq<StatusCount>, key: string): (r: seq<StatusCount>)
    ensures |r| == if HasKey(counts, key) then |counts| else |counts| + 1
    ensures forall k :: 0 <= k < |counts| ==> r[k].status == counts[k].status
    ensures forall k :: 0 <= k < |counts| ==>
      r[k].count == counts[k].count + (if counts[k].status == key then 1 else 0)
    ensures !HasKey(counts, key) ==> r[|counts|] == StatusCount(key, 1)
  {
    if HasKey(counts, key) then
      seq(|counts|, k requires 0 <= k < |counts| =>
        if counts[k].status == key then StatusCount(key, counts[k].count + 1) else counts[k])
    else
      assert forall k :: 0 <= k < |counts| ==> counts[k].status != key;
      counts + [StatusCount(key, 1)]
  }

  /** The per-status counts of `get_status_counts`, one row at a time. */
  function StatusCounts(rows: seq<ImageRow>): (r: seq<StatusCount>)
    ensures |r| >= 3 && r[0].status == PENDING && r[1].status == CAPTIONED && r[2].status == READY
  {
    if rows == [] then INITIAL_COUNTS
    else Bump(StatusCounts(rows[..|rows| - 1]), Coalesced(rows[|rows| - 1]))
  }

  /** The total shown by `worker_dbstat`: the sum of the dictionary's values. */
  function Total(counts: seq<StatusCount>): (r: nat)
    ensures forall k :: 0 <= k < |counts| ==> counts[k].count <= r
  {
    if counts == [] then 0 else Total(counts[..|counts| - 1]) + counts[|counts| - 1].count
  }

  /** Raising one entry by one raises the total by one. */
  lemma {:induction false} TotalRaiseOne(a: seq<StatusCount>, b: seq<StatusCount>, i: nat)
    requires |a| == |b| && i < |a|
    requires forall k :: 0 <= k < |a| && k != i ==> b[k].count == a[k].count
    requires b[i].count == a[i].count + 1
    ensures Total(b) == Total(a) + 1
    decreases |a|
  {
    var last := |a| - 1;
    if i == last {
      TotalSame(a[..last], b[..last]);
    } else {
      TotalRaiseOne(a[..last], b[..last], i);
    }
  }

  lemma {:induction false} TotalSame(a: seq<StatusCount>, b: seq<StatusCount>)
    requires |a| == |b|
    requires forall k :: 0 <= k < |a| ==> b[k].count == a[k].count
    ensures Total(b) == Total(a)
    decreases |a|
  {
    if a != [] {
      TotalSame(a[..|a| - 1], b[..|b| - 1]);
    }
  }

  lemma TotalOfBump(counts: seq<StatusCount>, key: string)
    requires KeysDistinct(counts)
    ensures Total(Bump(counts, key)) == Total(counts) + 1
  {
    var r := Bump(counts, key);
    if HasKey(counts, key) {
      var i :| 0 <= i < |counts| && counts[i].status == key;
      TotalRaiseOne(counts, r, i);
    } else {
      assert r[..|r| - 1] == counts;
    }
  }

  /** One Bump keeps the keys distinct, keeps extra keys positive and covers the new key. */
  lemma BumpKeys(counts: seq<StatusCount>, key: string)
    requires KeysDistinct(counts)
    ensures KeysDistinct(Bump(counts, key))
    ensures HasKey(Bump(counts, key), key)
    ensures forall x :: HasKey(counts, x) ==> HasKey(Bump(counts, key), x)
  {
    var r := Bump(counts, key);
    if HasKey(counts, key) {
      var i :| 0 <= i < |counts| && counts[i].status == key;
      assert r[i].status == key;
    } else {
      assert r[|counts|].status == key;
    }
    forall x | HasKey(counts, x) ensures HasKey(r, x) {
      var i :| 0 <= i < |counts| && counts[i].status == x;
      assert r[i].status == x;
    }
  }

  /** The three fixed keys come first and stay distinct from all others. */
  lemma {:induction false} StatusCountsKeys(rows: seq<ImageRow>)
    ensures var c := StatusCounts(rows);
      && |c| >= 3 && c[0].status == PENDING && c[1].status == CAPTIONED && c[2].status == READY
      && KeysDistinct(c)
      && (forall j :: 0 <= j < |rows| ==> HasKey(c, Coalesced(rows[j])))
  {
    if rows != [] {
      var init := rows[..|rows| - 1];
      StatusCountsKeys(init);
      BumpKeys(StatusCounts(init), Coalesced(rows[|rows| - 1]));
      forall j | 0 <= j < |rows| ensures HasKey(StatusCounts(rows), Coalesced(rows[j])) {
        if j < |rows| - 1 {
          assert rows[j] == init[j];
        }
      }
    }
  }

  /** A status that is not a key was counted for no row. */
  lemma NotCountedWithoutKey(rows: seq<ImageRow>, key: string)
    requires forall j :: 0 <= j < |rows| ==> HasKey(StatusCounts(rows), Coalesced(rows[j]))
    requires !HasKey(StatusCounts(rows), key)
    ensures CountStatus(rows, key) == 0
  {
    if CountStatus(rows, key) != 0 {
      CountedKeyOccurs(rows, key);
    }
  }

  lemma CountStatusSnoc(init: seq<ImageRow>, row: ImageRow, key: string)
    ensures CountStatus(init + [row], key) == CountStatus(init, key) + (if Coalesced(row) == key then 1 else 0)
  {
    assert (init + [row])[..|init|] == init;
  }

  /** The values of the status counts sum to the number of rows. */
  lemma {:induction false} StatusCountsTotal(rows: seq<ImageRow>)
    ensures Total(StatusCounts(rows)) == |rows|
  {
    if rows == [] {
      assert INITIAL_COUNTS[..0] == [];
      assert INITIAL_COUNTS[..1][..0] == [];
      assert INITIAL_COUNTS[..2][..1] == INITIAL_COUNTS[..1];
      assert INITIAL_COUNTS[..3][..2] == INITIAL_COUNTS[..2];
      assert Total(INITIAL_COUNTS[..1]) == 0;
      assert Total(INITIAL_COUNTS[..2]) == 0;
      assert INITIAL_COUNTS[..3] == INITIAL_COUNTS;
    } else {
      var init := rows[..|rows| - 1];
      StatusCountsTotal(init);
      StatusCountsKeys(init);
      TotalOfBump(StatusCounts(init), Coalesced(rows[|rows| - 1]));
    }
  }

  /** Every key's value is the number of rows counted under it; a key beyond the three fixed
      ones has at least one row. */
  lemma {:induction false} StatusCountsValues(rows: seq<ImageRow>)
    ensures var c := StatusCounts(rows);
      && (forall k :: 0 <= k < |c| ==> c[k].count == CountStatus(rows, c[k].status))
      && (forall k :: 3 <= k < |c| ==> c[k].count > 0)
  {
    if rows != [] {
      var init := rows[..|rows| - 1];
      var row := rows[|rows| - 1];
      var key := Coalesced(row);
      assert rows == init + [row];
      StatusCountsValues(init);
      var c0 := StatusCounts(init);
      var c := Bump(c0, key);
      assert c == StatusCounts(rows);
      StatusCountsKeys(init);
      forall k | 0 <= k < |c| ensures c[k].count == CountStatus(rows, c[k].status) {
        CountStatusSnoc(init, row, c[k].status);
        if k < |c0| {
          assert c[k].count == CountStatus(init, c0[k].status) + (if c0[k].status == key then 1 else 0);
        } else {
          assert !HasKey(c0, key);
          assert c[k] == StatusCount(key, 1);
          NotCountedWithoutKey(init, key);
        }
      }
      forall k | 3 <= k < |c| ensures c[k].count > 0 {
        if k < |c0| {
          assert c[k].count >= c0[k].count;
        }
      }
    }
  }

  /** The structure of the status counts: the three fixed keys first, distinct keys, every
      key's value is its row count, extra keys only for statuses that occur, and the values
      sum to the number of rows. */
  lemma StatusCountsShape(rows: seq<ImageRow>)
    ensures var c := StatusCounts(rows);
      && |c| >= 3 && c[0].status == PENDING && c[1].status == CAPTIONED && c[2].status == READY
      && KeysDistinct(c)
      && (forall k :: 0 <= k < |c| ==> c[k].count == CountStatus(rows, c[k].status))
      && (forall k :: 3 <= k < |c| ==> c[k].count > 0)
      && (forall j :: 0 <= j < |rows| ==> HasKey(c, Coalesced(rows[j])))
      && Total(c) == |rows|
  {
    StatusCountsKeys(rows);
    StatusCountsValues(rows);
    StatusCountsTotal(rows);
  }

  /** A key with a positive count is the status of some row. */
  lemma {:induction false} CountedKeyOccurs(rows: seq<ImageRow>, key: string)
    requires CountStatus(rows, key) > 0
    ensures exists j :: 0 <= j < |rows| && Coalesced(rows[j]) == key
  {
    var last := |rows| - 1;
    if Coalesced(rows[last]) != key {
      CountedKeyOccurs(rows[..last], key);
      var j :| 0 <= j < last && Coalesced(rows[..last][j]) == key;
      assert rows[j] == rows[..last][j];
    }
  }

  /** A URL counts for de-duplication when it is neither NULL nor empty. */
  predicate HasUrl(row: ImageRow) {
    !Falsy(row.originalUrl)
  }

  /** `get_all_img_urls`: the truthy `original_url` of every row, whatever its status, in
      row order. */
  function AllImgUrls(rows: seq<ImageRow>): (r: seq<string>)
    ensures |r| <= |rows|
    ensures forall u :: u in r <==> exists j :: 0 <= j < |rows| && HasUrl(rows[j]) && rows[j].originalUrl.value == u
    ensures forall u :: u in r ==> u != ""
  {
    if rows == [] then []
    else
      var last := |rows| - 1;
      var init := AllImgUrls(rows[..last]);
      assert forall k :: 0 <= k < last ==> rows[..last][k] == rows[k];
      if HasUrl(rows[last]) then init + [rows[last].originalUrl.value] else init
  }
  /** The urls of consecutive row ranges follow one another: the listing keeps row order. */
  lemma {:induction false} AllImgUrlsAppend(a: seq<ImageRow>, b: seq<ImageRow>)
    ensures AllImgUrls(a + b) == AllImgUrls(a) + AllImgUrls(b)
    decreases |b|
  {
    if b == [] {
      assert a + b == a;
    } else {
      var last := |b| - 1;
      assert (a + b)[..|a + b| - 1] == a + b[..last];
      AllImgUrlsAppend(a, b[..last]);
    }
  }

  /** One row contributes its url exactly when the url is non-NULL and non-empty. */
  lemma AllImgUrlsOne(row: ImageRow)
    ensures AllImgUrls([row]) == if HasUrl(row) then [row.originalUrl.value] else []
  {
    assert [row][..0] == [];
  }

  /** When every row has a url, the listing is the rows' urls one for one: equal urls of
      different rows are all kept. */
  lemma {:induction false} AllImgUrlsEveryRow(rows: seq<ImageRow>)
    requires forall j :: 0 <= j < |rows| ==> HasUrl(rows[j])
    ensures |AllImgUrls(rows)| == |rows|
    ensures forall j :: 0 <= j < |rows| ==> AllImgUrls(rows)[j] == rows[j].originalUrl.value
  {
    if rows != [] {
      var last := |rows| - 1;
      AllImgUrlsEveryRow(rows[..last]);
    }
  }


  /** `SELECT * FROM Image ORDER BY image_id LIMIT ? OFFSET ?` over rows kept in id order. */
  function Page(rows: seq<ImageRow>, limit: nat, offset: nat): (r: seq<ImageRow>)
    ensures |r| == if offset >= |rows| then 0 else (if limit < |rows| - offset then limit else |rows| - offset)
    ensures forall k :: 0 <= k < |r| ==> r[k] == rows[offset + k]
  {
    if offset >= |rows| then []
    else if limit < |rows| - offset then rows[offset..offset + limit]
    else rows[offset..]
  }

  /** Paging with a fixed page size shows every row exactly once: row j is at position
      j % size of the page that starts at (j / size) * size. */
  lemma RowOnItsPage(rows: seq<ImageRow>, size: nat, j: nat)
    requires size > 0 && j < |rows|
    ensures var p := Page(rows, size, (j / size) * size);
      j % size < |p| && p[j % size] == rows[j]
  {
    assert j == (j / size) * size + j % size;
  }

  /** `SELECT tag FROM ImageTag WHERE image_id = ?`, in row order. */
  function TagsOf(tagRows: seq<ImageTagRow>, id: int): (r: seq<string>)
    ensures |r| <= |tagRows|
  {
    if tagRows == [] then []
    else
      var last := |tagRows| - 1;
      var init := TagsOf(tagRows[..last], id);
      if tagRows[last].imageId == id then init + [tagRows[last].tag] else init
  }

  /** The tags listed for an id are those of the rows that carry it. */
  lemma {:induction false} TagsOfMembers(tagRows: seq<ImageTagRow>, id: int)
    ensures forall t :: t in TagsOf(tagRows, id) <==>
      exists k :: 0 <= k < |tagRows| && tagRows[k].imageId == id && tagRows[k].tag == t
  {
    if tagRows != [] {
      var last := |tagRows| - 1;
      TagsOfMembers(tagRows[..last], id);
      assert forall k :: 0 <= k < last ==> tagRows[..last][k] == tagRows[k];
    }
  }

  lemma {:induction false} TagsOfAppend(a: seq<ImageTagRow>, b: seq<ImageTagRow>, id: int)
    ensures TagsOf(a + b, id) == TagsOf(a, id) + TagsOf(b, id)
    decreases |b|
  {
    if b != [] {
      var last := |b| - 1;
      assert (a + b)[..|a + b| - 1] == a + b[..last];
      TagsOfAppend(a, b[..last], id);
    } else {
      assert a + b == a;
    }
  }

  // ---------------------------------------------------------------------------------
  // Updates, as functions from the old table contents to the new

  /** `UPDATE Image SET status = ? WHERE image_id = ?` for every id of a list. */
  function MarkStatus(rows: seq<ImageRow>, ids: seq<int>, status: string): (r: seq<ImageRow>)
    ensures |r| == |rows|
  {
    seq(|rows|, j requires 0 <= j < |rows| =>
      if rows[j].imageId in ids then rows[j].(status := Some(status)) else rows[j])
  }

  /** Marking: exactly the rows with a listed id get the new status, whatever their old status
      and with every other column kept; rows of unlisted ids and listed ids with no row leave
      the table as it was; the ids and their order are kept. */
  lemma MarkStatusEffect(rows: seq<ImageRow>, ids: seq<int>, status: string)
    ensures var r := MarkStatus(rows, ids, status);
      && (forall j :: 0 <= j < |rows| ==> r[j].imageId == rows[j].imageId)
      && (forall j :: 0 <= j < |rows| && rows[j].imageId in ids ==>
            r[j].status == Some(status) && r[j] == rows[j].(status := r[j].status))
      && (forall j :: 0 <= j < |rows| && rows[j].imageId !in ids ==> r[j] == rows[j])
      && (IdsIncreasing(rows) ==> IdsIncreasing(r))
      && ((forall j :: 0 <= j < |rows| ==> rows[j].imageId !in ids) ==> r == rows)
  {
  }

  /** Applying the same status to the same ids twice changes nothing more: soft delete and
      the status override are idempotent. */
  lemma MarkStatusIdempotent(rows: seq<ImageRow>, ids: seq<int>, status: string)
    ensures MarkStatus(MarkStatus(rows, ids, status), ids, status) == MarkStatus(rows, ids, status)
  {
  }

  /** After marking ids READY, the READY listing holds exactly the rows of listed ids plus
      those that were READY already. */
  lemma {:induction false} MarkedAreListed(rows: seq<ImageRow>, ids: seq<int>, status: string)
    ensures var r := MarkStatus(rows, ids, status);
      forall j :: 0 <= j < |rows| ==>
        (r[j] in WithStatus(r, status) <==> rows[j].imageId in ids || rows[j].status == Some(status))
  {
    var r := MarkStatus(rows, ids, status);
    forall j | 0 <= j < |rows|
      ensures r[j] in WithStatus(r, status) <==> rows[j].imageId in ids || rows[j].status == Some(status)
    {
      assert r[j] in r;
    }
  }

  /** One caption update: `UPDATE Image SET caption = ?, status = 'CAPTIONED' WHERE image_id = ?`. */
  function SetCaption(rows: seq<ImageRow>, id: int, caption: string): (r: seq<ImageRow>)
    ensures |r| == |rows|
  {
    seq(|rows|, j requires 0 <= j < |rows| =>
      if rows[j].imageId == id then rows[j].(caption := Some(caption), status := Some(CAPTIONED))
      else rows[j])
  }

  /** The first n pairs of `zip(captions, image_ids)` applied in order. */
  function ApplyCaptions(rows: seq<ImageRow>, ids: seq<int>, captions: seq<string>, n: nat): (r: seq<ImageRow>)
    requires n <= |ids| && n <= |captions|
    ensures |r| == |rows|
  {
    if n == 0 then rows
    else SetCaption(ApplyCaptions(rows, ids, captions, n - 1), ids[n - 1], captions[n - 1])
  }

  /** The caption the last of the first n pairs gives to `id`, if any pair names it. */
  function LastCaption(ids: seq<int>, captions: seq<string>, n: nat, id: int): (c: Option<string>)
    requires n <= |ids| && n <= |captions|
    ensures c.None? <==> id !in ids[..n]
    ensures c.Some? ==> c.value in captions[..n]
  {
    if n == 0 then None
    else if ids[n - 1] == id then
      assert ids[n - 1] in ids[..n];
      assert captions[n - 1] in captions[..n];
      Some(captions[n - 1])
    else
      var c := LastCaption(ids, captions, n - 1, id);
      assert ids[..n] == ids[..n - 1] + [ids[n - 1]];
      assert captions[..n] == captions[..n - 1] + [captions[n - 1]];
      c
  }

  /** What `update_captioned` does to a row: if its id is among the paired ids, the caption
      of the last pair naming it and status CAPTIONED; otherwise nothing. Ids beyond the
      shorter list are not paired. */
  lemma {:induction false} ApplyCaptionsEffect(rows: seq<ImageRow>, ids: seq<int>, captions: seq<string>, n: nat, j: nat)
    requires n <= |ids| && n <= |captions| && j < |rows|
    ensures var r := ApplyCaptions(rows, ids, captions, n);
      match LastCaption(ids, captions, n, rows[j].imageId)
      case None => r[j] == rows[j]
      case Some(c) => r[j] == rows[j].(caption := Some(c), status := Some(CAPTIONED))
  {
    if n > 0 {
      ApplyCaptionsEffect(rows, ids, captions, n - 1, j);
    }
  }

  /** The ImageTag rows inserted for one (id, tags) pair, numbered from `first`. */
  function RowsForOne(id: int, tags: seq<string>, first: int): (r: seq<ImageTagRow>)
    ensures |r| == |tags|
    ensures forall t :: 0 <= t < |tags| ==> r[t] == ImageTagRow(first + t, id, tags[t])
  {
    seq(|tags|, t requires 0 <= t < |tags| => ImageTagRow(first + t, id, tags[t]))
  }

  /** The ImageTag rows inserted for the first n pairs of `zip(image_ids, tags_list)`. */
  function TagRowsUpTo(ids: seq<int>, tagsList: seq<seq<string>>, n: nat, first: int): (r: seq<ImageTagRow>)
    requires n <= |ids| && n <= |tagsList|
    ensures forall k :: 0 <= k < |r| ==> r[k].imageTagId == first + k
  {
    if n == 0 then []
    else
      var init := TagRowsUpTo(ids, tagsList, n - 1, first);
      init + RowsForOne(ids[n - 1], tagsList[n - 1], first + |init|)
  }

  /** Tags of `id` among the first n pairs, in pair order. */
  function PairedTags(ids: seq<int>, tagsList: seq<seq<string>>, n: nat, id: int): seq<string>
    requires n <= |ids| && n <= |tagsList|
  {
    if n == 0 then []
    else PairedTags(ids, tagsList, n - 1, id) + (if ids[n - 1] == id then tagsList[n - 1] else [])
  }

  lemma TagsOfOne(id: int, tags: seq<string>, first: int, x: int)
    ensures TagsOf(RowsForOne(id, tags, first), x) == if id == x then tags else []
    decreases |tags|
  {
    if tags != [] {
      var last := |tags| - 1;
      assert RowsForOne(id, tags, first)[..last] == RowsForOne(id, tags[..last], first);
      TagsOfOne(id, tags[..last], first, x);
      assert tags == tags[..last] + [tags[last]];
    }
  }

  /** `update_captioned` adds one ImageTag row per (id, tag) pair: the tags the new rows give
      an id are the tags of its pairs, in order, and the new rows are numbered consecutively. */
  lemma {:induction false} TagRowsEffect(ids: seq<int>, tagsList: seq<seq<string>>, n: nat, first: int, id: int)
    requires n <= |ids| && n <= |tagsList|
    ensures TagsOf(TagRowsUpTo(ids, tagsList, n, first), id) == PairedTags(ids, tagsList, n, id)
  {
    if n > 0 {
      TagRowsStep(ids, tagsList, n, first, id);
      TagRowsEffect(ids, tagsList, n - 1, first, id);
    }
  }

  /** The rows of the n-th pair add its tags to the tags of its id, and nothing to others. */
  lemma TagRowsStep(ids: seq<int>, tagsList: seq<seq<string>>, n: nat, first: int, id: int)
    requires 0 < n <= |ids| && n <= |tagsList|
    ensures TagsOf(TagRowsUpTo(ids, tagsList, n, first), id)
      == TagsOf(TagRowsUpTo(ids, tagsList, n - 1, first), id) + (if ids[n - 1] == id then tagsList[n - 1] else [])
  {
    var init := TagRowsUpTo(ids, tagsList, n - 1, first);
    var one := RowsForOne(ids[n - 1], tagsList[n - 1], first + |init|);
    var whole := TagRowsUpTo(ids, tagsList, n, first);
    assert whole == init + one;
    TagsOfAppend(init, one, id);
    TagsOfOne(ids[n - 1], tagsList[n - 1], first + |init|, id);
    assert TagsOf(whole, id) == TagsOf(init, id) + TagsOf(one, id);
  }

  /** The export's address for an image id. */
  function CloudUrl(id: int): (u: string)
    ensures |u| > |CLOUD_URL_PREFIX| + 4
    ensures u[..|CLOUD_URL_PREFIX|] == CLOUD_URL_PREFIX
    ensures u[|u| - 4..] == ".jpg"
  {
    CLOUD_URL_PREFIX + IntToString(id) + ".jpg"
  }

  /** Distinct images never share an exported address. */
  lemma CloudUrlInjective(a: int, b: int)
    requires CloudUrl(a) == CloudUrl(b)
    ensures a == b
  {
    var sa, sb := IntToString(a), IntToString(b);
    assert CloudUrl(a)[|CLOUD_URL_PREFIX|..|CloudUrl(a)| - 4] == sa;
    assert CloudUrl(b)[|CLOUD_URL_PREFIX|..|CloudUrl(b)| - 4] == sb;
    IntToStringInjective(a, b);
  }

  function ExportEntry(row: ImageRow, tagRows: seq<ImageTagRow>): (r: ExportedImage)
    ensures r.imageId == row.imageId && |r.cloudUrl| > |CLOUD_URL_PREFIX| && r.cloudUrl[..|CLOUD_URL_PREFIX|] == CLOUD_URL_PREFIX
    ensures r.tags == TagsOf(tagRows, row.imageId)
    ensures forall t :: t in r.tags <==> exists k :: 0 <= k < |tagRows| && tagRows[k].imageId == row.imageId && tagRows[k].tag == t
  {
    TagsOfMembers(tagRows, row.imageId);
    ExportedImage(row.imageId, row.originalUrl, row.srcUrl, CloudUrl(row.imageId), row.caption,
                  row.width, row.height, row.likeCnt, TagsOf(tagRows, row.imageId))
  }

  /** The Image table of a store: ids increase in rowid order and stay below the next id. */
  predicate ImagesValid(rows: seq<ImageRow>, nextId: int) {
    IdsIncreasing(rows) && forall j :: 0 <= j < |rows| ==> 1 <= rows[j].imageId < nextId
  }

  predicate TagRowsValid(tagRows: seq<ImageTagRow>, nextId: int) {
    (forall i, j :: 0 <= i < j < |tagRows| ==> tagRows[i].imageTagId < tagRows[j].imageTagId)
    && forall j :: 0 <= j < |tagRows| ==> 1 <= tagRows[j].imageTagId < nextId
  }

  /** The `all_tags_data` list of `update_captioned`: one row per (id, tag), numbered from
      `first` in pair order. */
  method BuildTagRows(ids: seq<int>, tagsList: seq<seq<string>>, m: nat, first: int) returns (newRows: seq<ImageTagRow>)
    requires m <= |ids| && m <= |tagsList|
    ensures newRows == TagRowsUpTo(ids, tagsList, m, first)
  {
    newRows := [];
    var p := 0;
    while p < m
      invariant 0 <= p <= m
      invariant newRows == TagRowsUpTo(ids, tagsList, p, first)
    {
      var tags := tagsList[p];
      var base := first + |newRows|;
      ghost var before := newRows;
      var t := 0;
      while t < |tags|
        invariant 0 <= t <= |tags|
        invariant newRows == before + RowsForOne(ids[p], tags[..t], base)
      {
        newRows := newRows + [ImageTagRow(base + t, ids[p], tags[t])];
        assert RowsForOne(ids[p], tags[..t + 1], base) == RowsForOne(ids[p], tags[..t], base) + [ImageTagRow(base + t, ids[p], tags[t])];
        t := t + 1;
      }
      assert tags[..t] == tags;
      p := p + 1;
    }
  }

  /** The database file behind `_get_conn()`: both tables and their AUTOINCREMENT counters. */
  class Store {
    var images: seq<ImageRow>
    var imageTags: seq<ImageTagRow>
    var nextImageId: int
    var nextImageTagId: int

    ghost predicate Valid()
      reads this
    {
      nextImageId >= 1 && nextImageTagId >= 1
      && ImagesValid(images, nextImageId) && TagRowsValid(imageTags, nextImageTagId)
    }

    /** A freshly initialised, empty database. */
    constructor ()
      ensures Valid()
      ensures images == [] && imageTags == []
    {
      images := [];
      imageTags := [];
      nextImageId := 1;
      nextImageTagId := 1;
    }

    /** `add_meme`: one new PENDING row with the given url, size and source, under a fresh id
        that is returned. */
    method AddMeme(originalUrl: string, width: int, height: int, srcUrl: string) returns (id: int)
      requires Valid()
      modifies this
      ensures Valid()
      ensures id == old(nextImageId) && id !in set j | 0 <= j < |old(images)| :: old(images)[j].imageId
      ensures images == old(images) + [ImageRow(id, Some(originalUrl), 0, width, height, Some(srcUrl), None, None, Some(PENDING))]
      ensures imageTags == old(imageTags) && nextImageTagId == old(nextImageTagId)
      ensures nextImageId == old(nextImageId) + 1
    {
      id := nextImageId;
      images := images + [ImageRow(id, Some(originalUrl), 0, width, height, Some(srcUrl), None, None, Some(PENDING))];
      nextImageId := nextImageId + 1;
    }

    /** `get_memes`. */
    function GetMemes(status: string): (r: seq<ImageRow>)
      reads this
      ensures forall row :: row in r <==> row in images && row.status == Some(status)
    {
      WithStatus(images, status)
    }

    /** `update_captioned`: the paired ids get their caption and status CAPTIONED, and one
        ImageTag row is added per (id, tag) of `zip(image_ids, tags_list)`; nothing else
        changes. */
    method UpdateCaptioned(ids: seq<int>, captions: seq<string>, tagsList: seq<seq<string>>)
      requires Valid()
      modifies this
      ensures Valid()
      ensures var n := if |ids| < |captions| then |ids| else |captions|;
        images == ApplyCaptions(old(images), ids, captions, n)
      ensures var m := if |ids| < |tagsList| then |ids| else |tagsList|;
        imageTags == old(imageTags) + TagRowsUpTo(ids, tagsList, m, old(nextImageTagId))
      ensures nextImageId == old(nextImageId)
      ensures nextImageTagId == old(nextImageTagId) + |imageTags| - |old(imageTags)|
    {
      var n := if |ids| < |captions| then |ids| else |captions|;
      var k := 0;
      while k < n
        invariant 0 <= k <= n
        invariant images == ApplyCaptions(old(images), ids, captions, k)
        invariant ImagesValid(images, nextImageId)
        invariant unchanged(`imageTags) && unchanged(`nextImageId) && unchanged(`nextImageTagId)
      {
        images := SetCaption(images, ids[k], captions[k]);
        k := k + 1;
      }
      var m := if |ids| < |tagsList| then |ids| else |tagsList|;
      var newRows := BuildTagRows(ids, tagsList, m, nextImageTagId);
      imageTags := imageTags + newRows;
      nextImageTagId := nextImageTagId + |newRows|;
    }

    /** Writes `status` for every listed id, one statement per id as `executemany` runs. */
    method SetStatus(ids: seq<int>, status: string)
      requires Valid()
      modifies this`images
      ensures Valid()
      ensures images == MarkStatus(old(images), ids, status)
    {
      var k := 0;
      while k < |ids|
        invariant 0 <= k <= |ids|
        invariant images == MarkStatus(old(images), ids[..k], status)
        invariant Valid()
      {
        images := MarkStatus(images, [ids[k]], status);
        assert ids[..k + 1] == ids[..k] + [ids[k]];
        k := k + 1;
      }
      assert ids[..k] == ids;
    }

    /** `update_ready`: READY for exactly the listed ids, whatever their prior status. */
    method UpdateReady(ids: seq<int>)
      requires Valid()
      modifies this`images
      ensures Valid()
      ensures images == MarkStatus(old(images), ids, READY)
    {
      SetStatus(ids, READY);
    }

    /** `update_status_only`: the chosen status for exactly the listed ids. */
    method UpdateStatusOnly(ids: seq<int>, newStatus: string)
      requires Valid()
      modifies this`images
      ensures Valid()
      ensures images == MarkStatus(old(images), ids, newStatus)
    {
      SetStatus(ids, newStatus);
    }

    /** `delete_rows_by_id` as written: `SET status = DELETED` with DELETED unquoted. SQLite
        reads a bare word as a column name, finds no column DELETED, and refuses the statement
        before any id is bound, so the call raises and no row changes. */
    method DeleteRowsByIdAsWritten(ids: seq<int>) returns (err: Option<DbError>)
      requires Valid()
      ensures err == if DELETED in IMAGE_COLUMNS then None else Some(NoSuchColumn(DELETED))
      ensures err.Some?
    {
      if DELETED in IMAGE_COLUMNS {
        err := None;
      } else {
        err := Some(NoSuchColumn(DELETED));
      }
    }

    /** `delete_rows_by_id` as intended: a soft delete that writes the status 'DELETED'. */
    method DeleteRowsById(ids: seq<int>)
      requires Valid()
      modifies this`images
      ensures Valid()
      ensures images == MarkStatus(old(images), ids, DELETED)
    {
      SetStatus(ids, DELETED);
    }

    /** `get_status_counts`: the counts grouped by `COALESCE(status, 'PENDING')` written over
        the dictionary of the three fixed keys at 0. */
    method GetStatusCounts() returns (counts: seq<StatusCount>)
      ensures |counts| >= 3 && counts[0].status == PENDING && counts[1].status == CAPTIONED && counts[2].status == READY
      ensures KeysDistinct(counts)
      ensures forall k :: 0 <= k < |counts| ==> counts[k].count == CountStatus(images, counts[k].status)
      ensures forall k :: 3 <= k < |counts| ==> counts[k].count > 0
      ensures forall j :: 0 <= j < |images| ==> HasKey(counts, Coalesced(images[j]))
      ensures Total(counts) == |images|
    {
      counts := INITIAL_COUNTS;
      var i := 0;
      while i < |images|
        invariant 0 <= i <= |images|
        invariant counts == StatusCounts(images[..i])
      {
        assert images[..i + 1][..i] == images[..i];
        counts := Bump(counts, Coalesced(images[i]));
        i := i + 1;
      }
      assert images[..i] == images;
      StatusCountsShape(images);
    }

    /** `get_all_img_urls`. */
    function GetAllImgUrls(): (r: seq<string>)
      reads this
      ensures r == AllImgUrls(images)
      ensures |r| <= |images|
      ensures forall u :: u in r <==> exists j :: 0 <= j < |images| && HasUrl(images[j]) && images[j].originalUrl.value == u
    {
      AllImgUrls(images)
    }

    /** `get_image_count`: the number of rows, which is also the total of the status counts. */
    function GetImageCount(): (n: nat)
      reads this
      ensures n == Total(StatusCounts(images))
    {
      StatusCountsShape(images);
      |images|
    }

    /** `get_paginated_images`: at most `limit` rows in id order, from position `offset`. */
    function GetPaginatedImages(limit: nat, offset: nat): (r: seq<ImageRow>)
      reads this
      requires Valid()
      ensures r == Page(images, limit, offset)
      ensures |r| <= limit
      ensures |r| > 0 ==> offset + |r| <= |images|
      ensures IdsIncreasing(r)
      ensures forall k :: 0 <= k < |r| ==> r[k] == images[offset + k]
    {
      Page(images, limit, offset)
    }

    /** `get_tags_for_image`. */
    function GetTagsForImage(id: int): (r: seq<string>)
      reads this
      ensures r == TagsOf(imageTags, id)
      ensures forall t :: t in r <==> exists k :: 0 <= k < |imageTags| && imageTags[k].imageId == id && imageTags[k].tag == t
    {
      TagsOfMembers(imageTags, id);
      TagsOf(imageTags, id)
    }

    /** The data of `export_json`. The tags file lists the `Tag` table by tag_id; the images
        file lists the READY rows with the tags of their ImageTag rows and the makeshift cloud
        url, and is not written when no row is READY. Without a `Tag` table, which the schema
        of init_sqlite.py does not create, the first query fails and nothing is exported. */
    method ExportJson(tagTable: Option<seq<TagRow>>) returns (r: Result<Export, DbError>)
      requires Valid()
      ensures tagTable.None? <==> r.Failure?
      ensures tagTable.None? ==> r == Failure(NoSuchTable("Tag"))
      ensures r.Success? ==> (SortedBy(r.value.tags, (t: TagRow) => t.tagId)
        && multiset(r.value.tags) == multiset(tagTable.value))
      ensures r.Success? ==> (r.value.images.None? <==> WithStatus(images, READY) == [])
      ensures r.Success? && r.value.images.Some? ==>
        var ready := WithStatus(images, READY);
        |r.value.images.value| == |ready|
        && forall k :: 0 <= k < |ready| ==> r.value.images.value[k] == ExportEntry(ready[k], imageTags)
    {
      if tagTable.None? {
        return Failure(NoSuchTable("Tag"));
      }
      var tags := SortBy(tagTable.value, (t: TagRow) => t.tagId);
      var readyMemes := GetMemes(READY);
      if readyMemes == [] {
        return Success(Export(tags, None));
      }
      var tagRows := imageTags;
      var imagesData := ExportEntries(readyMemes, tagRows);
      MapSeqAt(readyMemes, row => ExportEntry(row, tagRows));
      r := Success(Export(tags, Some(imagesData)));
    }
  }

  /** `f` applied to each element, in order. */
  function MapSeq<A, B>(xs: seq<A>, f: A -> B): seq<B> {
    if xs == [] then [] else MapSeq(xs[..|xs| - 1], f) + [f(xs[|xs| - 1])]
  }

  lemma {:induction false} MapSeqAt<A, B>(xs: seq<A>, f: A -> B)
    ensures |MapSeq(xs, f)| == |xs|
    ensures forall k :: 0 <= k < |xs| ==> MapSeq(xs, f)[k] == f(xs[k])
  {
    if xs != [] {
      var init := xs[..|xs| - 1];
      MapSeqAt(init, f);
      assert forall k :: 0 <= k < |init| ==> init[k] == xs[k];
    }
  }

  /** The `images_data` loop of `export_json`: one entry per row, in row order. */
  method ExportEntries(rows: seq<ImageRow>, tagRows: seq<ImageTagRow>) returns (imagesData: seq<ExportedImage>)
    ensures imagesData == MapSeq(rows, row => ExportEntry(row, tagRows))
  {
    imagesData := [];
    for i := 0 to |rows|
      invariant imagesData == MapSeq(rows[..i], row => ExportEntry(row, tagRows))
    {
      var entry := ExportRow(rows[i], tagRows);
      assert rows[..i + 1][..i] == rows[..i];
      imagesData := imagesData + [entry];
    }
    assert rows[..|rows|] == rows;
  }

  /** One entry of `images_data`. */
  method ExportRow(row: ImageRow, tagRows: seq<ImageTagRow>) returns (entry: ExportedImage)
    ensures entry == ExportEntry(row, tagRows)
  {
    var imageTagsOfRow := TagsOf(tagRows, row.imageId);
    var cloud := CloudUrl(row.imageId);
    entry := ExportedImage(row.imageId, row.originalUrl, row.srcUrl, cloud,
      row.caption, row.width, row.height, row.likeCnt, imageTagsOfRow);
  }

  /** The export's scope: an image is exported exactly when its row is READY, each once, in
      id order, and distinct images get distinct addresses. */
  lemma ExportScope(rows: seq<ImageRow>, tagRows: seq<ImageTagRow>, row: ImageRow)
    requires IdsIncreasing(rows)
    ensures var ready := WithStatus(rows, READY);
      && (row in ready <==> row in rows && row.status == Some(READY))
      && IdsIncreasing(ready)
      && (forall i, j :: 0 <= i < j < |ready| ==>
            ExportEntry(ready[i], tagRows).cloudUrl != ExportEntry(ready[j], tagRows).cloudUrl)
  {
    var ready := WithStatus(rows, READY);
    WithStatusIncreasing(rows, READY);
    forall i, j | 0 <= i < j < |ready|
      ensures ExportEntry(ready[i], tagRows).cloudUrl != ExportEntry(ready[j], tagRows).cloudUrl
    {
      if CloudUrl(ready[i].imageId) == CloudUrl(ready[j].imageId) {
        CloudUrlInjective(ready[i].imageId, ready[j].imageId);
      }
    }
  }

  /** The delete statement as written fails for every id list, while the intended soft delete
      marks a listed row DELETED: on a one-row table holding a PENDING image 1 and the id list
      [1], the row stays PENDING as written and becomes DELETED as intended. */
  lemma DeleteAsWrittenLeavesRow()
    ensures DELETED !in IMAGE_COLUMNS
    ensures var row := ImageRow(1, Some("u"), 0, 1, 1, Some("s"), None, None, Some(PENDING));
      MarkStatus([row], [1], DELETED)[0].status == Some(DELETED)
  {
  }
}
