/** `ImageService` of apps/be/src/image/image.service.ts over the Image, ImageTag and Tag tables
    the backend reads through Prisma: an image with its tag names, its download name, the like
    counter, and the ten most liked images.

    The tables are fields of the class ImageStore; each service call is one step on them, the
    awaits being taken in order. */
module ImageService {
  import opened Wrappers
  import opened Strings
  import opened Sorting

  /** A row of the Image table. */
  datatype Image = Image(imageId: int, originalUrl: Option<string>, likeCnt: int, width: int, height: int,
                         srcUrl: Option<string>, caption: Option<string>, cloudUrl: Option<string>)

  /** A row of the ImageTag relation: an image and one of its tags. */
  datatype ImageTag = ImageTag(imageTagId: int, imageId: int, tagId: int)

  /** The exceptions the backend services raise, with their messages. */
  datatype ServiceError = NotFound(message: string) | BadRequest(message: string) | InternalServerError(message: string)

  /** `getImageById`'s answer: the image's columns without the relation, and `tags`. */
  datatype ImageView = ImageView(image: Image, tags: seq<string>)

  /** `downloadImage`'s answer. */
  datatype DownloadInfo = DownloadInfo(downloadUrl: string, filename: string)

  const IMAGE_NOT_FOUND: string := "Image not found"
  const DOWNLOAD_URL_NOT_FOUND: string := "Download URL not found"
  const POPULAR_COUNT: nat := 10

  /** `findUnique` by image id. */
  function Find(images: seq<Image>, imageId: int): (r: Option<Image>)
    ensures r.Some? ==> r.value in images && r.value.imageId == imageId
    ensures images != [] && images[0].imageId == imageId ==> r == Some(images[0])
  {
    if images == [] then None
    else if images[0].imageId == imageId then Some(images[0])
    else Find(images[1..], imageId)
  }

  /** Image ids are the table's key. */
  predicate UniqueIds(images: seq<Image>) {
    forall i, j :: 0 <= i < j < |images| ==> images[i].imageId != images[j].imageId
  }

  /** The relation rows of one image, in relation order. */
  function RowsOf(imageTags: seq<ImageTag>, imageId: int): (r: seq<ImageTag>)
    ensures |r| <= |imageTags|
    ensures forall k :: 0 <= k < |r| ==> r[k].imageId == imageId
  {
    if imageTags == [] then []
    else
      var last := imageTags[|imageTags| - 1];
      RowsOf(imageTags[..|imageTags| - 1], imageId) + (if last.imageId == imageId then [last] else [])
  }

  /** `ImageTag.map(x => x.tag.tag_name)`. */
  function TagNames(rows: seq<ImageTag>, tags: map<int, string>): (names: seq<string>)
    requires forall t :: t in rows ==> t.tagId in tags
    ensures |names| == |rows|
    ensures forall k :: 0 <= k < |rows| ==> names[k] == tags[rows[k].tagId]
  {
    seq(|rows|, k requires 0 <= k < |rows| => tags[rows[k].tagId])
  }

  /** `meme_${image_id}.jpg`. */
  function Filename(imageId: int): (r: string)
    ensures |r| > 9 && r[..5] == "meme_" && r[|r| - 4..] == ".jpg"
  {
    "meme_" + IntToString(imageId) + ".jpg"
  }

  /** The table with the like count of the image set to `count`. */
  function Relike(images: seq<Image>, imageId: int, count: int): (r: seq<Image>)
    ensures |r| == |images|
    ensures forall k :: 0 <= k < |images| ==>
      r[k] == if images[k].imageId == imageId then images[k].(likeCnt := count) else images[k]
  {
    seq(|images|, k requires 0 <= k < |images| => if images[k].imageId == imageId then images[k].(likeCnt := count) else images[k])
  }

  /** The count `unlikeImage` stores: zero when the count is not positive, one less otherwise. */
  function UnlikeCount(likeCnt: int): (n: int)
    ensures n >= 0
    ensures n == if likeCnt - 1 > 0 then likeCnt - 1 else 0
  {
    if likeCnt <= 0 then 0 else likeCnt - 1
  }

  /** `findMany({ orderBy: { like_cnt: "desc" }, take: 10 })`. */
  function Popular(images: seq<Image>): (r: seq<Image>)
    ensures |r| == if |images| <= POPULAR_COUNT then |images| else POPULAR_COUNT
    ensures multiset(r) <= multiset(images)
  {
    var sorted := SortBy(images, (i: Image) => -i.likeCnt);
    var n := if |sorted| <= POPULAR_COUNT then |sorted| else POPULAR_COUNT;
    assert sorted == sorted[..n] + sorted[n..];
    sorted[..n]
  }

  class ImageStore {
    var images: seq<Image>
    var imageTags: seq<ImageTag>
    /** The Tag table: tag id to tag name. */
    var tags: map<int, string>

    /** The keys and the foreign key from ImageTag to Tag hold. */
    ghost predicate Valid()
      reads this
    {
      UniqueIds(images) && forall t :: t in imageTags ==> t.tagId in tags
    }

    constructor(images: seq<Image>, imageTags: seq<ImageTag>, tags: map<int, string>)
      requires UniqueIds(images) && forall t :: t in imageTags ==> t.tagId in tags
      ensures Valid()
      ensures this.images == images && this.imageTags == imageTags && this.tags == tags
    {
      this.images := images;
      this.imageTags := imageTags;
      this.tags := tags;
    }

    /** `getImageById`: NotFound for an unknown id, otherwise the image and the names of its
        tags in relation order. */
    function GetImageById(imageId: int): (r: Result<ImageView, ServiceError>)
      requires Valid()
      reads this
      ensures r.Failure? <==> Find(images, imageId).None?
      ensures r.Failure? ==> r.error == NotFound(IMAGE_NOT_FOUND)
      ensures r.Success? ==> r.value.image == Find(images, imageId).value
    {
      match Find(images, imageId)
      case None => Failure(NotFound(IMAGE_NOT_FOUND))
      case Some(image) =>
        RowsOfMembers(imageTags, imageId);
        Success(ImageView(image, TagNames(RowsOf(imageTags, imageId), tags)))
    }

    /** `downloadImage`: the errors of `getImageById`, NotFound when the image has no cloud url,
        otherwise the url and the file name. */
    function DownloadImage(imageId: int): (r: Result<DownloadInfo, ServiceError>)
      requires Valid()
      reads this
      ensures r.Failure? ==> r.error.NotFound?
      ensures r.Success? ==> exists image :: image in images && image.imageId == imageId && image.cloudUrl == Some(r.value.downloadUrl)
      ensures r.Success? ==> r.value.downloadUrl != "" && r.value.filename == Filename(imageId)
    {
      match GetImageById(imageId)
      case Failure(e) => Failure(e)
      case Success(view) =>
        FindSpec(images, imageId);
        if Falsy(view.image.cloudUrl) then Failure(NotFound(DOWNLOAD_URL_NOT_FOUND))
        else Success(DownloadInfo(view.image.cloudUrl.value, Filename(view.image.imageId)))
    }

    /** `likeImage`: NotFound for an unknown id; otherwise that image's count goes up by one,
        every other row is kept, and the updated row is returned. */
    method LikeImage(imageId: int) returns (r: Result<Image, ServiceError>)
      requires Valid()
      modifies this
      ensures Valid()
      ensures imageTags == old(imageTags) && tags == old(tags)
      ensures r.Failure? <==> Find(old(images), imageId).None?
      ensures r.Failure? ==> r.error == NotFound(IMAGE_NOT_FOUND) && images == old(images)
      ensures r.Success? ==> var before := Find(old(images), imageId).value;
        && r.value == before.(likeCnt := before.likeCnt + 1)
        && images == Relike(old(images), imageId, before.likeCnt + 1)
    {
      var found := GetImageById(imageId);
      if found.Failure? {
        return Failure(found.error);
      }
      var image := found.value.image;
      images := Relike(images, imageId, image.likeCnt + 1);
      RelikeKeepsIds(old(images), imageId, image.likeCnt + 1);
      r := Success(image.(likeCnt := image.likeCnt + 1));
    }

    /** `unlikeImage`: NotFound for an unknown id; otherwise that image's count becomes one less,
        or zero when it is not positive, and the updated row is returned. */
    method UnlikeImage(imageId: int) returns (r: Result<Image, ServiceError>)
      requires Valid()
      modifies this
      ensures Valid()
      ensures imageTags == old(imageTags) && tags == old(tags)
      ensures r.Failure? <==> Find(old(images), imageId).None?
      ensures r.Failure? ==> r.error == NotFound(IMAGE_NOT_FOUND) && images == old(images)
      ensures r.Success? ==> var before := Find(old(images), imageId).value;
        && r.value == before.(likeCnt := UnlikeCount(before.likeCnt))
        && images == Relike(old(images), imageId, UnlikeCount(before.likeCnt))
    {
      var found := GetImageById(imageId);
      if found.Failure? {
        return Failure(found.error);
      }
      var image := found.value.image;
      var count: int;
      if image.likeCnt <= 0 {
        count := 0;
      } else {
        count := image.likeCnt - 1;
      }
      images := Relike(images, imageId, count);
      RelikeKeepsIds(old(images), imageId, count);
      r := Success(image.(likeCnt := count));
    }

    /** `getPopularImages`. */
    function GetPopularImages(): (r: seq<Image>)
      reads this
      ensures r == Popular(images)
      ensures |r| <= POPULAR_COUNT && multiset(r) <= multiset(images)
    {
      Popular(images)
    }
  }

  // ---------------------------------------------------------------------------------
  // Properties

  /** `findUnique` finds the row with the id, and finds nothing exactly when there is none. */
  lemma {:induction false} FindSpec(images: seq<Image>, imageId: int)
    ensures Find(images, imageId).None? <==> forall k :: 0 <= k < |images| ==> images[k].imageId != imageId
    ensures Find(images, imageId).Some? ==> Find(images, imageId).value in images && Find(images, imageId).value.imageId == imageId
  {
    if images != [] {
      FindSpec(images[1..], imageId);
      assert forall k :: 1 <= k < |images| ==> images[k] == images[1..][k - 1];
    }
  }

  /** The relation rows of an image are exactly its rows of the table. */
  lemma {:induction false} RowsOfMembers(imageTags: seq<ImageTag>, imageId: int)
    ensures forall t :: t in RowsOf(imageTags, imageId) <==> t in imageTags && t.imageId == imageId
  {
    if imageTags != [] {
      var prefix := imageTags[..|imageTags| - 1];
      RowsOfMembers(prefix, imageId);
      assert imageTags == prefix + [imageTags[|imageTags| - 1]];
    }
  }

  /** Relation order is table order: the rows of a longer table follow those of its prefix. */
  lemma {:induction false} RowsOfAppend(a: seq<ImageTag>, b: seq<ImageTag>, imageId: int)
    ensures RowsOf(a + b, imageId) == RowsOf(a, imageId) + RowsOf(b, imageId)
    decreases |b|
  {
    if b == [] {
      assert a + b == a;
    } else {
      var last := |b| - 1;
      assert (a + b)[..|a + b| - 1] == a + b[..last];
      RowsOfAppend(a, b[..last], imageId);
    }
  }

  /** `getImageById`'s tags: the k-th name is that of the k-th relation row of the image, and
      there is one name per row. */
  lemma ImageTags(store: ImageStore, imageId: int)
    requires store.Valid()
    requires store.GetImageById(imageId).Success?
    ensures var rows := RowsOf(store.imageTags, imageId);
      var names := store.GetImageById(imageId).value.tags;
      && |names| == |rows|
      && forall k :: 0 <= k < |rows| ==>
        (rows[k] in store.imageTags && rows[k].imageId == imageId && names[k] == store.tags[rows[k].tagId])
  {
    RowsOfMembers(store.imageTags, imageId);
  }

  /** `downloadImage` succeeds exactly for a known image with a cloud url, with that url and
      the name `meme_<id>.jpg`; an unknown id gives "Image not found". */
  lemma DownloadCases(store: ImageStore, imageId: int)
    requires store.Valid()
    ensures var r := store.DownloadImage(imageId);
      var found := Find(store.images, imageId);
      && (found.None? ==> r == Failure(NotFound(IMAGE_NOT_FOUND)))
      && (found.Some? && Falsy(found.value.cloudUrl) ==> r == Failure(NotFound(DOWNLOAD_URL_NOT_FOUND)))
      && (found.Some? && !Falsy(found.value.cloudUrl) ==>
            r == Success(DownloadInfo(found.value.cloudUrl.value, Filename(imageId))))
  {
    FindSpec(store.images, imageId);
  }

  /** Distinct images download under distinct names. */
  lemma FilenameInjective(a: int, b: int)
    requires Filename(a) == Filename(b)
    ensures a == b
  {
    var sa, sb := IntToString(a), IntToString(b);
    assert sa == Filename(a)[5..|Filename(a)| - 4];
    assert sb == Filename(b)[5..|Filename(b)| - 4];
    IntToStringInjective(a, b);
  }

  lemma RelikeKeepsIds(images: seq<Image>, imageId: int, count: int)
    requires UniqueIds(images)
    ensures UniqueIds(Relike(images, imageId, count))
  {
    var r := Relike(images, imageId, count);
    assert forall k :: 0 <= k < |images| ==> r[k].imageId == images[k].imageId;
  }

  /** A like changes the count of that image and nothing else: the row found afterwards is the
      old row with the new count, and every other id finds what it found before. */
  lemma {:induction false} RelikeFind(images: seq<Image>, imageId: int, count: int, other: int)
    ensures Find(Relike(images, imageId, count), imageId) ==
      if Find(images, imageId).Some? then Some(Find(images, imageId).value.(likeCnt := count)) else None
    ensures other != imageId ==> Find(Relike(images, imageId, count), other) == Find(images, other)
  {
    if images != [] {
      var r := Relike(images, imageId, count);
      assert r[1..] == Relike(images[1..], imageId, count);
      RelikeFind(images[1..], imageId, count, other);
    }
  }

  /** Unliking never leaves a negative count, and undoes a like of any non-negative count. */
  lemma UnlikeUndoesLike(likeCnt: int)
    ensures UnlikeCount(likeCnt) >= 0
    ensures likeCnt >= 0 ==> UnlikeCount(likeCnt + 1) == likeCnt
  {
  }

  /** A like followed by an unlike restores the table when the count was not negative. */
  lemma LikeThenUnlike(images: seq<Image>, imageId: int)
    requires Find(images, imageId).Some? && Find(images, imageId).value.likeCnt >= 0
    requires UniqueIds(images)
    ensures var c := Find(images, imageId).value.likeCnt;
      Relike(Relike(images, imageId, c + 1), imageId, UnlikeCount(c + 1)) == images
  {
    var c := Find(images, imageId).value.likeCnt;
    FindSpec(images, imageId);
    var r := Relike(Relike(images, imageId, c + 1), imageId, UnlikeCount(c + 1));
    forall k | 0 <= k < |images|
      ensures r[k] == images[k]
    {
      if images[k].imageId == imageId {
        var j :| 0 <= j < |images| && images[j] == Find(images, imageId).value;
        assert images[k] == images[j];
      }
    }
  }

  /** In a sorted permutation of `orig`, the first n elements come from `orig`, and nothing
      of `orig` outside them has a key below the n-th. */
  lemma SortedPrefixLeast<T>(s: seq<T>, orig: seq<T>, n: nat, key: T -> int)
    requires SortedBy(s, key) && multiset(s) == multiset(orig) && 0 < n <= |s|
    ensures multiset(s[..n]) <= multiset(orig)
    ensures forall x :: x in multiset(orig) - multiset(s[..n]) ==> key(s[n - 1]) <= key(x)
  {
    var rest := s[n..];
    assert s == s[..n] + rest;
    assert multiset(s) == multiset(s[..n]) + multiset(rest);
    forall x | x in multiset(orig) - multiset(s[..n])
      ensures key(s[n - 1]) <= key(x)
    {
      assert x in multiset(rest);
      var k :| 0 <= k < |rest| && rest[k] == x;
      assert s[n + k] == x;
    }
  }

  /** The popular images: at most ten, in non-increasing like order. */
  lemma PopularOrder(images: seq<Image>)
    ensures var top := Popular(images);
      && |top| == (if |images| <= POPULAR_COUNT then |images| else POPULAR_COUNT)
      && forall i, j :: 0 <= i < j < |top| ==> top[i].likeCnt >= top[j].likeCnt
  {
    var key := (i: Image) => -i.likeCnt;
    var sorted := SortBy(images, key);
    var top := Popular(images);
    forall i, j | 0 <= i < j < |top|
      ensures top[i].likeCnt >= top[j].likeCnt
    {
      assert top[i] == sorted[i] && top[j] == sorted[j];
      assert key(sorted[i]) <= key(sorted[j]);
    }
  }

  /** The popular images are taken from the table, and no image left out has more likes than
      the last one taken. */
  lemma PopularTop(images: seq<Image>)
    ensures var top := Popular(images);
      && multiset(top) <= multiset(images)
      && (top != [] ==> forall x :: x in multiset(images) - multiset(top) ==> x.likeCnt <= top[|top| - 1].likeCnt)
  {
    var key := (i: Image) => -i.likeCnt;
    var sorted := SortBy(images, key);
    var n := if |sorted| <= POPULAR_COUNT then |sorted| else POPULAR_COUNT;
    if n > 0 {
      SortedPrefixLeast(sorted, images, n, key);
    }
  }
}
