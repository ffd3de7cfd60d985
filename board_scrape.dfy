/** The board scraper of apps/ai/downloader/neo_pinterest.py: the pins of every board are
    gathered in board order, each pin is resolved to its image urls, and the images are
    downloaded under consecutive numeric file names, each success being recorded in the
    preparation database.

    The browser work is done by oracles: `browse(board)` lists the pin urls of a board,
    `resolve(pin)` gives the urls of a pin's image, and `download(url, savePath)` reports
    whether the download to that path succeeded and the image's size. The board list that
    `run_pinterest_scrape` reads from boards.json is a parameter. */
module BoardScrape {
  import opened Strings
  import opened Wrappers
  import PrepDb

  /** `IndvImageURL`. */
  datatype ImageUrl = ImageUrl(originalUrl: string, srcUrl: string)

  /** `ImageDL`. */
  datatype Download = Download(success: bool, width: int, height: int)

  // ---------------------------------------------------------------------------------
  // acquire_urls

  /** The pins of the boards, each board's pins in turn. */
  function Pins(boards: seq<string>, browse: string -> seq<string>): (r: seq<string>)
    ensures |boards| == 1 ==> r == browse(boards[0])
    ensures forall p :: p in r ==> exists k :: 0 <= k < |boards| && p in browse(boards[k])
  {
    if boards == [] then []
    else
      var init := boards[..|boards| - 1];
      assert forall k :: 0 <= k < |init| ==> init[k] == boards[k];
      if |boards| == 1 then
        assert Pins(init, browse) == [];
        [] + browse(boards[0])
      else Pins(init, browse) + browse(boards[|boards| - 1])
  }

  /** One image url entry per pin, in pin order. */
  function Resolved(pins: seq<string>, resolve: string -> ImageUrl): (urls: seq<ImageUrl>)
    ensures |urls| == |pins|
    ensures forall j :: 0 <= j < |pins| ==> urls[j] == resolve(pins[j])
  {
    seq(|pins|, j requires 0 <= j < |pins| => resolve(pins[j]))
  }

  /** `acquire_urls`: the pins of all boards, extended board by board, then one pin_saver
      call per pin. */
  method AcquireUrls(boards: seq<string>, browse: string -> seq<string>, resolve: string -> ImageUrl)
    returns (urls: seq<ImageUrl>)
    ensures urls == Resolved(Pins(boards, browse), resolve)
  {
    var pins: seq<string> := [];
    for k := 0 to |boards|
      invariant pins == Pins(boards[..k], browse)
    {
      var pinUrls := browse(boards[k]);
      assert boards[..k + 1][..k] == boards[..k];
      pins := pins + pinUrls;
    }
    assert boards[..|boards|] == boards;
    urls := [];
    for j := 0 to |pins|
      invariant urls == Resolved(pins[..j], resolve)
    {
      var imageUrl := resolve(pins[j]);
      urls := urls + [imageUrl];
    }
    assert pins[..|pins|] == pins;
  }

  /** The pins of a list of boards followed by another are the pins of the first list
      followed by those of the second. */
  lemma {:induction false} PinsAppend(a: seq<string>, b: seq<string>, browse: string -> seq<string>)
    ensures Pins(a + b, browse) == Pins(a, browse) + Pins(b, browse)
    decreases |b|
  {
    if b == [] {
      assert a + b == a;
    } else {
      var last := |b| - 1;
      var ab := a + b;
      assert ab[..|ab| - 1] == a + b[..last];
      assert ab[|ab| - 1] == b[last];
      PinsAppend(a, b[..last], browse);
      assert Pins(ab, browse) == Pins(a + b[..last], browse) + browse(b[last]);
      assert Pins(b, browse) == Pins(b[..last], browse) + browse(b[last]);
    }
  }

  /** Every pin of every board is listed, after the pins of the boards before it: board k's
      pins are a contiguous slice of the list. */
  lemma BoardPinsInOrder(boards: seq<string>, k: nat, browse: string -> seq<string>)
    requires k < |boards|
    ensures var start := |Pins(boards[..k], browse)|;
      var pins := Pins(boards, browse);
      start + |browse(boards[k])| <= |pins| && pins[start..start + |browse(boards[k])|] == browse(boards[k])
  {
    assert boards == boards[..k] + [boards[k]] + boards[k + 1..];
    PinsAppend(boards[..k] + [boards[k]], boards[k + 1..], browse);
    PinsAppend(boards[..k], [boards[k]], browse);
    assert Pins([boards[k]], browse) == browse(boards[k]) by {
      assert [boards[k]][..0] == [];
    }
  }

  // ---------------------------------------------------------------------------------
  // run_pinterest_scrape

  /** `os.path.join(base_path, name)` for a relative name. */
  function JoinPath(base: string, name: string): (r: string)
    ensures |r| >= |name| && r[|r| - |name|..] == name
    ensures |r| >= |base| && r[..|base|] == base
  {
    if base == [] then name
    else if base[|base| - 1] == '/' then base + name
    else base + "/" + name
  }

  /** The download path for the image numbered `number`: `{number}.jpg` under the base.
      It is kept as its two parts; `PathText` is the string the download is written to. */
  datatype SavePath = SavePath(base: string, number: int)

  function PathText(p: SavePath): (r: string)
    ensures |r| >= |p.base| + 4 && r[..|p.base|] == p.base && r[|r| - 4..] == ".jpg"
  {
    var name := IntToString(p.number) + ".jpg";
    var r := JoinPath(p.base, name);
    assert r[|r| - 4..] == r[|r| - |name|..][|name| - 4..];
    r
  }

  /** One successful download: the image urls, the path it was saved under and the size. */
  datatype Saved = Saved(url: ImageUrl, path: SavePath, size: Download)

  /** The successful downloads, in order, of the urls when the cursor starts at `cursor`: a
      success moves the cursor on, a failure leaves it for the next url. */
  function SavedFrom(urls: seq<ImageUrl>, base: string, cursor: int, download: (string, SavePath) -> Download): (r: seq<Saved>)
    ensures |r| <= |urls|
    ensures forall k :: 0 <= k < |r| ==> r[k].size.success
    decreases |urls|
  {
    if urls == [] then []
    else
      var path := SavePath(base, cursor);
      var dl := download(urls[0].originalUrl, path);
      if dl.success then [Saved(urls[0], path, dl)] + SavedFrom(urls[1..], base, cursor + 1, download)
      else SavedFrom(urls[1..], base, cursor, download)
  }

  /** The row `add_meme` stores for a saved image under a given id. */
  function NewRow(id: int, s: Saved): (r: PrepDb.ImageRow)
    ensures r.imageId == id && r.originalUrl == Some(s.url.originalUrl) && r.srcUrl == Some(s.url.srcUrl)
    ensures r.likeCnt == 0 && r.caption.None? && r.cloudUrl.None? && r.status == Some(PrepDb.PENDING)
  {
    PrepDb.ImageRow(id, Some(s.url.originalUrl), 0, s.size.width, s.size.height, Some(s.url.srcUrl), None, None, Some(PrepDb.PENDING))
  }

  /** The rows added for the saved images, numbered from `firstId`. */
  function NewRows(saved: seq<Saved>, firstId: int): (r: seq<PrepDb.ImageRow>)
    ensures |r| == |saved|
    ensures forall j :: 0 <= j < |r| ==> r[j].imageId == firstId + j && r[j].status == Some(PrepDb.PENDING)
    ensures forall j :: 0 <= j < |r| ==> r[j].originalUrl == Some(saved[j].url.originalUrl)
  {
    seq(|saved|, j requires 0 <= j < |saved| => NewRow(firstId + j, saved[j]))
  }

  /** One pass of the download loop: the url is downloaded to the cursor's path and, on
      success, recorded with `add_meme` and the cursor moved on. */
  method ScrapeUrl(db: PrepDb.Store, url: ImageUrl, basePath: string, idCursor: int, download: (string, SavePath) -> Download)
    returns (next: int, ghost out: seq<Saved>)
    requires db.Valid()
    modifies db
    ensures db.Valid()
    ensures out == SavedFrom([url], basePath, idCursor, download)
    ensures next == idCursor + |out|
    ensures db.images == old(db.images) + NewRows(out, old(db.nextImageId))
    ensures db.nextImageId == old(db.nextImageId) + |out|
    ensures db.imageTags == old(db.imageTags) && db.nextImageTagId == old(db.nextImageTagId)
  {
    var rawImageUrl := url.originalUrl;
    var savePath := SavePath(basePath, idCursor);
    var dlResponse := download(rawImageUrl, savePath);
    assert [url][1..] == [];
    if dlResponse.success {
      var _ := db.AddMeme(rawImageUrl, dlResponse.width, dlResponse.height, url.srcUrl);
      out := [Saved(url, savePath, dlResponse)];
      next := idCursor + 1;
    } else {
      out := [];
      next := idCursor;
    }
  }

  /** The download loop of `run_pinterest_scrape`: one download per url, saved under the
      cursor's number, one `add_meme` per success; the cursor after the last success is
      returned. */
  method DownloadAll(db: PrepDb.Store, urls: seq<ImageUrl>, basePath: string, startId: int, download: (string, SavePath) -> Download)
    returns (cursor: int)
    requires db.Valid()
    modifies db
    ensures db.Valid()
    ensures cursor == startId + |SavedFrom(urls, basePath, startId, download)|
    ensures db.images == old(db.images) + NewRows(SavedFrom(urls, basePath, startId, download), old(db.nextImageId))
    ensures db.nextImageId == old(db.nextImageId) + |SavedFrom(urls, basePath, startId, download)|
    ensures db.imageTags == old(db.imageTags) && db.nextImageTagId == old(db.nextImageTagId)
  {
    var idCursor := startId;
    ghost var saved: seq<Saved> := [];
    for k := 0 to |urls|
      invariant db.Valid()
      invariant Progress(urls, k, basePath, startId, idCursor, download, saved)
      invariant idCursor == startId + |saved|
      invariant db.images == old(db.images) + NewRows(saved, old(db.nextImageId))
      invariant db.nextImageId == old(db.nextImageId) + |saved|
      invariant db.imageTags == old(db.imageTags) && db.nextImageTagId == old(db.nextImageTagId)
    {
      ghost var rowsBefore := db.images;
      ghost var firstId := old(db.nextImageId);
      ghost var nextBefore := db.nextImageId;
      var next, out := ScrapeUrl(db, urls[k], basePath, idCursor, download);
      assert db.images == rowsBefore + NewRows(out, nextBefore);
      ScrapeProgress(urls, k, basePath, startId, idCursor, download, saved, out);
      RowsProgress(old(db.images), rowsBefore, db.images, saved, out, firstId);
      saved := saved + out;
      idCursor := next;
    }
    ProgressDone(urls, basePath, startId, idCursor, download, saved);
    cursor := idCursor;
  }

  /** `run_pinterest_scrape`: the urls of the boards' pins, downloaded in order under
      consecutive numbers from `startId`, each success recorded as a PENDING row. */
  method RunPinterestScrape(db: PrepDb.Store, startId: int, basePath: string, boards: seq<string>,
      browse: string -> seq<string>, resolve: string -> ImageUrl, download: (string, SavePath) -> Download)
    returns (cursor: int)
    requires db.Valid()
    modifies db
    ensures db.Valid()
    ensures var saved := SavedFrom(Resolved(Pins(boards, browse), resolve), basePath, startId, download);
      && cursor == startId + |saved|
      && db.images == old(db.images) + NewRows(saved, old(db.nextImageId))
      && db.nextImageId == old(db.nextImageId) + |saved|
      && db.imageTags == old(db.imageTags) && db.nextImageTagId == old(db.nextImageTagId)
  {
    var urls := AcquireUrls(boards, browse, resolve);
    cursor := DownloadAll(db, urls, basePath, startId, download);
  }

  /** After the first k urls, `saved` are the successes so far and the cursor stands at
      `cursor`. */
  ghost predicate Progress(urls: seq<ImageUrl>, k: nat, base: string, startId: int, cursor: int,
      download: (string, SavePath) -> Download, saved: seq<Saved>)
  {
    k <= |urls| && SavedFrom(urls, base, startId, download) == saved + SavedFrom(urls[k..], base, cursor, download)
  }

  lemma ProgressDone(urls: seq<ImageUrl>, base: string, startId: int, cursor: int,
      download: (string, SavePath) -> Download, saved: seq<Saved>)
    requires Progress(urls, |urls|, base, startId, cursor, download, saved)
    ensures SavedFrom(urls, base, startId, download) == saved
  {
    assert urls[|urls|..] == [];
    assert saved + [] == saved;
  }

  /** The loop invariant over the downloads survives one more url. */
  lemma ScrapeProgress(urls: seq<ImageUrl>, k: nat, base: string, startId: int, cursor: int,
      download: (string, SavePath) -> Download, saved: seq<Saved>, out: seq<Saved>)
    requires k < |urls|
    requires Progress(urls, k, base, startId, cursor, download, saved)
    requires out == SavedFrom([urls[k]], base, cursor, download)
    ensures Progress(urls, k + 1, base, startId, cursor + |out|, download, saved + out)
  {
    SavedFromSplit(urls, k, base, cursor, download);
    AppendAssoc(saved, out, SavedFrom(urls[k + 1..], base, cursor + |out|, download));
  }

  /** The loop invariant over the Image table survives one more url. */
  lemma RowsProgress(images0: seq<PrepDb.ImageRow>, before: seq<PrepDb.ImageRow>, after: seq<PrepDb.ImageRow>,
      saved: seq<Saved>, out: seq<Saved>, firstId: int)
    requires before == images0 + NewRows(saved, firstId)
    requires after == before + NewRows(out, firstId + |saved|)
    ensures after == images0 + NewRows(saved + out, firstId)
  {
    NewRowsConcat(saved, out, firstId);
    AppendAssoc(images0, NewRows(saved, firstId), NewRows(out, firstId + |saved|));
  }

  /** The urls from k on: the outcome of url k, then the rest from the cursor it leaves. */
  lemma SavedFromSplit(urls: seq<ImageUrl>, k: nat, base: string, cursor: int, download: (string, SavePath) -> Download)
    requires k < |urls|
    ensures var first := SavedFrom([urls[k]], base, cursor, download);
      SavedFrom(urls[k..], base, cursor, download)
        == first + SavedFrom(urls[k + 1..], base, cursor + |first|, download)
  {
    var rest := urls[k..];
    assert rest[0] == urls[k] && rest[1..] == urls[k + 1..];
    var path := SavePath(base, cursor);
    var dl := download(urls[k].originalUrl, path);
    assert SavedFrom([], base, cursor, download) == [] && SavedFrom([], base, cursor + 1, download) == [];
    assert [urls[k]][1..] == [];
    if dl.success {
      assert SavedFrom([urls[k]], base, cursor, download) == [Saved(urls[k], path, dl)];
    } else {
      assert SavedFrom([urls[k]], base, cursor, download) == [];
    }
  }

  lemma NewRowsConcat(a: seq<Saved>, b: seq<Saved>, firstId: int)
    ensures NewRows(a + b, firstId) == NewRows(a, firstId) + NewRows(b, firstId + |a|)
  {
  }

  lemma AppendAssoc<T>(a: seq<T>, b: seq<T>, c: seq<T>)
    ensures (a + b) + c == a + (b + c)
  {
  }

  // ---------------------------------------------------------------------------------
  // Properties of the cursor

  /** Every saved image was a successful download of one of the urls, and there are no more
      of them than urls. */
  lemma {:induction false} SavedAreSuccesses(urls: seq<ImageUrl>, base: string, cursor: int, download: (string, SavePath) -> Download)
    ensures |SavedFrom(urls, base, cursor, download)| <= |urls|
    ensures forall s :: s in SavedFrom(urls, base, cursor, download) ==> s.url in urls && s.size.success
    decreases |urls|
  {
    if urls != [] {
      SavedAreSuccesses(urls[1..], base, cursor, download);
      SavedAreSuccesses(urls[1..], base, cursor + 1, download);
    }
  }

  /** Successes take consecutive numbers: the j-th saved image went to the path numbered
      cursor + j, whatever failures came between; a failed download's number is used again
      by the next url. */
  lemma {:induction false} SavedPathsConsecutive(urls: seq<ImageUrl>, base: string, cursor: int, download: (string, SavePath) -> Download)
    ensures forall j :: 0 <= j < |SavedFrom(urls, base, cursor, download)| ==>
      SavedFrom(urls, base, cursor, download)[j].path == SavePath(base, cursor + j)
    decreases |urls|
  {
    if urls != [] {
      SavedPathsConsecutive(urls[1..], base, cursor, download);
      SavedPathsConsecutive(urls[1..], base, cursor + 1, download);
    }
  }

  /** Started at the database's next id, the scraper names every file after the row it
      records: the image saved j-th gets the row id start + j and was saved as
      `{start + j}.jpg`. Distinct rows have distinct files. */
  lemma FilesMatchRows(saved: seq<Saved>, urls: seq<ImageUrl>, base: string, startId: int, download: (string, SavePath) -> Download)
    requires saved == SavedFrom(urls, base, startId, download)
    ensures forall j :: 0 <= j < |saved| ==>
      NewRows(saved, startId)[j].imageId == startId + j && saved[j].path == SavePath(base, NewRows(saved, startId)[j].imageId)
    ensures forall i, j :: 0 <= i < j < |saved| ==> PathText(saved[i].path) != PathText(saved[j].path)
  {
    SavedPathsConsecutive(urls, base, startId, download);
    forall i, j | 0 <= i < j < |saved| ensures PathText(saved[i].path) != PathText(saved[j].path) {
      if PathText(saved[i].path) == PathText(saved[j].path) {
        PathTextInjective(base, startId + i, startId + j);
      }
    }
  }

  /** Different numbers give different paths under the same base. */
  lemma PathTextInjective(base: string, a: int, b: int)
    requires PathText(SavePath(base, a)) == PathText(SavePath(base, b))
    ensures a == b
  {
    var sa, sb := IntToString(a) + ".jpg", IntToString(b) + ".jpg";
    var prefix := if base == [] then "" else if base[|base| - 1] == '/' then base else base + "/";
    assert PathText(SavePath(base, a)) == prefix + sa && PathText(SavePath(base, b)) == prefix + sb;
    assert sa == (prefix + sa)[|prefix|..];
    assert sb == (prefix + sb)[|prefix|..];
    assert IntToString(a) == sa[..|sa| - 4];
    assert IntToString(b) == sb[..|sb| - 4];
    IntToStringInjective(a, b);
  }
}
